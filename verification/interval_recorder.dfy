/**
 * Interval recording: the observation is split into `count` intervals of `duration` seconds; a
 * one-second timer counts each interval down and advances to the next, stopping after the last;
 * while it runs the observer marks whether the behaviour occurred in the current interval.
 * One timer firing is one call of `Tick`; the clock reading `now` (ms) is a parameter.
 */
module IntervalRecorder {
  import opened Wrappers
  import opened Seqs
  import opened Arith
  import opened DataCollectionTypes

  datatype State = State(
    intervals: seq<IntervalData>,
    current: nat,
    timeRemaining: int,
    running: bool,
    count: nat,
    duration: nat)

  /** The number fields of the configuration form: an empty or zero entry falls back to the default. */
  function NumberInput(entered: Option<int>, default: int): (n: int)
    requires default != 0
    ensures n != 0
    ensures entered.Some? && entered.value != 0 ==> n == entered.value
    ensures (entered.None? || entered.value == 0) ==> n == default
  {
    if entered.Some? && entered.value != 0 then entered.value else default
  }

  /** "Iniciar Registro": `count` unmarked intervals numbered from 1, the clock at one full interval. */
  function Configure(count: nat, duration: nat, now: int): (s: State)
    ensures |s.intervals| == count && s.current == 0 && !s.running
    ensures s.timeRemaining == duration
    ensures forall i :: 0 <= i < count ==> s.intervals[i].intervalNumber == i + 1 && s.intervals[i].occurred == None
    ensures count >= 1 && duration >= 1 ==> Valid(s) && TicksLeft(s) == count * duration
  {
    var s := State(seq(count, i requires 0 <= i < count => IntervalData(i + 1, None, now, None)), 0, duration, false, count, duration);
    assert (count - 1) * duration + duration == count * duration;
    s
  }

  /** The recorder's consistency: the current interval exists and the clock is within one interval. */
  predicate Valid(s: State) {
    s.count >= 1 && s.duration >= 1 && |s.intervals| == s.count
    && s.current < s.count && 0 <= s.timeRemaining <= s.duration
  }

  /** Seconds of observation still ahead: the rest of this interval plus every later one. */
  function TicksLeft(s: State): int {
    (s.count - 1 - s.current) * s.duration + s.timeRemaining
  }

  /** "Iniciar Cronómetro". */
  function Start(s: State): (r: State)
    ensures r.running && r == s.(running := true)
  {
    s.(running := true)
  }

  /** One second of the running timer: count down, then move to the next interval or stop after the last. */
  function Tick(s: State): (r: State)
    ensures !(s.running && s.timeRemaining > 0) ==> r == s
    ensures r.intervals == s.intervals && r.count == s.count && r.duration == s.duration
  {
    if !(s.running && s.timeRemaining > 0) then s
    else if s.timeRemaining <= 1 then
      if s.current < s.count - 1 then s.(current := s.current + 1, timeRemaining := s.duration)
      else s.(running := false, timeRemaining := 0)
    else s.(timeRemaining := s.timeRemaining - 1)
  }

  /** Every tick of a running clock consumes exactly one second of the observation and keeps the state valid. */
  lemma TickConsumesOneSecond(s: State)
    requires Valid(s) && s.running && s.timeRemaining > 0
    ensures Valid(Tick(s))
    ensures TicksLeft(Tick(s)) == TicksLeft(s) - 1
    ensures Tick(s).running <==> TicksLeft(Tick(s)) > 0
    ensures Tick(s).running ==> Tick(s).timeRemaining > 0
    ensures Tick(s).current >= s.current
  {
    var r := Tick(s);
    if s.timeRemaining <= 1 && s.current < s.count - 1 {
      assert TicksLeft(r) == (s.count - 1 - s.current - 1) * s.duration + s.duration;
      assert (s.count - 1 - s.current - 1) * s.duration + s.duration == (s.count - 1 - s.current) * s.duration;
      assert (s.count - 1 - s.current - 1) * s.duration >= 0 by {
        MulMono(s.duration, 0, s.count - 1 - s.current - 1);
      }
    } else if s.timeRemaining > 1 {
      assert (s.count - 1 - s.current) * s.duration >= 0 by {
        MulMono(s.duration, 0, s.count - 1 - s.current);
      }
    }
  }

  function Ticks(s: State, k: nat): State
    decreases k
  {
    if k == 0 then s else Ticks(Tick(s), k - 1)
  }

  /** Left running, the timer stops by itself on the last interval after exactly `TicksLeft` seconds. */
  lemma {:induction false} RunToCompletion(s: State)
    requires Valid(s) && s.running && s.timeRemaining > 0
    ensures TicksLeft(s) > 0
    ensures var e := Ticks(s, TicksLeft(s) as nat);
      Valid(e) && !e.running && e.timeRemaining == 0 && e.current == e.count - 1
      && e.count == s.count && e.intervals == s.intervals
    decreases TicksLeft(s)
  {
    assert (s.count - 1 - s.current) * s.duration >= 0 by {
      MulMono(s.duration, 0, s.count - 1 - s.current);
    }
    var t := Tick(s);
    TickConsumesOneSecond(s);
    if t.running {
      RunToCompletion(t);
    } else {
      assert TicksLeft(t) == 0;
      assert t.current == t.count - 1 by {
        if t.current < t.count - 1 {
          MulMono(t.duration, 1, t.count - 1 - t.current);
        }
      }
    }
  }

  /** A fresh session started and left alone runs `count * duration` seconds and ends on the last interval. */
  lemma FreshSessionRunsFullLength(count: nat, duration: nat, now: int)
    requires count >= 1 && duration >= 1
    ensures var e := Ticks(Start(Configure(count, duration, now)), count * duration);
      !e.running && e.timeRemaining == 0 && e.current == count - 1
  {
    var s := Start(Configure(count, duration, now));
    assert Valid(s) && TicksLeft(s) == count * duration;
    RunToCompletion(s);
    assert TicksLeft(s) as nat == count * duration;
  }

  /** "Ocurrió" / "No Ocurrió": marks the current interval, stamping the time and the seconds left in it. */
  function RecordOccurrence(s: State, occurred: bool, now: int): (r: State)
    requires s.current < |s.intervals|
    ensures |r.intervals| == |s.intervals|
    ensures r.intervals[s.current].occurred == Some(occurred)
    ensures r.intervals[s.current].intervalNumber == s.intervals[s.current].intervalNumber
    ensures r.intervals[s.current].timeRemaining == Some(s.timeRemaining)
    ensures forall i :: 0 <= i < |s.intervals| && i != s.current ==> r.intervals[i] == s.intervals[i]
    ensures r.(intervals := s.intervals) == s
  {
    var iv := s.intervals[s.current];
    s.(intervals := s.intervals[s.current := iv.(occurred := Some(occurred), timestamp := now, timeRemaining := Some(s.timeRemaining))])
  }

  // ----- percentage -----

  predicate IsMarked(iv: IntervalData) {
    iv.occurred.Some?
  }

  predicate HasOccurrence(iv: IntervalData) {
    iv.occurred == Some(true)
  }

  function Recorded(ivs: seq<IntervalData>): nat {
    |Filter(ivs, IsMarked)|
  }

  function Occurred(ivs: seq<IntervalData>): nat {
    |Filter(ivs, HasOccurrence)|
  }

  lemma {:induction false} OccurredWithinRecorded(ivs: seq<IntervalData>)
    ensures Occurred(ivs) <= Recorded(ivs)
  {
    if |ivs| > 0 {
      OccurredWithinRecorded(ivs[1..]);
    }
  }

  lemma {:induction false} AllMarkedAreRecorded(ivs: seq<IntervalData>)
    requires forall i :: 0 <= i < |ivs| ==> ivs[i].occurred.Some?
    ensures Recorded(ivs) == |ivs|
  {
    if |ivs| > 0 {
      AllMarkedAreRecorded(ivs[1..]);
    }
  }

  /** Rounded percentage of marked intervals in which the behaviour occurred; unmarked ones are ignored. */
  function Percentage(ivs: seq<IntervalData>): (p: int)
    ensures 0 <= p <= 100
    ensures Recorded(ivs) == 0 ==> p == 0
    ensures Recorded(ivs) > 0 ==>
      2 * Recorded(ivs) * p - Recorded(ivs) <= 200 * Occurred(ivs) < 2 * Recorded(ivs) * p + Recorded(ivs)
    ensures Recorded(ivs) > 0 && Occurred(ivs) == Recorded(ivs) ==> p == 100
  {
    var rec := Recorded(ivs);
    if rec > 0 then
      OccurredWithinRecorded(ivs);
      RoundedPercentInRange(Occurred(ivs), rec);
      RoundDiv(100 * Occurred(ivs), rec)
    else 0
  }

  /** Three occurrences among four marked intervals (the fifth left unmarked) score 75%. */
  lemma PercentageExample(ivs: seq<IntervalData>)
    requires |ivs| == 5
    requires ivs[0].occurred == Some(true) && ivs[1].occurred == Some(true) && ivs[2].occurred == Some(false)
    requires ivs[3].occurred == Some(true) && ivs[4].occurred.None?
    ensures Recorded(ivs) == 4 && Occurred(ivs) == 3
    ensures Percentage(ivs) == 75
  {
    CountFive(ivs, IsMarked);
    CountFive(ivs, HasOccurrence);
    assert RoundDiv(300, 4) == 75;
  }

  /** The filter of a five-element list, counted element by element. */
  lemma CountFive<T>(s: seq<T>, p: T -> bool)
    requires |s| == 5
    ensures |Filter(s, p)| == (if p(s[0]) then 1 else 0) + (if p(s[1]) then 1 else 0) + (if p(s[2]) then 1 else 0)
      + (if p(s[3]) then 1 else 0) + (if p(s[4]) then 1 else 0)
  {
    assert s[5..] == [] && s[0..] == s;
    FilterSuffixLength(s, 4, p);
    FilterSuffixLength(s, 3, p);
    FilterSuffixLength(s, 2, p);
    FilterSuffixLength(s, 1, p);
    FilterSuffixLength(s, 0, p);
  }

  /** "Finalizar y Guardar" is enabled once every interval is marked. */
  predicate CanSave(s: State) {
    forall i :: 0 <= i < |s.intervals| ==> s.intervals[i].occurred.Some?
  }

  /** A savable session's percentage is taken over all of its intervals. */
  lemma SavedPercentageCoversAll(s: State)
    requires CanSave(s)
    ensures Recorded(s.intervals) == |s.intervals|
  {
    AllMarkedAreRecorded(s.intervals);
  }
}
