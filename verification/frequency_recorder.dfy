/**
 * Frequency recording: a tally of events with an undo, a stopwatch that counts seconds while it
 * runs, and the event rate per minute rounded to one decimal. The clock reading `now` (ms since
 * the epoch) is a parameter; one stopwatch firing is one call of `Tick`.
 */
module FrequencyRecorder {
  import opened Wrappers
  import opened Arith
  import opened Text
  import opened Clock

  datatype Event = Event(id: string, timestamp: int)

  datatype State = State(count: nat, events: seq<Event>, running: bool, elapsed: nat)

  datatype Record = Record(count: nat, duration: nat, rate: real, events: seq<Event>)

  const Initial := State(0, [], false, 0)

  /** The tally matches the event log. */
  predicate Valid(s: State) {
    s.count == |s.events|
  }

  /** "+": one more event, logged with an id derived from the clock. */
  function Increment(s: State, now: nat): (r: State)
    ensures r.count == s.count + 1 && |r.events| == |s.events| + 1
    ensures r.events[..|s.events|] == s.events && r.events[|s.events|].timestamp == now
    ensures r.running == s.running && r.elapsed == s.elapsed
    ensures Valid(s) ==> Valid(r)
  {
    s.(count := s.count + 1, events := s.events + [Event("event-" + NatToString(now), now)])
  }

  /** "-": withdraws the last event; nothing happens at zero. */
  function Decrement(s: State): (r: State)
    ensures s.count == 0 ==> r == s
    ensures s.count > 0 ==> r.count == s.count - 1
    ensures s.count > 0 && |s.events| > 0 ==> r.events == s.events[..|s.events| - 1]
    ensures r.running == s.running && r.elapsed == s.elapsed
    ensures Valid(s) ==> Valid(r)
  {
    if s.count > 0 then
      s.(count := s.count - 1, events := if |s.events| == 0 then [] else s.events[..|s.events| - 1])
    else s
  }

  /** "-" undoes "+". */
  lemma DecrementUndoesIncrement(s: State, now: nat)
    ensures Decrement(Increment(s, now)) == s
  {
    assert (s.events + [Event("event-" + NatToString(now), now)])[..|s.events|] == s.events;
  }

  function ToggleTimer(s: State): (r: State)
    ensures r.running != s.running && r.(running := s.running) == s
  {
    s.(running := !s.running)
  }

  /** One second of the stopwatch: counts only while running. */
  function Tick(s: State): (r: State)
    ensures r.elapsed == if s.running then s.elapsed + 1 else s.elapsed
    ensures r.(elapsed := s.elapsed) == s
  {
    if s.running then s.(elapsed := s.elapsed + 1) else s
  }

  /** Toggling twice restores the stopwatch state. */
  lemma ToggleTwice(s: State)
    ensures ToggleTimer(ToggleTimer(s)) == s
  {
  }

  /** Events per minute, rounded to one decimal; 0 before the stopwatch has counted a second. */
  function Rate(count: nat, elapsed: nat): (r: real)
    ensures elapsed == 0 ==> r == 0.0
    ensures r >= 0.0
    ensures elapsed > 0 ==>
      (r - 0.05) * elapsed as real <= 60.0 * count as real < (r + 0.05) * elapsed as real
    ensures IsTenth(r)
  {
    if elapsed == 0 then 0.0
    else
      var k := RoundDiv(600 * count, elapsed);
      RateBounds(count, elapsed, k);
      assert (k as real / 10.0) * 10.0 == k as real;
      k as real / 10.0
  }

  /** The rate is exactly the source's `Math.round(count / elapsed * 60 * 10) / 10`. */
  lemma RateIsRoundedPerMinute(count: nat, elapsed: nat)
    requires elapsed > 0
    ensures Rate(count, elapsed) == Round10(count as real / elapsed as real * 60.0)
  {
    var r := Rate(count, elapsed);
    var e := elapsed as real;
    var x := count as real / e * 60.0;
    assert x * e == 60.0 * count as real;
    BandOverPositive(x, r, e, 60.0 * count as real);
    Round10Unique(x, r);
  }

  /** Dividing the band `(r - 1/20)·e <= c < (r + 1/20)·e` by a positive `e`. */
  lemma BandOverPositive(x: real, r: real, e: real, c: real)
    requires e > 0.0 && x * e == c
    requires (r - 0.05) * e <= c < (r + 0.05) * e
    ensures -0.05 <= x - r < 0.05
  {
    assert (x - (r - 0.05)) * e == c - (r - 0.05) * e;
    assert ((r + 0.05) - x) * e == (r + 0.05) * e - c;
    PositiveFactor(x - (r - 0.05), e);
    PositiveFactor((r + 0.05) - x, e);
  }

  lemma RateBounds(count: nat, elapsed: nat, k: int)
    requires elapsed > 0
    requires 2 * elapsed * k - elapsed <= 2 * (600 * count) < 2 * elapsed * k + elapsed
    ensures k >= 0 && k == RoundDiv(600 * count, elapsed)
    ensures (k as real / 10.0 - 0.05) * elapsed as real <= 60.0 * count as real < (k as real / 10.0 + 0.05) * elapsed as real
  {
    assert elapsed * (-(2 * k + 1)) == -(2 * elapsed * k + elapsed);
    ProductSign(elapsed, -(2 * k + 1));
    var e := elapsed as real;
    var c := count as real;
    var kr := k as real;
    assert ((2 * elapsed * k - elapsed) as real) <= 1200.0 * c;
    assert ((2 * elapsed * k - elapsed) as real) == 2.0 * e * kr - e;
    assert (kr / 10.0 - 0.05) * e == (2.0 * e * kr - e) / 20.0;
    assert 1200.0 * c < (2 * elapsed * k + elapsed) as real;
    assert (2 * elapsed * k + elapsed) as real == 2.0 * e * kr + e;
    assert (kr / 10.0 + 0.05) * e == (2.0 * e * kr + e) / 20.0;
    DivUnique(2 * (600 * count) + elapsed, 2 * elapsed, k);
  }

  /** Thirty events over one minute is a rate of 30.0 per minute. */
  lemma RateExample()
    ensures Rate(30, 60) == 30.0
  {
    assert RoundDiv(600 * 30, 60) == 300;
  }

  /** "Guardar": the tally, the stopwatch reading, the rate and the event log. */
  function Save(s: State): (r: Record)
    ensures r.count == s.count && r.duration == s.elapsed && r.events == s.events
    ensures r.rate == Rate(s.count, s.elapsed)
    ensures Valid(s) ==> r.count == |r.events|
  {
    Record(s.count, s.elapsed, Rate(s.count, s.elapsed), s.events)
  }

  /** The stopwatch display, `MM:SS`; it reads back as the elapsed seconds. */
  function Display(s: State): (t: string)
    ensures ParseClock(t) == Some(s.elapsed)
  {
    ClockRoundTrip(s.elapsed);
    FormatClock(s.elapsed)
  }
}
