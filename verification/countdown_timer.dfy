/**
 * The countdown hook: a session timer of a whole number of minutes that counts down one second
 * per firing while running, stops itself at zero, and can be started, paused and reset.
 */
module CountdownTimer {
  import opened Wrappers
  import opened Clock

  datatype State = State(minutes: nat, remaining: nat, running: bool)

  /** The hook's initial state; "reset" returns to it. */
  function Init(minutes: nat): (s: State)
    ensures s.remaining == minutes * 60 && !s.running && s.minutes == minutes
  {
    State(minutes, minutes * 60, false)
  }

  function Start(s: State): (r: State)
    ensures r.running && r.(running := s.running) == s
  {
    s.(running := true)
  }

  function Pause(s: State): (r: State)
    ensures !r.running && r.(running := s.running) == s
  {
    s.(running := false)
  }

  function Reset(s: State): (r: State)
    ensures r == Init(s.minutes)
  {
    s.(remaining := s.minutes * 60, running := false)
  }

  /** One second of a running timer: at one second or less it stops at zero. */
  function Tick(s: State): (r: State)
    ensures !(s.running && s.remaining > 0) ==> r == s
    ensures s.running && s.remaining > 1 ==> r.remaining == s.remaining - 1 && r.running
    ensures s.running && s.remaining == 1 ==> r.remaining == 0 && !r.running
    ensures r.minutes == s.minutes && r.remaining <= s.remaining
  {
    if !(s.running && s.remaining > 0) then s
    else if s.remaining <= 1 then s.(remaining := 0, running := false)
    else s.(remaining := s.remaining - 1)
  }

  predicate IsExpired(s: State) {
    s.remaining == 0
  }

  function Ticks(s: State, k: nat): State
    decreases k
  {
    if k == 0 then s else Ticks(Tick(s), k - 1)
  }

  /** A running timer with `k` seconds left expires and stops after exactly `k` ticks, and not before. */
  lemma {:induction false} RunsOut(s: State)
    requires s.running && s.remaining > 0
    ensures var e := Ticks(s, s.remaining); IsExpired(e) && !e.running && e.minutes == s.minutes
    ensures forall j :: 0 <= j < s.remaining ==> !IsExpired(Ticks(s, j))
    decreases s.remaining
  {
    var t := Tick(s);
    if s.remaining > 1 {
      RunsOut(t);
      forall j | 0 <= j < s.remaining
        ensures !IsExpired(Ticks(s, j))
      {
        if j > 0 {
          assert Ticks(s, j) == Ticks(t, j - 1);
        }
      }
    } else {
      assert Ticks(s, 1) == Ticks(t, 0);
    }
  }

  /** A started session of `minutes > 0` expires after exactly `minutes * 60` seconds. */
  lemma SessionLength(minutes: nat)
    requires minutes > 0
    ensures IsExpired(Ticks(Start(Init(minutes)), minutes * 60))
    ensures !IsExpired(Ticks(Start(Init(minutes)), minutes * 60 - 1))
  {
    RunsOut(Start(Init(minutes)));
  }

  /** The display, `MM:SS`; it reads back as the seconds remaining. */
  function Formatted(s: State): (t: string)
    ensures ParseClock(t) == Some(s.remaining)
  {
    ClockRoundTrip(s.remaining);
    FormatClock(s.remaining)
  }
}
