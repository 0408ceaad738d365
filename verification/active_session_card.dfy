/**
 * The dashboard's active-session card: the progress of each running session from the minutes
 * elapsed since its start, the bar colour by minutes remaining, and the per-session expand toggle.
 * The session start is given in milliseconds; the clock is a parameter.
 */
module ActiveSessionCard {
  import opened Wrappers
  import opened Arith

  datatype Progress = Progress(percentage: Option<real>, elapsed: nat, remaining: nat)

  /** `Math.floor(ms / 60000)`: whole minutes, rounded down also for a start in the future. */
  function ElapsedMinutes(elapsedMs: int): (m: int)
    ensures m * 60000 <= elapsedMs < m * 60000 + 60000
  {
    elapsedMs / 60000
  }

  /**
   * `(elapsedMinutes / duration) * 100` clamped to [0, 100]. A zero duration divides by zero:
   * a positive numerator gives Infinity (clamped to 100), a negative one -Infinity (clamped to 0),
   * and zero gives NaN, which the clamps pass through (`None`).
   */
  function ClampedPercentage(minutes: int, duration: nat): (p: Option<real>)
    ensures p.None? <==> duration == 0 && minutes == 0
    ensures p.Some? ==> 0.0 <= p.value <= 100.0
    ensures p.Some? && duration > 0 ==>
      (minutes <= 0 ==> p.value == 0.0)
      && (minutes >= duration ==> p.value == 100.0)
      && (0 <= minutes <= duration ==> p.value * duration as real == 100.0 * minutes as real)
    ensures duration == 0 && minutes > 0 ==> p == Some(100.0)
    ensures duration == 0 && minutes < 0 ==> p == Some(0.0)
  {
    if duration == 0 then
      if minutes > 0 then Some(100.0) else if minutes < 0 then Some(0.0) else None
    else
      var raw := minutes as real / duration as real * 100.0;
      assert raw * duration as real == 100.0 * minutes as real;
      var clamped := if raw < 100.0 then raw else 100.0;
      Some(if clamped > 0.0 then clamped else 0.0)
  }

  /** The progress of a session of `duration` minutes that started `elapsedMs` milliseconds ago. */
  function CalculateProgress(elapsedMs: int, duration: nat): (p: Progress)
    ensures p.elapsed == Max(0, ElapsedMinutes(elapsedMs))
    ensures p.remaining == Max(0, duration - ElapsedMinutes(elapsedMs))
    ensures 0 <= ElapsedMinutes(elapsedMs) <= duration ==> p.elapsed + p.remaining == duration
    ensures ElapsedMinutes(elapsedMs) >= duration ==> p.remaining == 0
    ensures ElapsedMinutes(elapsedMs) < 0 ==> p.elapsed == 0 && p.remaining > duration
    ensures p.percentage == ClampedPercentage(ElapsedMinutes(elapsedMs), duration)
  {
    var em := ElapsedMinutes(elapsedMs);
    Progress(ClampedPercentage(em, duration), Max(0, em), Max(0, duration - em))
  }

  /** Time only moves a session forward: more elapsed time never lowers progress nor raises what remains. */
  lemma ProgressIsMonotone(ms1: int, ms2: int, duration: nat)
    requires ms1 <= ms2 && duration > 0
    ensures var a, b := CalculateProgress(ms1, duration), CalculateProgress(ms2, duration);
      a.elapsed <= b.elapsed && b.remaining <= a.remaining && a.percentage.value <= b.percentage.value
  {
    var m1, m2 := ElapsedMinutes(ms1), ElapsedMinutes(ms2);
    assert m1 <= m2 by {
      assert 60000 * (m1 - m2 - 1) == m1 * 60000 - (m2 * 60000 + 60000);
      ProductSign(60000, m1 - m2 - 1);
    }
    var d := duration as real;
    if 0 <= m1 && m2 <= duration {
      var p1, p2 := ClampedPercentage(m1, duration).value, ClampedPercentage(m2, duration).value;
      assert (p2 - p1) * d == 100.0 * (m2 - m1) as real;
      PositiveFactor(p2 - p1, d);
    }
  }

  /** The bar colour: red at five minutes or fewer remaining, orange up to fifteen, blue otherwise. */
  function BarColor(remaining: nat): (c: string)
    ensures c == "red" <==> remaining <= 5
    ensures c == "orange" <==> 5 < remaining <= 15
    ensures c == "blue" <==> remaining > 15
  {
    if remaining <= 5 then "red" else if remaining <= 15 then "orange" else "blue"
  }

  /** `openedSessions[id] || false`: an id never toggled is closed. */
  function IsOpened(panels: map<string, bool>, id: string): (o: bool)
    ensures o <==> id in panels && panels[id]
  {
    if id in panels then panels[id] else false
  }

  function ToggleSession(panels: map<string, bool>, id: string): (r: map<string, bool>)
    ensures IsOpened(r, id) == !IsOpened(panels, id)
    ensures forall other :: other != id ==> IsOpened(r, other) == IsOpened(panels, other)
    ensures r.Keys == panels.Keys + {id}
  {
    panels[id := !IsOpened(panels, id)]
  }

  /** Toggling a session twice leaves every session as open as it was. */
  lemma ToggleTwice(panels: map<string, bool>, id: string, other: string)
    ensures IsOpened(ToggleSession(ToggleSession(panels, id), id), other) == IsOpened(panels, other)
  {
  }

  /** Thirty minutes into a sixty-minute session: half done, thirty minutes left, shown in blue. */
  lemma HalfwayExample()
    ensures CalculateProgress(30 * 60000 + 59999, 60) == Progress(Some(50.0), 30, 30)
    ensures BarColor(30) == "blue"
  {
  }
}
