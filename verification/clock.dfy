/**
 * The `MM:SS` display both timers use: whole minutes and the remaining seconds, each
 * zero-padded to two digits. Minutes are not capped at 59, so 3600 seconds shows as `60:00`.
 */
module Clock {
  import opened Wrappers
  import opened Text

  function FormatClock(seconds: nat): (r: string)
    ensures |r| >= 5
    ensures r[|r| - 3] == ':'
  {
    var secs := NatToString(seconds % 60);
    assert |secs| <= 2 by {
      if |secs| > 1 {
        assert NatToString(seconds % 60) == NatToString(seconds % 60 / 10) + [DigitChar(seconds % 60 % 10)];
      }
    }
    PadStart(NatToString(seconds / 60), 2, '0') + ":" + PadStart(secs, 2, '0')
  }

  /** The index of the first occurrence of `c` in `s`, if any. */
  function IndexOf(s: string, c: char): (r: Option<nat>)
    ensures r.Some? ==> r.value < |s| && s[r.value] == c && c !in s[..r.value]
    ensures r.None? ==> c !in s
  {
    if |s| == 0 then None
    else if s[0] == c then Some(0)
    else match IndexOf(s[1..], c)
      case None => None
      case Some(k) => assert s[..k + 1] == [s[0]] + s[1..][..k]; Some(k + 1)
  }

  lemma {:induction false} IndexOfAfter(a: string, c: char, b: string)
    requires c !in a
    ensures IndexOf(a + [c] + b, c) == Some(|a|)
  {
    if |a| > 0 {
      IndexOfAfter(a[1..], c, b);
      assert (a + [c] + b)[1..] == a[1..] + [c] + b;
    }
  }

  /** Reads a `minutes:seconds` display back into seconds; seconds must be two-digit-sized (below 60). */
  function ParseClock(t: string): (r: Option<nat>)
    ensures r.Some? ==> ':' in t
  {
    var colon := IndexOf(t, ':');
    if colon.None? then None
    else
      var mins := ParseNat(t[..colon.value]);
      var secs := ParseNat(t[colon.value + 1..]);
      if mins.Some? && secs.Some? && secs.value < 60 then Some(mins.value * 60 + secs.value) else None
  }

  lemma DigitsHaveNoColon(s: string)
    requires AllDigits(s)
    ensures ':' !in s
  {
  }

  /** Two numerals joined by `:` read back as minutes and seconds. */
  lemma ParseClockOfParts(a: string, b: string, m: nat, sec: nat)
    requires ParseNat(a) == Some(m) && ParseNat(b) == Some(sec) && sec < 60
    ensures ParseClock(a + ":" + b) == Some(m * 60 + sec)
  {
    var t := a + ":" + b;
    assert IndexOf(t, ':') == Some(|a|) by {
      DigitsHaveNoColon(a);
      IndexOfAfter(a, ':', b);
    }
    assert t[..|a|] == a;
    assert t[|a| + 1..] == b;
  }

  lemma FormatClockParts(seconds: nat)
    ensures FormatClock(seconds)
      == PadStart(NatToString(seconds / 60), 2, '0') + ":" + PadStart(NatToString(seconds % 60), 2, '0')
  {
  }

  /** Zero-padded minutes and seconds joined by `:` read back as minutes * 60 + seconds. */
  lemma ParsePadded(m: nat, sec: nat)
    requires sec < 60
    ensures ParseClock(PadStart(NatToString(m), 2, '0') + ":" + PadStart(NatToString(sec), 2, '0')) == Some(m * 60 + sec)
  {
    PaddedRoundTrip(m, 2);
    PaddedRoundTrip(sec, 2);
    ParseClockOfParts(PadStart(NatToString(m), 2, '0'), PadStart(NatToString(sec), 2, '0'), m, sec);
  }

  /** The display reads back as the number of seconds it was made from. */
  lemma ClockRoundTrip(seconds: nat)
    ensures ParseClock(FormatClock(seconds)) == Some(seconds)
  {
    FormatClockParts(seconds);
    ParsePadded(seconds / 60, seconds % 60);
  }

  /** Different second counts never show the same display. */
  lemma FormatClockInjective(a: nat, b: nat)
    requires FormatClock(a) == FormatClock(b)
    ensures a == b
  {
    ClockRoundTrip(a);
    ClockRoundTrip(b);
  }
}
