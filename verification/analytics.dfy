/**
 * The analytics summary of a series of session values: count, rounded mean, extremes, last value,
 * and a trend comparing the mean of the second half of the series with the mean of the first.
 * Values are exact reals; the rounding is JavaScript's to one decimal.
 */
module Analytics {
  import opened Arith
  import opened Wrappers

  datatype AnalysisPhase = PhaseBaseline | PhaseIntervention | PhaseGeneralization | PhaseMaintenance

  /** One recorded session value; `date` is the instant its ISO day parses to, in milliseconds. */
  datatype DataPoint = DataPoint(
    id: string,
    sessionId: string,
    studentId: string,
    programId: string,
    therapistId: string,
    date: int,
    value: real,
    notes: Option<string>,
    phase: AnalysisPhase)

  datatype Trend = Up | Down | Stable

  datatype KPIStats = KPIStats(
    totalSessions: nat,
    averageValue: real,
    maxValue: real,
    minValue: real,
    trend: Trend,
    lastValue: real,
    trendPercentage: real)

  function Sum(vs: seq<real>): real {
    if |vs| == 0 then 0.0 else Sum(vs[..|vs| - 1]) + vs[|vs| - 1]
  }

  /** `Math.max(...values)` on a non-empty series. */
  function MaxOf(vs: seq<real>): (m: real)
    requires |vs| > 0
    ensures forall i :: 0 <= i < |vs| ==> vs[i] <= m
    ensures exists i :: 0 <= i < |vs| && vs[i] == m
  {
    if |vs| == 1 then vs[0]
    else
      var m := MaxOf(vs[..|vs| - 1]);
      assert forall i :: 0 <= i < |vs| - 1 ==> vs[..|vs| - 1][i] == vs[i];
      if vs[|vs| - 1] > m then vs[|vs| - 1] else m
  }

  /** `Math.min(...values)` on a non-empty series. */
  function MinOf(vs: seq<real>): (m: real)
    requires |vs| > 0
    ensures forall i :: 0 <= i < |vs| ==> m <= vs[i]
    ensures exists i :: 0 <= i < |vs| && vs[i] == m
  {
    if |vs| == 1 then vs[0]
    else
      var m := MinOf(vs[..|vs| - 1]);
      assert forall i :: 0 <= i < |vs| - 1 ==> vs[..|vs| - 1][i] == vs[i];
      if vs[|vs| - 1] < m then vs[|vs| - 1] else m
  }

  /** The sum lies between `n` times the least and `n` times the greatest value. */
  lemma {:induction false} SumBounds(vs: seq<real>, lo: real, hi: real)
    requires forall i :: 0 <= i < |vs| ==> lo <= vs[i] <= hi
    ensures |vs| as real * lo <= Sum(vs) <= |vs| as real * hi
  {
    if |vs| > 0 {
      var init := vs[..|vs| - 1];
      assert forall i :: 0 <= i < |init| ==> init[i] == vs[i];
      SumBounds(init, lo, hi);
    }
  }

  /** The mean of a series the way the trend computes it: `sum / n || 0`, so 0 for an empty half. */
  function Mean(vs: seq<real>): (m: real)
    ensures |vs| == 0 ==> m == 0.0
    ensures |vs| > 0 ==> m * |vs| as real == Sum(vs)
  {
    if |vs| == 0 then 0.0 else Sum(vs) / |vs| as real
  }

  function FirstHalf(vs: seq<real>): seq<real> {
    vs[..|vs| / 2]
  }

  function SecondHalf(vs: seq<real>): seq<real> {
    vs[|vs| / 2..]
  }

  /** The trend of a difference of means, with a dead band of half a unit either way. */
  function TrendOf(diff: real): (t: Trend)
    ensures t == Up <==> diff > 0.5
    ensures t == Down <==> diff < -0.5
    ensures t == Stable <==> -0.5 <= diff <= 0.5
  {
    if diff > 0.5 then Up else if diff < -0.5 then Down else Stable
  }

  /** The summary of a series; an empty series gives all zeros and a stable trend. */
  function CalculateKPIs(vs: seq<real>): (k: KPIStats)
    ensures k.totalSessions == |vs|
    ensures |vs| == 0 ==> k == KPIStats(0, 0.0, 0.0, 0.0, Stable, 0.0, 0.0)
    ensures |vs| > 0 ==>
      k.lastValue == vs[|vs| - 1]
      && (forall i :: 0 <= i < |vs| ==> k.minValue <= vs[i] <= k.maxValue)
      && (exists i :: 0 <= i < |vs| && vs[i] == k.maxValue)
      && (exists i :: 0 <= i < |vs| && vs[i] == k.minValue)
      && -0.05 <= Sum(vs) / |vs| as real - k.averageValue < 0.05 && IsTenth(k.averageValue)
      && k.trend == TrendOf(Mean(SecondHalf(vs)) - Mean(FirstHalf(vs)))
      && IsTenth(k.trendPercentage)
      && (Mean(FirstHalf(vs)) == 0.0 ==> k.trendPercentage == 0.0)
      && (Mean(FirstHalf(vs)) != 0.0 ==>
            -0.05 <= (Mean(SecondHalf(vs)) - Mean(FirstHalf(vs))) / Mean(FirstHalf(vs)) * 100.0 - k.trendPercentage < 0.05)
  {
    if |vs| == 0 then KPIStats(0, 0.0, 0.0, 0.0, Stable, 0.0, 0.0)
    else
      var avg := Sum(vs) / |vs| as real;
      var first := Mean(FirstHalf(vs));
      var second := Mean(SecondHalf(vs));
      var diff := second - first;
      var pct := if first != 0.0 then diff / first * 100.0 else 0.0;
      KPIStats(|vs|, Round10(avg), MaxOf(vs), MinOf(vs), TrendOf(diff), vs[|vs| - 1], Round10(pct))
  }

  lemma QuotientBounds(total: real, n: real, lo: real, hi: real)
    requires n > 0.0 && n * lo <= total <= n * hi
    ensures lo <= total / n <= hi
  {
    var q := total / n;
    assert q * n == total;
  }

  /** The rounded mean stays within the range of the series, up to the rounding. */
  lemma AverageWithinRange(vs: seq<real>)
    requires |vs| > 0
    ensures var k := CalculateKPIs(vs); k.minValue - 0.05 <= k.averageValue <= k.maxValue + 0.05
  {
    var lo, hi := MinOf(vs), MaxOf(vs);
    SumBounds(vs, lo, hi);
    QuotientBounds(Sum(vs), |vs| as real, lo, hi);
  }

  /** A rise from a positive first-half mean never shows a negative percentage, and a fall never a positive one. */
  lemma TrendSignAgrees(vs: seq<real>)
    requires |vs| > 0 && Mean(FirstHalf(vs)) > 0.0
    ensures CalculateKPIs(vs).trend == Up ==> CalculateKPIs(vs).trendPercentage >= 0.0
    ensures CalculateKPIs(vs).trend == Down ==> CalculateKPIs(vs).trendPercentage <= 0.0
  {
    var first := Mean(FirstHalf(vs));
    var diff := Mean(SecondHalf(vs)) - first;
    var x := diff / first * 100.0;
    if diff > 0.0 {
      assert diff / first > 0.0;
      assert Round(x * 10.0) >= 0;
    }
    if diff < 0.0 {
      assert diff / first < 0.0;
      assert Round(x * 10.0) <= 0;
    }
  }

  lemma {:induction false} SumConstant(vs: seq<real>, c: real)
    requires forall i :: 0 <= i < |vs| ==> vs[i] == c
    ensures Sum(vs) == |vs| as real * c
  {
    if |vs| > 0 {
      var init := vs[..|vs| - 1];
      assert forall i :: 0 <= i < |init| ==> init[i] == c;
      SumConstant(init, c);
    }
  }

  lemma MeanConstant(vs: seq<real>, c: real)
    requires |vs| > 0 && Sum(vs) == |vs| as real * c
    ensures Mean(vs) == c
  {
    var n := |vs| as real;
    assert Mean(vs) * n == c * n;
  }

  /** A single session is compared against an empty first half, whose mean counts as 0. */
  lemma SingleSessionTrend(c: real)
    ensures CalculateKPIs([c]).trend == TrendOf(c)
    ensures CalculateKPIs([c]).trendPercentage == 0.0
  {
    assert FirstHalf([c]) == [];
    assert SecondHalf([c]) == [c];
    assert Sum([c]) == c by {
      assert [c][..0] == [];
    }
    assert Round(0.0) == 0;
  }

  /** A flat series of at least two sessions is stable with a zero trend percentage. */
  lemma FlatSeriesIsStable(vs: seq<real>, c: real)
    requires |vs| >= 2 && forall i :: 0 <= i < |vs| ==> vs[i] == c
    ensures CalculateKPIs(vs).trend == Stable && CalculateKPIs(vs).trendPercentage == 0.0
  {
    var f, s := FirstHalf(vs), SecondHalf(vs);
    assert forall i :: 0 <= i < |f| ==> f[i] == c;
    assert forall i :: 0 <= i < |s| ==> s[i] == c;
    SumConstant(f, c);
    SumConstant(s, c);
    MeanConstant(f, c);
    MeanConstant(s, c);
    assert Round(0.0) == 0;
  }

  /** Three sessions at 10 followed by three at 50: an upward trend of 400%. */
  lemma RisingExample()
    ensures CalculateKPIs([10.0, 10.0, 10.0, 50.0, 50.0, 50.0]).trend == Up
    ensures CalculateKPIs([10.0, 10.0, 10.0, 50.0, 50.0, 50.0]).trendPercentage == 400.0
  {
    var vs := [10.0, 10.0, 10.0, 50.0, 50.0, 50.0];
    assert FirstHalf(vs) == [10.0, 10.0, 10.0];
    assert SecondHalf(vs) == [50.0, 50.0, 50.0];
    SumConstant(FirstHalf(vs), 10.0);
    SumConstant(SecondHalf(vs), 50.0);
    assert Mean(FirstHalf(vs)) == 10.0;
    assert Mean(SecondHalf(vs)) == 50.0;
    assert Round(4000.0) == 4000;
  }

  /** Movements within half a unit either side are stable. */
  lemma SteadyExample()
    ensures CalculateKPIs([50.0, 50.0, 50.0, 50.3, 49.8, 50.1]).trend == Stable
  {
    var vs := [50.0, 50.0, 50.0, 50.3, 49.8, 50.1];
    assert FirstHalf(vs) == [50.0, 50.0, 50.0];
    assert SecondHalf(vs) == [50.3, 49.8, 50.1];
    SumConstant(FirstHalf(vs), 50.0);
    assert Sum([50.3, 49.8, 50.1]) == 150.2 by {
      assert [50.3, 49.8, 50.1][..2] == [50.3, 49.8];
      assert [50.3, 49.8][..1] == [50.3];
      assert [50.3][..0] == [];
    }
  }
}
