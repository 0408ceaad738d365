/**
 * The program progress chart's summary: the latest session's percentage, the rounded averages of
 * the first five (baseline) and last five (current) sessions and their difference, and the
 * phase table, whose averages divide by the nominal phase lengths 5, 10 and 5.
 */
module ProgramChart {
  import opened Arith

  datatype SessionPoint = SessionPoint(session: int, independent: int, prompted: int, error: int, percentage: int)

  datatype ChartStats = ChartStats(latestPercentage: int, baselineAvg: int, currentAvg: int, improvement: int, totalSessions: nat)

  function Percentages(data: seq<SessionPoint>): (ps: seq<int>)
    ensures |ps| == |data| && forall i :: 0 <= i < |data| ==> ps[i] == data[i].percentage
  {
    seq(|data|, i requires 0 <= i < |data| => data[i].percentage)
  }

  function Independents(data: seq<SessionPoint>): (ps: seq<int>)
    ensures |ps| == |data| && forall i :: 0 <= i < |data| ==> ps[i] == data[i].independent
  {
    seq(|data|, i requires 0 <= i < |data| => data[i].independent)
  }

  function Sum(xs: seq<int>): int {
    if |xs| == 0 then 0 else Sum(xs[..|xs| - 1]) + xs[|xs| - 1]
  }

  /** `data.slice(0, 5)`. */
  function Baseline<T>(data: seq<T>): (b: seq<T>)
    ensures |b| == Min(5, |data|) && b == data[..|b|]
  {
    data[..Min(5, |data|)]
  }

  /** `data.slice(-5)`: the last five, or everything when there are fewer. */
  function Current<T>(data: seq<T>): (c: seq<T>)
    ensures |c| == Min(5, |data|) && c == data[|data| - |c|..]
  {
    data[|data| - Min(5, |data|)..]
  }

  /** The header statistics; the source reads the last point, so the data must not be empty. */
  function CalculateStats(data: seq<SessionPoint>): (s: ChartStats)
    requires |data| > 0
    ensures s.latestPercentage == data[|data| - 1].percentage && s.totalSessions == |data|
    ensures s.improvement == s.currentAvg - s.baselineAvg
    ensures var b := Percentages(Baseline(data));
      2 * |b| * s.baselineAvg - |b| <= 2 * Sum(b) < 2 * |b| * s.baselineAvg + |b|
    ensures var c := Percentages(Current(data));
      2 * |c| * s.currentAvg - |c| <= 2 * Sum(c) < 2 * |c| * s.currentAvg + |c|
  {
    var b := Percentages(Baseline(data));
    var c := Percentages(Current(data));
    var baselineAvg := RoundDiv(Sum(b), |b|);
    var currentAvg := RoundDiv(Sum(c), |c|);
    ChartStats(data[|data| - 1].percentage, baselineAvg, currentAvg, currentAvg - baselineAvg, |data|)
  }

  /** With five sessions or fewer, baseline and current are the same sessions: no improvement. */
  lemma ShortSeriesShowsNoImprovement(data: seq<SessionPoint>)
    requires 0 < |data| <= 5
    ensures CalculateStats(data).improvement == 0
  {
    assert Baseline(data) == Current(data);
  }

  lemma {:induction false} SumBounds(xs: seq<int>, lo: int, hi: int)
    requires forall i :: 0 <= i < |xs| ==> lo <= xs[i] <= hi
    ensures |xs| * lo <= Sum(xs) <= |xs| * hi
  {
    if |xs| > 0 {
      var init := xs[..|xs| - 1];
      assert forall i :: 0 <= i < |init| ==> init[i] == xs[i];
      SumBounds(init, lo, hi);
    }
  }

  /** A rounded mean of values in [lo, hi] stays in [lo, hi]. */
  lemma RoundedMeanInRange(xs: seq<int>, lo: int, hi: int)
    requires |xs| > 0 && forall i :: 0 <= i < |xs| ==> lo <= xs[i] <= hi
    ensures lo <= RoundDiv(Sum(xs), |xs|) <= hi
  {
    SumBounds(xs, lo, hi);
    RoundDivAtLeast(Sum(xs), |xs|, lo);
    RoundDivAtMost(Sum(xs), |xs|, hi);
  }

  /** Percentages in [0, 100] give averages in [0, 100] and an improvement in [-100, 100]. */
  lemma StatsInRange(data: seq<SessionPoint>)
    requires |data| > 0
    requires forall i :: 0 <= i < |data| ==> 0 <= data[i].percentage <= 100
    ensures var s := CalculateStats(data);
      0 <= s.baselineAvg <= 100 && 0 <= s.currentAvg <= 100 && -100 <= s.improvement <= 100
  {
    var b := Percentages(Baseline(data));
    var c := Percentages(Current(data));
    assert forall i :: 0 <= i < |b| ==> 0 <= b[i] <= 100;
    assert forall i :: 0 <= i < |c| ==> 0 <= c[i] <= 100 by {
      forall i | 0 <= i < |c|
        ensures 0 <= c[i] <= 100
      {
        assert c[i] == data[|data| - |c| + i].percentage;
      }
    }
    RoundedMeanInRange(b, 0, 100);
    RoundedMeanInRange(c, 0, 100);
  }

  /** A phase-table cell: the rounded sum of a slice over the phase's nominal length. */
  function PhaseAverage(xs: seq<int>, nominal: nat): (r: int)
    requires nominal > 0
    ensures 2 * nominal * r - nominal <= 2 * Sum(xs) < 2 * nominal * r + nominal
  {
    RoundDiv(Sum(xs), nominal)
  }

  /** `xs.slice(from, to)` for non-negative bounds: both are clamped to the length, and an empty range gives `[]`. */
  function Slice(xs: seq<int>, from: nat, to: nat): (s: seq<int>)
    ensures from <= Min(to, |xs|) ==> s == xs[from..Min(to, |xs|)]
    ensures from >= Min(to, |xs|) ==> s == []
  {
    var end := Min(to, |xs|);
    if from >= end then [] else xs[from..end]
  }

  /** The phase table: baseline (sessions 1-5), intervention (6-15) and maintenance (16 on). */
  datatype PhaseRow = PhaseRow(independentAvg: int, percentageAvg: int)

  function PhaseTable(data: seq<SessionPoint>): (rows: seq<PhaseRow>)
    requires |data| > 0
    ensures |rows| == 3
    ensures rows[0] == PhaseRow(PhaseAverage(Slice(Independents(data), 0, 5), 5), CalculateStats(data).baselineAvg)
    ensures rows[1] == PhaseRow(PhaseAverage(Slice(Independents(data), 5, 15), 10), PhaseAverage(Slice(Percentages(data), 5, 15), 10))
    ensures rows[2] == PhaseRow(PhaseAverage(Slice(Independents(data), 15, |data|), 5), CalculateStats(data).currentAvg)
  {
    var ind := Independents(data);
    var st := CalculateStats(data);
    [ PhaseRow(PhaseAverage(Slice(ind, 0, 5), 5), st.baselineAvg),
      PhaseRow(PhaseAverage(Slice(ind, 5, 15), 10), PhaseAverage(Slice(Percentages(data), 5, 15), 10)),
      PhaseRow(PhaseAverage(Slice(ind, 15, |data|), 5), st.currentAvg) ]
  }

  lemma {:induction false} SumConstant(xs: seq<int>, c: int)
    requires forall i :: 0 <= i < |xs| ==> xs[i] == c
    ensures Sum(xs) == |xs| * c
  {
    if |xs| > 0 {
      var init := xs[..|xs| - 1];
      assert forall i :: 0 <= i < |init| ==> init[i] == c;
      SumConstant(init, c);
    }
  }

  /** A phase cell over a slice shorter than the nominal length never overstates a constant level. */
  lemma ShortPhaseUnderstates(xs: seq<int>, nominal: nat, c: int)
    requires nominal > 0 && |xs| <= nominal && c >= 0
    requires forall i :: 0 <= i < |xs| ==> xs[i] == c
    ensures PhaseAverage(xs, nominal) <= c
    ensures |xs| == nominal ==> PhaseAverage(xs, nominal) == c
  {
    SumConstant(xs, c);
    MulMono(c, |xs|, nominal);
    RoundDivAtMost(Sum(xs), nominal, c);
    if |xs| == nominal {
      RoundDivAtLeast(Sum(xs), nominal, c);
    }
  }

  /** Seven intervention sessions at 100% show as 70% in a table that divides by ten. */
  lemma ShortInterventionExample()
    ensures PhaseAverage([100, 100, 100, 100, 100, 100, 100], 10) == 70
  {
    SumConstant([100, 100, 100, 100, 100, 100, 100], 100);
  }
}
