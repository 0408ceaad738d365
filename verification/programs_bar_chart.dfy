/**
 * The "programs achieved" bar chart: a fixed weekly or monthly base series, shifted per student
 * by a deterministic offset computed from the character codes of the student id, never below 0.
 */
module ProgramsBarChart {
  import opened Wrappers

  datatype Bar = Bar(category: string, value: int, color: string)

  const WeeklyBase: seq<Bar> := [
    Bar("Lun", 2, "blue"), Bar("Mar", 5, "blue"), Bar("Mié", 3, "blue"), Bar("Jue", 8, "blue"),
    Bar("Vie", 6, "blue"), Bar("Sáb", 1, "blue"), Bar("Dom", 0, "blue")]

  const MonthlyBase: seq<Bar> := [
    Bar("Sem 1", 12, "violet"), Bar("Sem 2", 18, "violet"), Bar("Sem 3", 15, "violet"), Bar("Sem 4", 22, "violet")]

  /** Any period other than "weekly" shows the monthly series. */
  function BaseData(period: string): (b: seq<Bar>)
    ensures period == "weekly" ==> |b| == 7 && forall i :: 0 <= i < |b| ==> b[i].color == "blue"
    ensures period != "weekly" ==> |b| == 4 && forall i :: 0 <= i < |b| ==> b[i].color == "violet"
  {
    if period == "weekly" then WeeklyBase else MonthlyBase
  }

  /** `charCodeAt(last) % 5 - 2` plus `(charCodeAt(0) + index) % 5 - 2`: an offset in [-4, 4]. */
  function Offset(id: string, index: nat): (d: int)
    requires |id| > 0
    ensures -4 <= d <= 4
  {
    ((id[|id| - 1] as int) % 5 - 2) + ((id[0] as int + index) % 5 - 2)
  }

  /** The series for the selected student; no selection, an empty id or "all" gives the base series. */
  function ChartData(period: string, selected: Option<string>): (d: seq<Bar>)
    ensures |d| == |BaseData(period)|
    ensures forall i :: 0 <= i < |d| ==>
      d[i].category == BaseData(period)[i].category && d[i].color == BaseData(period)[i].color
    ensures selected.None? || selected == Some("") || selected == Some("all") ==> d == BaseData(period)
    ensures selected.Some? && selected.value != "" && selected.value != "all" ==>
      forall i :: 0 <= i < |d| ==>
        d[i].value >= 0
        && d[i].value == if BaseData(period)[i].value + Offset(selected.value, i) > 0
                         then BaseData(period)[i].value + Offset(selected.value, i) else 0
  {
    var base := BaseData(period);
    if selected.None? || selected.value == "" || selected.value == "all" then base
    else
      var id := selected.value;
      seq(|base|, i requires 0 <= i < |base| =>
        var v := base[i].value + Offset(id, i);
        base[i].(value := if v > 0 then v else 0))
  }

  function Total(bars: seq<Bar>): int {
    if |bars| == 0 then 0 else bars[0].value + Total(bars[1..])
  }

  /** The total moves with the per-bar values: if each lies within `k` of the base, so does the total within `k` per bar. */
  lemma {:induction false} TotalWithin(d: seq<Bar>, base: seq<Bar>, k: nat)
    requires |d| == |base|
    requires forall i :: 0 <= i < |d| ==> base[i].value - k <= d[i].value <= base[i].value + k
    ensures Total(base) - k * |d| <= Total(d) <= Total(base) + k * |d|
  {
    if |d| > 0 {
      TotalWithin(d[1..], base[1..], k);
    }
  }

  /** A student's weekly total stays within 28 programs of the base total of 25, and is never negative. */
  lemma StudentWeeklyTotalBounds(id: string)
    requires id != "" && id != "all"
    ensures var d := ChartData("weekly", Some(id)); 0 <= Total(d) <= 25 + 28
  {
    var d := ChartData("weekly", Some(id));
    WeeklyBaseTotal();
    StudentBarsWithin("weekly", id);
    TotalWithin(d, BaseData("weekly"), 4);
    NonNegativeTotal(d);
  }

  lemma WeeklyBaseTotal()
    ensures Total(BaseData("weekly")) == 25
  {
    assert Total(WeeklyBase) == 25;
  }

  /** Each bar of a student's series lies within 4 of its base bar. */
  lemma StudentBarsWithin(period: string, id: string)
    requires id != "" && id != "all"
    ensures var d, base := ChartData(period, Some(id)), BaseData(period);
      |d| == |base| && forall i :: 0 <= i < |d| ==> base[i].value - 4 <= d[i].value <= base[i].value + 4
  {
  }

  lemma {:induction false} NonNegativeTotal(d: seq<Bar>)
    requires forall i :: 0 <= i < |d| ==> d[i].value >= 0
    ensures Total(d) >= 0
  {
    if |d| > 0 {
      NonNegativeTotal(d[1..]);
    }
  }

  /** The colour lookup with its gray fallback. */
  function ColorValue(color: string): (v: string)
    ensures color in {"blue", "green", "violet", "orange", "red"} ==> v == "var(--mantine-color-" + color + "-6)"
    ensures color !in {"blue", "green", "violet", "orange", "red"} ==> v == "var(--mantine-color-gray-6)"
  {
    if color in {"blue", "green", "violet", "orange", "red"} then "var(--mantine-color-" + color + "-6)"
    else "var(--mantine-color-gray-6)"
  }

  /** Student "s1" ('s' = 115, '1' = 49): offsets 2 + ((115 + i) % 5 - 2) give Lun 2, Mar 6, ..., Dom 1 */
  lemma StudentExample()
    ensures ChartData("weekly", Some("s1"))[0].value == 2
    ensures ChartData("weekly", Some("s1"))[1].value == 6
    ensures ChartData("weekly", Some("s1"))[6].value == 1
  {
  }
}
