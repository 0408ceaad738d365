/**
 * The analysis page of one program: the metric its category implies, the date-range and
 * therapist filters over the session values, the success-goal dialog, and the table of the latest
 * sessions. The current instant is a parameter; the generated series itself is random and is taken
 * as given.
 */
module ProgramChartPage {
  import opened Wrappers
  import opened Seqs
  import opened Programs
  import opened Analytics
  import opened KPICards

  /** Skill-acquisition programs are charted as percentages, behaviour programs as frequencies. */
  function MetricOf(p: Program): (m: Metric)
    ensures m == Percentage <==> CategoryOf(p) == SkillAcquisition
    ensures m == Frequency <==> CategoryOf(p) == BehaviorManagement
  {
    if CategoryOf(p) == SkillAcquisition then Percentage else Frequency
  }

  /** The label of the chart's axis follows the same choice. */
  function MetricLabel(p: Program): (l: string)
    ensures MetricOf(p) == Percentage ==> l == "Porcentaje de Logro"
    ensures MetricOf(p) == Frequency ==> l == "Frecuencia de Conducta"
  {
    if CategoryOf(p) == SkillAcquisition then "Porcentaje de Logro" else "Frecuencia de Conducta"
  }

  /** "7d" and "90d" are recognised; every other value, "30d" included, means 30 days. */
  function RangeDays(range: string): (days: nat)
    ensures range == "7d" ==> days == 7
    ensures range == "90d" ==> days == 90
    ensures range != "7d" && range != "90d" ==> days == 30
  {
    if range == "7d" then 7 else if range == "90d" then 90 else 30
  }

  const MsPerDay: int := 86_400_000

  /** The earliest instant still shown: `days` days before now. */
  function Cutoff(now: int, range: string): (c: int)
    ensures c <= now && now - c == RangeDays(range) * MsPerDay
  {
    now - RangeDays(range) * MsPerDay
  }

  /**
   * The therapist a filter value stands for: none for no choice or "Todos"; "Juan Pérez" is th-1 and
   * every other name is th-2.
   */
  function TherapistTarget(filter: Option<string>): (t: Option<string>)
    ensures filter.None? || filter.value == "" || filter.value == "Todos" ==> t.None?
    ensures filter == Some("Juan Pérez") ==> t == Some("th-1")
    ensures filter.Some? && filter.value !in {"", "Todos", "Juan Pérez"} ==> t == Some("th-2")
  {
    if filter.None? || filter.value == "" || filter.value == "Todos" then None
    else if filter.value == "Juan Pérez" then Some("th-1")
    else Some("th-2")
  }

  predicate Kept(d: DataPoint, cutoff: int, target: Option<string>) {
    d.date >= cutoff && (target.None? || d.therapistId == target.value)
  }

  /** `filteredData`: the points dated at or after the cutoff, restricted to the chosen therapist if any. */
  function FilteredData(points: seq<DataPoint>, now: int, range: string, therapist: Option<string>)
    : (r: seq<DataPoint>)
    ensures IsSubsequence(r, points)
    ensures forall d :: d in r <==> (d in points && d.date >= Cutoff(now, range)
      && (TherapistTarget(therapist).None? || d.therapistId == TherapistTarget(therapist).value))
  {
    var cutoff := Cutoff(now, range);
    var target := TherapistTarget(therapist);
    var byDate := Filter(points, (d: DataPoint) => d.date >= cutoff);
    FilterIsSubsequence(points, (d: DataPoint) => d.date >= cutoff);
    if target.None? then byDate
    else
      FilterFilter(points, (d: DataPoint) => d.date >= cutoff, (d: DataPoint) => d.therapistId == target.value,
                   (d: DataPoint) => Kept(d, cutoff, target));
      FilterIsSubsequence(points, (d: DataPoint) => Kept(d, cutoff, target));
      Filter(byDate, (d: DataPoint) => d.therapistId == target.value)
  }

  /** A longer range never hides a point a shorter one shows. */
  lemma RangesNest(points: seq<DataPoint>, now: int, therapist: Option<string>)
    ensures forall d :: d in FilteredData(points, now, "7d", therapist) ==> d in FilteredData(points, now, "30d", therapist)
    ensures forall d :: d in FilteredData(points, now, "30d", therapist) ==> d in FilteredData(points, now, "90d", therapist)
  {
  }

  /** Choosing "Todos" is the same as choosing no therapist. */
  lemma AllTherapistsIsNoFilter(points: seq<DataPoint>, now: int, range: string)
    ensures FilteredData(points, now, range, Some("Todos")) == FilteredData(points, now, range, None)
  {
  }

  /** The indicators are computed over exactly the filtered values. */
  function Values(points: seq<DataPoint>): (vs: seq<real>)
    ensures |vs| == |points|
    ensures forall i :: 0 <= i < |points| ==> vs[i] == points[i].value
  {
    seq(|points|, i requires 0 <= i < |points| => points[i].value)
  }

  function PageKPIs(points: seq<DataPoint>, now: int, range: string, therapist: Option<string>): (k: KPIStats)
    ensures k.totalSessions == |FilteredData(points, now, range, therapist)|
  {
    CalculateKPIs(Values(FilteredData(points, now, range, therapist)))
  }

  // ----- the goal dialog -----

  datatype GoalState = GoalState(goal: int, draft: int, dialogOpen: bool)

  const InitialGoal: GoalState := GoalState(80, 80, false)

  /** Opening the dialog starts the draft from the current goal. */
  function OpenGoal(st: GoalState): (r: GoalState)
    ensures r.goal == st.goal && r.draft == st.goal && r.dialogOpen
  {
    GoalState(st.goal, st.goal, true)
  }

  /** Typing in the number field changes only the draft. */
  function EditDraft(st: GoalState, value: int): (r: GoalState)
    ensures r.goal == st.goal && r.draft == value && r.dialogOpen == st.dialogOpen
  {
    st.(draft := value)
  }

  /** "Guardar Meta": the draft becomes the goal. */
  function SaveGoal(st: GoalState): (r: GoalState)
    ensures r.goal == st.draft && !r.dialogOpen
  {
    GoalState(st.draft, st.draft, false)
  }

  /** "Cancelar" or closing the dialog: the goal stays. */
  function CancelGoal(st: GoalState): (r: GoalState)
    ensures r.goal == st.goal && r.draft == st.draft && !r.dialogOpen
  {
    st.(dialogOpen := false)
  }

  /** Whatever is typed, cancelling keeps the goal; saving stores the last value typed. */
  lemma GoalChangesOnlyOnSave(st: GoalState, typed: seq<int>)
    ensures CancelGoal(EditAll(OpenGoal(st), typed)).goal == st.goal
    ensures |typed| == 0 ==> SaveGoal(EditAll(OpenGoal(st), typed)).goal == st.goal
    ensures |typed| > 0 ==> SaveGoal(EditAll(OpenGoal(st), typed)).goal == typed[|typed| - 1]
  {
    EditAllKeepsGoal(OpenGoal(st), typed);
  }

  function EditAll(st: GoalState, typed: seq<int>): GoalState {
    if |typed| == 0 then st else EditDraft(EditAll(st, typed[..|typed| - 1]), typed[|typed| - 1])
  }

  lemma {:induction false} EditAllKeepsGoal(st: GoalState, typed: seq<int>)
    ensures EditAll(st, typed).goal == st.goal
    ensures |typed| == 0 ==> EditAll(st, typed).draft == st.draft
    ensures |typed| > 0 ==> EditAll(st, typed).draft == typed[|typed| - 1]
  {
    if |typed| > 0 {
      EditAllKeepsGoal(st, typed[..|typed| - 1]);
    }
  }

  // ----- the table -----

  /** `slice(-10).reverse()`: the latest ten points (fewer if there are fewer), newest first. */
  function LatestRows(points: seq<DataPoint>): (r: seq<DataPoint>)
    ensures |r| == if |points| < 10 then |points| else 10
    ensures forall i :: 0 <= i < |r| ==> r[i] == points[|points| - 1 - i]
  {
    var n := if |points| < 10 then |points| else 10;
    Reverse(points[|points| - n..])
  }
}
