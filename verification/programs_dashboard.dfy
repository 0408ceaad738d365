/**
 * The programs tab of a student's folder: a status filter (starting at "active"), the filtered
 * programs split into skill and behaviour lists, and the two-step status change (pick a new
 * status, then confirm it).
 */
module ProgramsDashboard {
  import opened Wrappers
  import opened Seqs
  import opened Programs

  datatype StatusFilter = AllStatuses | Only(status: ProgramStatus)

  datatype DashboardState = DashboardState(
    programs: seq<Program>,
    filter: StatusFilter,
    selected: Option<Program>,
    target: Option<ProgramStatus>,
    confirmOpen: bool)

  /** The tab opens on the active programs, with nothing selected. */
  function Initial(programs: seq<Program>): (st: DashboardState)
    ensures st.programs == programs && st.filter == Only(Active)
    ensures st.selected.None? && st.target.None? && !st.confirmOpen
  {
    DashboardState(programs, Only(Active), None, None, false)
  }

  predicate Passes(filter: StatusFilter, p: Program) {
    filter.AllStatuses? || p.status == filter.status
  }

  /** `programsList.filter(...)`: every program for "all", otherwise exactly those with that status. */
  function Filtered(programs: seq<Program>, filter: StatusFilter): (r: seq<Program>)
    ensures filter.AllStatuses? ==> r == programs
    ensures filter.Only? ==> forall p :: p in r <==> p in programs && p.status == filter.status
    ensures IsSubsequence(r, programs)
  {
    FilterIsSubsequence(programs, p => Passes(filter, p));
    if filter.AllStatuses? then
      FilterKeepsAll(programs, p => Passes(filter, p));
      Filter(programs, p => Passes(filter, p))
    else Filter(programs, p => Passes(filter, p))
  }

  predicate IsSkill(p: Program) {
    CategoryOf(p) == SkillAcquisition
  }

  predicate IsBehavior(p: Program) {
    CategoryOf(p) == BehaviorManagement
  }

  function SkillPrograms(programs: seq<Program>, filter: StatusFilter): (r: seq<Program>)
    ensures forall p :: p in r <==> p in Filtered(programs, filter) && p.Skill?
  {
    Filter(Filtered(programs, filter), IsSkill)
  }

  function BehaviorPrograms(programs: seq<Program>, filter: StatusFilter): (r: seq<Program>)
    ensures forall p :: p in r <==> p in Filtered(programs, filter) && p.Behavior?
  {
    Filter(Filtered(programs, filter), IsBehavior)
  }

  /** The two lists split the filtered programs: each shown once, in exactly one list. */
  lemma CategoriesPartition(programs: seq<Program>, filter: StatusFilter)
    ensures |SkillPrograms(programs, filter)| + |BehaviorPrograms(programs, filter)| == |Filtered(programs, filter)|
    ensures multiset(SkillPrograms(programs, filter)) + multiset(BehaviorPrograms(programs, filter))
         == multiset(Filtered(programs, filter))
  {
    FilterPartition(Filtered(programs, filter), IsSkill, IsBehavior);
  }

  function StatusColor(s: ProgramStatus): (c: string)
    ensures c in {"green", "blue", "yellow", "red"}
    ensures c == "green" <==> s == Active
    ensures c == "blue" <==> s == Achieved
    ensures c == "yellow" <==> s == Paused
    ensures c == "red" <==> s == Discontinued
  {
    match s
    case Active => "green"
    case Achieved => "blue"
    case Paused => "yellow"
    case Discontinued => "red"
  }

  function StatusLabel(s: ProgramStatus): (l: string)
    ensures l in {"Activo", "Logrado", "En Pausa", "Descontinuado"}
    ensures l == "Activo" <==> s == Active
    ensures l == "Logrado" <==> s == Achieved
    ensures l == "En Pausa" <==> s == Paused
    ensures l == "Descontinuado" <==> s == Discontinued
  {
    match s
    case Active => "Activo"
    case Achieved => "Logrado"
    case Paused => "En Pausa"
    case Discontinued => "Descontinuado"
  }

  /** Each status has its own colour and its own label. */
  lemma StatusBadgesDistinct(a: ProgramStatus, b: ProgramStatus)
    requires a != b
    ensures StatusColor(a) != StatusColor(b) && StatusLabel(a) != StatusLabel(b)
  {
  }

  /** Picking a status from a program's badge menu: its current status does nothing, any other asks for confirmation. */
  function StatusClick(st: DashboardState, program: Program, newStatus: ProgramStatus): (r: DashboardState)
    ensures program.status == newStatus ==> r == st
    ensures program.status != newStatus ==>
      r == st.(selected := Some(program), target := Some(newStatus), confirmOpen := true)
  {
    if program.status == newStatus then st
    else st.(selected := Some(program), target := Some(newStatus), confirmOpen := true)
  }

  function SetProgramStatus(programs: seq<Program>, id: string, s: ProgramStatus): (r: seq<Program>)
    ensures |r| == |programs|
    ensures forall i :: 0 <= i < |programs| ==>
      r[i] == (if programs[i].id == id then programs[i].(status := s) else programs[i])
  {
    MapWhere(programs, (p: Program) => p.id == id, (p: Program) => p.(status := s))
  }

  /**
   * "Confirmar": the selected program (by id) takes the target status, nothing else changes, and
   * the selection is cleared. Without a selection or a target it does nothing.
   */
  function ConfirmStatusChange(st: DashboardState): (r: DashboardState)
    ensures st.selected.None? || st.target.None? ==> r == st
    ensures st.selected.Some? && st.target.Some? ==>
      r.programs == SetProgramStatus(st.programs, st.selected.value.id, st.target.value)
      && r.filter == st.filter && r.selected.None? && r.target.None? && !r.confirmOpen
  {
    if st.selected.None? || st.target.None? then st
    else
      DashboardState(SetProgramStatus(st.programs, st.selected.value.id, st.target.value), st.filter, None, None, false)
  }

  /**
   * Picking a new status and confirming moves that program into the new status's view and out of
   * the old one's; every program with another id keeps its status.
   */
  lemma ClickThenConfirm(st: DashboardState, k: nat, newStatus: ProgramStatus)
    requires k < |st.programs| && st.programs[k].status != newStatus
    ensures var r := ConfirmStatusChange(StatusClick(st, st.programs[k], newStatus));
      r.programs[k] in Filtered(r.programs, Only(newStatus))
      && r.programs[k] !in Filtered(r.programs, Only(st.programs[k].status))
      && forall i :: 0 <= i < |st.programs| && st.programs[i].id != st.programs[k].id ==> r.programs[i] == st.programs[i]
  {
  }
}
