/**
 * A live therapy session: the student's active programs, the list of programs already recorded in
 * this session, the data-collection dialog for one program at a time, the progress indicator and
 * the pause switch.
 */
module SessionPage {
  import opened Wrappers
  import opened Seqs
  import opened Arith
  import opened Programs

  /** `sessionPrograms`: exactly the programs of this student whose status is active. */
  function SessionPrograms(all: seq<Program>, studentId: string): (r: seq<Program>)
    ensures forall p :: p in r <==> p in all && p.studentId == studentId && p.status == Active
    ensures IsSubsequence(r, all)
  {
    FilterIsSubsequence(all, (p: Program) => p.studentId == studentId && p.status == Active);
    Filter(all, (p: Program) => p.studentId == studentId && p.status == Active)
  }

  datatype SessionStatus = InProgress | OnPause

  datatype SessionState = SessionState(
    status: SessionStatus, completed: seq<string>, activeProgram: Option<Program>, collectorOpen: bool)

  const Initial: SessionState := SessionState(InProgress, [], None, false)

  /** "Pausar"/"Reanudar". */
  function TogglePause(st: SessionState): (r: SessionState)
    ensures r.status != st.status
    ensures r.completed == st.completed && r.activeProgram == st.activeProgram && r.collectorOpen == st.collectorOpen
  {
    st.(status := if st.status == InProgress then OnPause else InProgress)
  }

  lemma TogglePauseTwice(st: SessionState)
    ensures TogglePause(TogglePause(st)) == st
  {
  }

  /** The status badge: green "En Curso" while running, yellow "Pausada" while paused. */
  function StatusBadge(s: SessionStatus): (b: (string, string))
    ensures s == InProgress ==> b == ("green", "En Curso")
    ensures s == OnPause ==> b == ("yellow", "Pausada")
  {
    if s == InProgress then ("green", "En Curso") else ("yellow", "Pausada")
  }

  /** "Iniciar" / "Repetir Registro": opens the collector on that program. */
  function StartProgram(st: SessionState, program: Program): (r: SessionState)
    ensures r.activeProgram == Some(program) && r.collectorOpen
    ensures r.completed == st.completed && r.status == st.status
  {
    st.(activeProgram := Some(program), collectorOpen := true)
  }

  /** Closing the collector marks its program done, once; the dialog closes in every case. */
  function CloseCollector(st: SessionState): (r: SessionState)
    ensures st.activeProgram.Some? && st.activeProgram.value.id !in st.completed ==>
      r.completed == st.completed + [st.activeProgram.value.id]
    ensures st.activeProgram.None? || st.activeProgram.value.id in st.completed ==> r.completed == st.completed
    ensures r.activeProgram.None? && !r.collectorOpen && r.status == st.status
  {
    var completed :=
      if st.activeProgram.Some? && st.activeProgram.value.id !in st.completed
      then st.completed + [st.activeProgram.value.id]
      else st.completed;
    st.(completed := completed, activeProgram := None, collectorOpen := false)
  }

  function Ids(programs: seq<Program>): (r: seq<string>)
    ensures |r| == |programs|
    ensures forall i :: 0 <= i < |programs| ==> r[i] == programs[i].id
  {
    seq(|programs|, i requires 0 <= i < |programs| => programs[i].id)
  }

  /**
   * What the page keeps true: the completed ids are distinct ids of the session's programs, and the
   * collector only ever holds one of those programs.
   */
  predicate Valid(st: SessionState, session: seq<Program>) {
    Distinct(st.completed)
    && (forall i :: 0 <= i < |st.completed| ==> st.completed[i] in Ids(session))
    && (st.activeProgram.Some? ==> st.activeProgram.value in session)
  }

  lemma InitialValid(session: seq<Program>)
    ensures Valid(Initial, session)
  {
  }

  /** Starting a listed program and closing the collector keep the page's invariant. */
  lemma HandlersKeepValid(st: SessionState, session: seq<Program>, program: Program)
    requires Valid(st, session)
    ensures program in session ==> Valid(StartProgram(st, program), session)
    ensures Valid(CloseCollector(st), session)
    ensures Valid(TogglePause(st), session)
  {
    var r := CloseCollector(st);
    if st.activeProgram.Some? && st.activeProgram.value.id !in st.completed {
      var k :| 0 <= k < |session| && session[k] == st.activeProgram.value;
      assert Ids(session)[k] == st.activeProgram.value.id;
      assert r.completed == st.completed + [st.activeProgram.value.id];
    }
  }

  /** No more programs can be done than the session has. */
  lemma CompletedBounded(st: SessionState, session: seq<Program>)
    requires Valid(st, session)
    ensures |st.completed| <= |session|
  {
    DistinctDrawnFromIsShorter(st.completed, Ids(session));
  }

  /**
   * `progressValue` as written, `completed / total * 100` in floating point; `None` stands for the
   * NaN that 0 / 0 gives, which the page then prints as "NaN%". A positive count over a total of 0
   * would be Infinity in JavaScript; it never arises, since the completed programs are drawn from
   * the session (`CompletedBounded`), and the model returns `Some(0)` there.
   */
  function ProgressAsWritten(completed: nat, total: nat): (r: Option<int>)
    ensures total == 0 && completed == 0 <==> r.None?
    ensures total > 0 ==> r == Some(RoundDiv(100 * completed, total))
  {
    if total == 0 then (if completed == 0 then None else Some(0)) else Some(RoundDiv(100 * completed, total))
  }

  /** A student with no active programs gets a percentage of NaN, not 0. */
  lemma NoActiveProgramsShowsNaN(all: seq<Program>, studentId: string)
    requires forall k :: 0 <= k < |all| ==> all[k].studentId != studentId || all[k].status != Active
    ensures SessionPrograms(all, studentId) == []
    ensures ProgressAsWritten(|Initial.completed|, |SessionPrograms(all, studentId)|).None?
  {
    forall p | p in all
      ensures !(p.studentId == studentId && p.status == Active)
    {
      var k :| 0 <= k < |all| && all[k] == p;
    }
  }

  /** The percentage as intended: 0 with nothing to do, otherwise the rounded share of programs done. */
  function Progress(st: SessionState, session: seq<Program>): (pct: int)
    requires Valid(st, session)
    ensures 0 <= pct <= 100
    ensures |session| == 0 ==> pct == 0
    ensures |session| > 0 ==> ProgressAsWritten(|st.completed|, |session|) == Some(pct)
    ensures |session| > 0 && |st.completed| == |session| ==> pct == 100
  {
    CompletedBounded(st, session);
    if |session| == 0 then 0
    else
      RoundedPercentInRange(|st.completed|, |session|);
      RoundDiv(100 * |st.completed|, |session|)
  }
}
