/**
 * The students grid: the students visible to the current role, the search box and the status
 * tabs, the diagnosis choices of the creation form, and that form's validators and payload.
 */
module StudentsList {
  import opened Wrappers
  import opened Seqs
  import opened Text
  import opened MockData

  // ----- the visible list -----

  /** A therapist sees only part of the roster: the first three students. */
  function Available(students: seq<StudentProfile>, isTherapist: bool): (r: seq<StudentProfile>)
    ensures isTherapist ==> |r| <= 3
    ensures !isTherapist ==> r == students
    ensures |r| <= |students| && r == students[..|r|]
  {
    if isTherapist && |students| > 3 then students[..3] else students
  }

  /**
   * The search box: the lower-cased query occurs in the lower-cased name or diagnosis, or in the
   * identity number as it is written.
   */
  predicate MatchesSearch(s: StudentProfile, query: string) {
    var q := LowerStr(query);
    Contains(LowerStr(s.fullName), q) || Contains(LowerStr(s.diagnosis), q) || Contains(s.identityNumber, q)
  }

  /** `student.status || 'active'`. */
  function EffectiveStatus(s: StudentProfile): (st: StudentStatus)
    ensures s.status.Some? ==> st == s.status.value
    ensures s.status.None? ==> st == StudentActive
  {
    s.status.GetOr(StudentActive)
  }

  /** The tab test: "all" admits everyone, otherwise the tab value must spell the student's status. */
  predicate MatchesTab(s: StudentProfile, tab: Option<string>) {
    tab == Some("all") || (tab.Some? && StudentStatusText(EffectiveStatus(s)) == tab.value)
  }

  predicate Shown(s: StudentProfile, query: string, tab: Option<string>) {
    MatchesSearch(s, query) && MatchesTab(s, tab)
  }

  /** `filteredStudents`: an order-preserving selection of the students the role can see. */
  function FilteredStudents(students: seq<StudentProfile>, isTherapist: bool, query: string, tab: Option<string>)
    : (r: seq<StudentProfile>)
    ensures IsSubsequence(r, students)
    ensures isTherapist ==> |r| <= 3
    ensures forall s :: s in r <==> s in Available(students, isTherapist) && Shown(s, query, tab)
  {
    var avail := Available(students, isTherapist);
    var r := Filter(avail, (s: StudentProfile) => Shown(s, query, tab));
    FilterIsSubsequence(avail, (s: StudentProfile) => Shown(s, query, tab));
    assert students == avail + students[|avail|..];
    SubsequenceOfPrefix(r, avail, students[|avail|..]);
    r
  }

  /** With an empty search on the "Todos" tab, every student the role can see is listed. */
  lemma EmptySearchShowsAll(students: seq<StudentProfile>, isTherapist: bool)
    ensures FilteredStudents(students, isTherapist, "", Some("all")) == Available(students, isTherapist)
  {
    var avail := Available(students, isTherapist);
    forall i | 0 <= i < |avail|
      ensures Shown(avail[i], "", Some("all"))
    {
      ContainsEmpty(LowerStr(avail[i].fullName));
    }
    FilterKeepsAll(avail, (s: StudentProfile) => Shown(s, "", Some("all")));
  }

  /** The search does not depend on the case of the query. */
  lemma SearchIgnoresQueryCase(s: StudentProfile, query: string)
    ensures MatchesSearch(s, query) == MatchesSearch(s, LowerStr(query))
  {
    LowerStrIdempotent(query);
  }

  /** Typing any part of a student's name, in any case, finds that student. */
  lemma NameFragmentMatches(s: StudentProfile, query: string)
    requires Contains(s.fullName, query)
    ensures MatchesSearch(s, query)
  {
    ContainsLowered(s.fullName, query);
  }

  /** A student without a status is listed under "Vigentes" and never under "Antiguos". */
  lemma MissingStatusIsActive(s: StudentProfile)
    requires s.status.None?
    ensures MatchesTab(s, Some("active")) && !MatchesTab(s, Some("inactive"))
  {
  }

  // ----- diagnosis choices -----

  const DefaultDiagnoses: seq<string> := ["TEA Nivel 1", "TEA Nivel 2", "TEA Nivel 3", "Retraso Global del Desarrollo"]

  lemma DefaultsDistinct()
    ensures Distinct(DefaultDiagnoses)
  {
    var d := DefaultDiagnoses;
    assert d[0][10] == '1' && d[1][10] == '2' && d[2][10] == '3';
    assert |d[0]| == |d[1]| == |d[2]| == 11 && |d[3]| == 29;
  }

  function Diagnoses(students: seq<StudentProfile>): (r: seq<string>)
    ensures |r| == |students|
    ensures forall i :: 0 <= i < |students| ==> r[i] == students[i].diagnosis
  {
    seq(|students|, i requires 0 <= i < |students| => students[i].diagnosis)
  }

  /** `existingDiagnoses`: the students' diagnoses, each once, in the order they first appear. */
  function ExistingDiagnoses(students: seq<StudentProfile>): (e: seq<string>)
    ensures Distinct(e)
    ensures forall d :: d in e <==> exists i :: 0 <= i < |students| && students[i].diagnosis == d
    ensures InFirstOccurrenceOrder(e, Diagnoses(students))
  {
    var ds := Diagnoses(students);
    DedupFirstOccurrenceOrder(ds);
    forall d | d in Dedup(ds)
      ensures exists i :: 0 <= i < |students| && students[i].diagnosis == d
    {
      var i :| 0 <= i < |ds| && ds[i] == d;
    }
    forall i | 0 <= i < |students|
      ensures students[i].diagnosis in Dedup(ds)
    {
      assert ds[i] == students[i].diagnosis;
    }
    Dedup(ds)
  }

  /** The list the options are collected from: the defaults, the existing diagnoses, then "Otro". */
  function DiagnosisMentions(students: seq<StudentProfile>): seq<string> {
    DefaultDiagnoses + ExistingDiagnoses(students) + ["Otro"]
  }

  /** The options begin with the defaults, in their order. */
  lemma OptionsStartWithDefaults(students: seq<StudentProfile>, r: seq<string>)
    requires r == Dedup(DiagnosisMentions(students))
    ensures |r| >= |DefaultDiagnoses| && r[..|DefaultDiagnoses|] == DefaultDiagnoses
  {
    DefaultsDistinct();
    DedupKeepsDistinctPrefix(DefaultDiagnoses, ExistingDiagnoses(students) + ["Otro"]);
    assert DiagnosisMentions(students) == DefaultDiagnoses + (ExistingDiagnoses(students) + ["Otro"]);
  }

  /** The options are exactly the defaults, "Otro" and the diagnoses in use. */
  lemma OptionsAreMentioned(students: seq<StudentProfile>, r: seq<string>)
    requires r == Dedup(DiagnosisMentions(students))
    ensures forall d :: d in r <==> d in DefaultDiagnoses || d == "Otro" || exists i :: 0 <= i < |students| && students[i].diagnosis == d
  {
    var m := DiagnosisMentions(students);
    forall d
      ensures d in r <==> d in m
    {
      if d in m {
        var k :| 0 <= k < |m| && m[k] == d;
      }
    }
  }

  /**
   * `diagnosisOptions`: the defaults first, in their order, then the existing diagnoses and "Otro",
   * each offered once, in the order of first mention.
   */
  function DiagnosisOptions(students: seq<StudentProfile>): (r: seq<string>)
    ensures Distinct(r)
    ensures |r| >= |DefaultDiagnoses| && r[..|DefaultDiagnoses|] == DefaultDiagnoses
    ensures forall d :: d in r <==> d in DefaultDiagnoses || d == "Otro" || exists i :: 0 <= i < |students| && students[i].diagnosis == d
    ensures InFirstOccurrenceOrder(r, DiagnosisMentions(students))
  {
    var r := Dedup(DiagnosisMentions(students));
    OptionsStartWithDefaults(students, r);
    OptionsAreMentioned(students, r);
    DedupFirstOccurrenceOrder(DiagnosisMentions(students));
    r
  }

  // ----- the creation form -----

  /** A calendar day as the date picker gives it. */
  datatype CalendarDate = CalendarDate(year: int, month: int, day: int)

  datatype CreateForm = CreateForm(
    fullName: string, identityNumber: string, dateOfBirth: CalendarDate, diagnosis: string, customDiagnosis: string)

  datatype CreateErrors = CreateErrors(fullName: bool, identityNumber: bool, diagnosis: bool, customDiagnosis: bool)

  /**
   * The validators, on `length` in UTF-16 code units: a name of at least 5, an identity number of at
   * least 8, a diagnosis of at least 2, and, only when "Otro" is chosen, a written-in diagnosis of at least 2.
   */
  function ValidateCreate(f: CreateForm): (e: CreateErrors)
    ensures e.fullName <==> Utf16Length(f.fullName) < 5
    ensures e.identityNumber <==> Utf16Length(f.identityNumber) < 8
    ensures e.diagnosis <==> Utf16Length(f.diagnosis) < 2
    ensures e.customDiagnosis <==> f.diagnosis == "Otro" && Utf16Length(f.customDiagnosis) < 2
  {
    CreateErrors(Utf16Length(f.fullName) < 5, Utf16Length(f.identityNumber) < 8, Utf16Length(f.diagnosis) < 2,
                 f.diagnosis == "Otro" && Utf16Length(f.customDiagnosis) < 2)
  }

  /** `CreateStudentData`, what the list hands to its page. */
  datatype CreateStudentData = CreateStudentData(
    fullName: string, identityNumber: string, dateOfBirth: CalendarDate, diagnosis: string)

  /** "Otro" stands for the written-in diagnosis. */
  function FinalDiagnosis(f: CreateForm): (d: string)
    ensures f.diagnosis == "Otro" ==> d == f.customDiagnosis
    ensures f.diagnosis != "Otro" ==> d == f.diagnosis
  {
    if f.diagnosis == "Otro" then f.customDiagnosis else f.diagnosis
  }

  /**
   * "Crear": a form that fails a validator is not submitted; a valid one produces the payload with
   * the final diagnosis, whose `length` is always at least two.
   */
  function SubmitCreate(f: CreateForm): (r: Option<CreateStudentData>)
    ensures r.Some? <==> ValidateCreate(f) == CreateErrors(false, false, false, false)
    ensures r.Some? ==>
      r.value.fullName == f.fullName && r.value.identityNumber == f.identityNumber
      && r.value.dateOfBirth == f.dateOfBirth && r.value.diagnosis == FinalDiagnosis(f)
      && Utf16Length(r.value.fullName) >= 5 && Utf16Length(r.value.identityNumber) >= 8 && Utf16Length(r.value.diagnosis) >= 2
  {
    if ValidateCreate(f) == CreateErrors(false, false, false, false) then
      Some(CreateStudentData(f.fullName, f.identityNumber, f.dateOfBirth, FinalDiagnosis(f)))
    else None
  }
}
