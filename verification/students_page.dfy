/**
 * The students page: the roster held in page state, the student named by the route, the creation
 * of a new folder from the list's form, and the page's handler that merges an edited student, which
 * no screen calls. The clock (timestamp, current day) and the ISO rendering of the picked birth date
 * are parameters.
 */
module StudentsPage {
  import opened Wrappers
  import opened Text
  import opened MockData
  import opened StudentsList

  /** `students.find(s => s.id === id)`: the first student with that id. */
  function FindStudent(students: seq<StudentProfile>, id: string): (r: Option<StudentProfile>)
    ensures r.None? <==> forall k :: 0 <= k < |students| ==> students[k].id != id
    ensures r.Some? ==> exists k :: (0 <= k < |students| && students[k] == r.value
      && r.value.id == id && forall j :: 0 <= j < k ==> students[j].id != id)
  {
    if |students| == 0 then None
    else if students[0].id == id then Some(students[0])
    else
      var r := FindStudent(students[1..], id);
      if r.Some? then
        var k :| 0 <= k < |students[1..]| && students[1..][k] == r.value
          && r.value.id == id && forall j :: 0 <= j < k ==> students[1..][j].id != id;
        assert students[k + 1] == r.value;
        r
      else r
  }

  /** The student of the route `/students/:id`; none without an id (an empty id counts as none). */
  function SelectedStudent(students: seq<StudentProfile>, routeId: Option<string>): (r: Option<StudentProfile>)
    ensures routeId.None? || routeId.value == "" ==> r.None?
    ensures routeId.Some? && routeId.value != "" ==> r == FindStudent(students, routeId.value)
  {
    if routeId.None? || routeId.value == "" then None else FindStudent(students, routeId.value)
  }

  // ----- creation -----

  const AvatarBase: string := "https://api.dicebear.com/7.x/avataaars/svg?seed="

  /** The avatar URL is seeded with the name written without any whitespace. */
  function AvatarUrl(fullName: string): (url: string)
    ensures |url| >= |AvatarBase| && url[..|AvatarBase|] == AvatarBase
    ensures forall i :: |AvatarBase| <= i < |url| ==> !IsSpace(url[i]) && url[i] in fullName
    ensures forall c :: c in fullName && !IsSpace(c) ==> c in url[|AvatarBase|..]
  {
    var seed := RemoveWhitespace(fullName);
    var url := AvatarBase + seed;
    assert url[|AvatarBase|..] == seed;
    url
  }

  /** Names that differ only in their spacing get the same avatar. */
  lemma AvatarIgnoresSpacing(a: string, b: string)
    requires RemoveWhitespace(a) == RemoveWhitespace(b)
    ensures AvatarUrl(a) == AvatarUrl(b)
  {
  }

  /** `new Date().getFullYear() - dateOfBirth.getFullYear()`: the difference of the calendar years. */
  function Age(birth: CalendarDate, currentYear: int): (age: int)
    ensures age + birth.year == currentYear
  {
    currentYear - birth.year
  }

  /** The age in completed years, which does count month and day. */
  function CompletedYears(birth: CalendarDate, today: CalendarDate): int {
    today.year - birth.year
      - (if today.month < birth.month || (today.month == birth.month && today.day < birth.day) then 1 else 0)
  }

  /** The stored age is the completed years, or one more when this year's birthday is still ahead. */
  lemma AgeCountsYearsNotBirthdays(birth: CalendarDate, today: CalendarDate)
    ensures Age(birth, today.year) - CompletedYears(birth, today) in {0, 1}
    ensures Age(birth, today.year) == CompletedYears(birth, today)
      <==> today.month > birth.month || (today.month == birth.month && today.day >= birth.day)
  {
  }

  function NewStudentId(now: nat): (id: string)
    ensures |id| > 8 && id[..8] == "std-new-" && ParseNat(id[8..]) == Some(now)
  {
    NatToStringRoundTrip(now);
    var id := "std-new-" + NatToString(now);
    assert id[8..] == NatToString(now);
    id
  }

  /** `handleCreateStudent`'s record: an empty folder with no session and no family access. */
  function NewStudent(data: CreateStudentData, now: nat, birthIso: string, today: CalendarDate, todayIso: string)
    : (s: StudentProfile)
    ensures s.id == NewStudentId(now) && s.avatar == AvatarUrl(data.fullName)
    ensures s.fullName == data.fullName && s.identityNumber == data.identityNumber && s.diagnosis == data.diagnosis
    ensures s.dateOfBirth == birthIso && s.registrationDate == todayIso
    ensures s.age == Age(data.dateOfBirth, today.year) && s.consultationReason == "Nuevo Ingreso"
    ensures !s.hasActiveSession && !s.familyAccessEnabled
    ensures s.familyMembers == [] && s.medications == [] && s.legalDocuments == []
    ensures s.lastSessionDate.None? && s.assignedTherapist.None? && s.status.None?
  {
    StudentProfile(
      NewStudentId(now), AvatarUrl(data.fullName), data.fullName, data.identityNumber, birthIso,
      Age(data.dateOfBirth, today.year), data.diagnosis, "Nuevo Ingreso", false, false,
      [], [], [], todayIso, None, None, None)
  }

  /** Creation appends exactly one student; the others stay as they were. */
  function CreateStudent(students: seq<StudentProfile>, data: CreateStudentData, now: nat, birthIso: string,
                         today: CalendarDate, todayIso: string): (r: seq<StudentProfile>)
    ensures |r| == |students| + 1 && r[..|students|] == students
    ensures r[|students|] == NewStudent(data, now, birthIso, today, todayIso)
  {
    students + [NewStudent(data, now, birthIso, today, todayIso)]
  }

  /** A created student whose id is new is the one the route to that id opens, and it is listed as active. */
  lemma CreatedStudentIsReachable(students: seq<StudentProfile>, data: CreateStudentData, now: nat,
                                  birthIso: string, today: CalendarDate, todayIso: string)
    requires forall k :: 0 <= k < |students| ==> students[k].id != NewStudentId(now)
    ensures var r := CreateStudent(students, data, now, birthIso, today, todayIso);
      SelectedStudent(r, Some(NewStudentId(now))) == Some(r[|students|])
      && MatchesTab(r[|students|], Some("active"))
  {
    var r := CreateStudent(students, data, now, birthIso, today, todayIso);
    var found := FindStudent(r, NewStudentId(now));
    assert r[|students|].id == NewStudentId(now);
    assert forall j :: 0 <= j < |students| ==> r[j] == students[j];
  }

  // ----- update -----

  /** `Partial<StudentProfile>`: the fields the edit carries; an optional field is carried as its new value. */
  datatype StudentPatch = StudentPatch(
    id: Option<string>,
    avatar: Option<string>,
    fullName: Option<string>,
    identityNumber: Option<string>,
    dateOfBirth: Option<string>,
    age: Option<int>,
    diagnosis: Option<string>,
    consultationReason: Option<string>,
    hasActiveSession: Option<bool>,
    familyAccessEnabled: Option<bool>,
    familyMembers: Option<seq<FamilyMember>>,
    medications: Option<seq<MedicationRecord>>,
    legalDocuments: Option<seq<LegalDocument>>,
    registrationDate: Option<string>,
    lastSessionDate: Option<string>,
    assignedTherapist: Option<string>,
    status: Option<StudentStatus>)

  const NoChanges: StudentPatch :=
    StudentPatch(None, None, None, None, None, None, None, None, None, None, None, None, None, None, None, None, None)

  function Override<T>(prev: Option<T>, patch: Option<T>): Option<T> {
    if patch.Some? then patch else prev
  }

  /** A spread field: the edit's value when it carries one, otherwise the previous value. */
  predicate Spread<T(==)>(r: T, prev: T, patch: Option<T>) {
    (patch.Some? ==> r == patch.value) && (patch.None? ==> r == prev)
  }

  /** The same for a field that is itself optional. */
  predicate SpreadOptional<T(==)>(r: Option<T>, prev: Option<T>, patch: Option<T>) {
    (patch.Some? ==> r == patch) && (patch.None? ==> r == prev)
  }

  /** `{ ...student, ...data }`: every field the edit carries replaces the student's; every other is kept. */
  function Merge(s: StudentProfile, p: StudentPatch): (r: StudentProfile)
    ensures p == NoChanges ==> r == s
    ensures p.id.None? ==> r.id == s.id
    ensures Spread(r.id, s.id, p.id) && Spread(r.avatar, s.avatar, p.avatar)
    ensures Spread(r.fullName, s.fullName, p.fullName) && Spread(r.identityNumber, s.identityNumber, p.identityNumber)
    ensures Spread(r.dateOfBirth, s.dateOfBirth, p.dateOfBirth) && Spread(r.age, s.age, p.age)
    ensures Spread(r.diagnosis, s.diagnosis, p.diagnosis)
    ensures Spread(r.consultationReason, s.consultationReason, p.consultationReason)
    ensures Spread(r.hasActiveSession, s.hasActiveSession, p.hasActiveSession)
    ensures Spread(r.familyAccessEnabled, s.familyAccessEnabled, p.familyAccessEnabled)
    ensures Spread(r.familyMembers, s.familyMembers, p.familyMembers)
    ensures Spread(r.medications, s.medications, p.medications)
    ensures Spread(r.legalDocuments, s.legalDocuments, p.legalDocuments)
    ensures Spread(r.registrationDate, s.registrationDate, p.registrationDate)
    ensures SpreadOptional(r.lastSessionDate, s.lastSessionDate, p.lastSessionDate)
    ensures SpreadOptional(r.assignedTherapist, s.assignedTherapist, p.assignedTherapist)
    ensures SpreadOptional(r.status, s.status, p.status)
  {
    StudentProfile(
      p.id.GetOr(s.id), p.avatar.GetOr(s.avatar), p.fullName.GetOr(s.fullName),
      p.identityNumber.GetOr(s.identityNumber), p.dateOfBirth.GetOr(s.dateOfBirth), p.age.GetOr(s.age),
      p.diagnosis.GetOr(s.diagnosis), p.consultationReason.GetOr(s.consultationReason),
      p.hasActiveSession.GetOr(s.hasActiveSession), p.familyAccessEnabled.GetOr(s.familyAccessEnabled),
      p.familyMembers.GetOr(s.familyMembers), p.medications.GetOr(s.medications),
      p.legalDocuments.GetOr(s.legalDocuments), p.registrationDate.GetOr(s.registrationDate),
      Override(s.lastSessionDate, p.lastSessionDate), Override(s.assignedTherapist, p.assignedTherapist),
      Override(s.status, p.status))
  }

  /** Applying the same edit twice is applying it once. */
  lemma MergeIdempotent(s: StudentProfile, p: StudentPatch)
    ensures Merge(Merge(s, p), p) == Merge(s, p)
  {
  }

  /** `handleUpdateStudent`: the edit goes into the students with the route id; without an id nothing changes. */
  function UpdateStudent(students: seq<StudentProfile>, routeId: Option<string>, p: StudentPatch)
    : (r: seq<StudentProfile>)
    ensures |r| == |students|
    ensures forall i :: 0 <= i < |students| ==>
      r[i] == (if routeId == Some(students[i].id) then Merge(students[i], p) else students[i])
    ensures routeId.None? ==> r == students
  {
    seq(|students|, i requires 0 <= i < |students| =>
      if routeId == Some(students[i].id) then Merge(students[i], p) else students[i])
  }

  /** After an edit that keeps the id, looking that id up finds the edited student. */
  lemma {:induction false} FindAfterUpdate(students: seq<StudentProfile>, id: string, p: StudentPatch)
    requires p.id.None?
    ensures var before := FindStudent(students, id);
      var after := FindStudent(UpdateStudent(students, Some(id), p), id);
      (before.None? ==> after.None?) && (before.Some? ==> after == Some(Merge(before.value, p)))
  {
    if |students| > 0 {
      var r := UpdateStudent(students, Some(id), p);
      if students[0].id != id {
        assert r[0] == students[0];
        assert r[1..] == UpdateStudent(students[1..], Some(id), p);
        FindAfterUpdate(students[1..], id, p);
      }
    }
  }

  /** After an edit that keeps the id, the route shows the edited student. */
  lemma UpdateThenSelect(students: seq<StudentProfile>, id: string, p: StudentPatch)
    requires id != "" && p.id.None?
    ensures var before := SelectedStudent(students, Some(id));
      var after := SelectedStudent(UpdateStudent(students, Some(id), p), Some(id));
      (before.None? ==> after.None?) && (before.Some? ==> after == Some(Merge(before.value, p)))
  {
    FindAfterUpdate(students, id, p);
  }
}
