/**
 * Shared-access invitations: the record a supervisor creates when sharing a student's folder with
 * a professional, and the mock generator that fills the list. The generator's random day offsets
 * and the current time are parameters; dates are milliseconds since the epoch.
 */
module InvitationsData {
  import opened Wrappers
  import opened Seqs
  import opened Text

  datatype AccessLevel = Full | ReadOnly | ProgramsOnly

  datatype Status = Pending | Accepted | Rejected

  datatype SharedAccess = SharedAccess(
    id: string,
    sharedBy: string,
    sharedWith: string,
    studentId: string,
    studentName: string,
    professionalName: Option<string>,
    professionalTitle: Option<string>,
    sharedDate: int,
    accessLevel: AccessLevel,
    status: Status,
    message: Option<string>)

  /** The access badge both invitation pages draw: one colour and one label per level. */
  function AccessBadgeColor(level: AccessLevel): (c: string)
    ensures c in {"blue", "yellow", "violet"}
    ensures c == "blue" <==> level == Full
    ensures c == "yellow" <==> level == ReadOnly
    ensures c == "violet" <==> level == ProgramsOnly
  {
    match level
    case Full => "blue"
    case ReadOnly => "yellow"
    case ProgramsOnly => "violet"
  }

  function AccessLabel(level: AccessLevel): (s: string)
    ensures s in {"Acceso Completo", "Solo Lectura", "Solo Programas"}
    ensures s == "Acceso Completo" <==> level == Full
    ensures s == "Solo Lectura" <==> level == ReadOnly
    ensures s == "Solo Programas" <==> level == ProgramsOnly
  {
    match level
    case Full => "Acceso Completo"
    case ReadOnly => "Solo Lectura"
    case ProgramsOnly => "Solo Programas"
  }

  lemma AccessBadgesDistinct(l1: AccessLevel, l2: AccessLevel)
    requires l1 != l2
    ensures AccessBadgeColor(l1) != AccessBadgeColor(l2) && AccessLabel(l1) != AccessLabel(l2)
  {
  }

  datatype Professional = Professional(name: string, title: string, email: string)

  datatype StudentRef = StudentRef(id: string, name: string)

  const SupervisorId: string := "sup-001"

  const DayMs: int := 86400000

  const Professionals: seq<Professional> := [
    Professional("Dr. Roberto Sánchez", "Psicólogo Clínico", "roberto.sanchez@example.com"),
    Professional("Lic. Carmen Flores", "Terapeuta Ocupacional", "carmen.flores@example.com"),
    Professional("Mg. Laura Mendoza", "Fonoaudióloga", "laura.mendoza@example.com"),
    Professional("Dr. Andrés Vargas", "Neurólogo Infantil", "andres.vargas@example.com"),
    Professional("Lic. Patricia Ruiz", "Psicopedagoga", "patricia.ruiz@example.com"),
    Professional("Dra. Sofía Morales", "Psiquiatra Infantil", "sofia.morales@example.com"),
    Professional("Lic. Diego Torres", "Terapeuta ABA", "diego.torres@example.com"),
    Professional("Mg. Ana Castillo", "Educadora Especial", "ana.castillo@example.com")]

  const Students: seq<StudentRef> := [
    StudentRef("std-001", "Santiago García Pérez"),
    StudentRef("std-002", "Valentina Rodríguez Muñoz"),
    StudentRef("std-003", "Mateo López Fernández"),
    StudentRef("std-004", "Sofía Martínez Soto"),
    StudentRef("std-005", "Lucas Hernández Díaz")]

  const AccessLevels: seq<AccessLevel> := [Full, ReadOnly, ProgramsOnly]

  const Messages: seq<string> := [
    "Solicito tu colaboración para la evaluación inicial del estudiante.",
    "Necesito tu apoyo profesional en el seguimiento del caso.",
    "Te comparto acceso para coordinación interdisciplinaria.",
    "Requiero tu evaluación especializada para el plan de intervención.",
    "Comparto acceso para revisión de programas educativos.",
    "Necesito tu opinión profesional sobre el progreso del estudiante."]

  /**
   * The status of the `i`-th of `count` invitations: the first `floor(count * 0.4)` pending, those
   * below `floor(count * 0.9)` accepted, the rest rejected. The doubles 0.4 and 0.9 lie just above
   * the reals, so the floating-point products floor to the integer quotients used here.
   */
  function StatusFor(i: nat, count: nat): (s: Status)
    ensures s == Pending <==> i < (2 * count) / 5
    ensures s == Accepted <==> (2 * count) / 5 <= i < (9 * count) / 10
    ensures s == Rejected <==> (9 * count) / 10 <= i
  {
    if i < (2 * count) / 5 then Pending
    else if i < (9 * count) / 10 then Accepted
    else Rejected
  }

  /** `inv-` followed by `i + 1` padded to three digits. */
  function InvitationId(i: nat): (id: string)
    ensures |id| >= 7 && id[..4] == "inv-"
    ensures ParseNat(id[4..]) == Some(i + 1)
  {
    PaddedRoundTrip(i + 1, 3);
    var id := "inv-" + PadStart(NatToString(i + 1), 3, '0');
    assert id[4..] == PadStart(NatToString(i + 1), 3, '0');
    id
  }

  /** Invitation ids never collide, however many are generated: padding never truncates. */
  lemma InvitationIdInjective(i: nat, j: nat)
    requires InvitationId(i) == InvitationId(j)
    ensures i == j
  {
  }

  /** The `i`-th generated invitation, shared `daysAgo` days before `now`. */
  function MockInvitation(i: nat, count: nat, daysAgo: nat, now: int): SharedAccess {
    var p := Professionals[i % |Professionals|];
    var st := Students[i % |Students|];
    SharedAccess(
      InvitationId(i), SupervisorId, p.email, st.id, st.name, Some(p.name), Some(p.title),
      now - daysAgo * DayMs, AccessLevels[i % |AccessLevels|], StatusFor(i, count),
      if i % 2 == 0 then Some(Messages[i % |Messages|]) else None)
  }

  /**
   * What the generator assigns: professional, student and access level round-robin over their
   * lists, the status by quota, a message on every other invitation, dated `daysAgo` days back.
   */
  lemma MockInvitationFields(i: nat, count: nat, daysAgo: nat, now: int)
    ensures var a := MockInvitation(i, count, daysAgo, now);
      a.id == InvitationId(i) && a.sharedBy == SupervisorId
      && a.sharedWith == Professionals[i % 8].email && a.professionalName == Some(Professionals[i % 8].name)
      && a.studentId == Students[i % 5].id && a.studentName == Students[i % 5].name
      && a.accessLevel == AccessLevels[i % 3] && a.status == StatusFor(i, count)
      && (a.message.Some? <==> i % 2 == 0)
      && (a.message.Some? ==> a.message.value == Messages[i % 6])
      && a.sharedDate == now - daysAgo * DayMs
  {
  }

  /** The invitations in generation order, before sorting. */
  function Unsorted(count: nat, daysAgo: seq<nat>, now: int): (s: seq<SharedAccess>)
    requires |daysAgo| == count
    ensures |s| == count
    ensures forall i :: 0 <= i < count ==> s[i] == MockInvitation(i, count, daysAgo[i], now)
  {
    seq(count, i requires 0 <= i < count => MockInvitation(i, count, daysAgo[i], now))
  }

  predicate SortedByDateDesc(s: seq<SharedAccess>) {
    forall i, j :: 0 <= i < j < |s| ==> s[i].sharedDate >= s[j].sharedDate
  }

  /** Inserts `x` after every leading element at least as recent, as a stable sort does for a later element. */
  function Insert(x: SharedAccess, r: seq<SharedAccess>): (t: seq<SharedAccess>)
    ensures multiset(t) == multiset(r) + multiset{x}
  {
    if |r| == 0 then [x]
    else if r[0].sharedDate >= x.sharedDate then
      assert r == [r[0]] + r[1..];
      [r[0]] + Insert(x, r[1..])
    else [x] + r
  }

  lemma {:induction false} InsertKeepsSorted(x: SharedAccess, r: seq<SharedAccess>)
    requires SortedByDateDesc(r)
    ensures SortedByDateDesc(Insert(x, r))
  {
    if |r| == 0 {
    } else if r[0].sharedDate >= x.sharedDate {
      var rest := Insert(x, r[1..]);
      InsertKeepsSorted(x, r[1..]);
      if |rest| > 0 {
        HeadBoundsInserted(x, r, rest, 0);
      }
      ConsSorted(r[0], rest);
    } else {
      ConsSorted(x, r);
    }
  }

  lemma HeadBoundsInserted(x: SharedAccess, r: seq<SharedAccess>, rest: seq<SharedAccess>, k: nat)
    requires SortedByDateDesc(r) && |r| > 0 && r[0].sharedDate >= x.sharedDate
    requires multiset(rest) == multiset(r[1..]) + multiset{x} && k < |rest|
    ensures r[0].sharedDate >= rest[k].sharedDate
  {
    assert rest[k] in multiset(rest);
    if rest[k] != x {
      assert rest[k] in multiset(r[1..]);
      var m :| 0 <= m < |r[1..]| && r[1..][m] == rest[k];
      assert r[m + 1] == rest[k];
    }
  }

  lemma ConsSorted(a: SharedAccess, s: seq<SharedAccess>)
    requires SortedByDateDesc(s)
    requires |s| > 0 ==> a.sharedDate >= s[0].sharedDate
    ensures SortedByDateDesc([a] + s)
  {
    var t := [a] + s;
    forall i, j | 0 <= i < j < |t|
      ensures t[i].sharedDate >= t[j].sharedDate
    {
      if i == 0 {
        assert t[j] == s[j - 1];
        assert s[0].sharedDate >= s[j - 1].sharedDate;
      } else {
        assert t[i] == s[i - 1] && t[j] == s[j - 1];
      }
    }
  }

  /** `invitations.sort((a, b) => b.date - a.date)`: most recent first. */
  function SortByDateDesc(s: seq<SharedAccess>): (r: seq<SharedAccess>)
    ensures SortedByDateDesc(r)
    ensures multiset(r) == multiset(s)
  {
    if |s| == 0 then []
    else
      assert s == s[..|s| - 1] + [s[|s| - 1]];
      var init := SortByDateDesc(s[..|s| - 1]);
      InsertKeepsSorted(s[|s| - 1], init);
      Insert(s[|s| - 1], init)
  }

  /** `generateMockSharedAccess(count)`: `count` invitations, most recent first. */
  function GenerateMockSharedAccess(count: nat, daysAgo: seq<nat>, now: int): (r: seq<SharedAccess>)
    requires |daysAgo| == count
    ensures |r| == count && SortedByDateDesc(r)
    ensures multiset(r) == multiset(Unsorted(count, daysAgo, now))
  {
    var s := Unsorted(count, daysAgo, now);
    var r := SortByDateDesc(s);
    assert |r| == |multiset(r)| == |multiset(s)| == count;
    r
  }

  predicate IsPending(a: SharedAccess) {
    a.status == Pending
  }

  predicate IsAccepted(a: SharedAccess) {
    a.status == Accepted
  }

  predicate IsRejected(a: SharedAccess) {
    a.status == Rejected
  }

  predicate IdsDistinct(s: seq<SharedAccess>) {
    forall i, j :: 0 <= i < j < |s| ==> s[i].id != s[j].id
  }

  /** The status quotas of the generated list: 40% pending, 50% accepted, 10% rejected, rounded down at each cut. */
  lemma StatusQuotas(count: nat, daysAgo: seq<nat>, now: int)
    requires |daysAgo| == count
    ensures var s := Unsorted(count, daysAgo, now);
      |Filter(s, IsPending)| == (2 * count) / 5
      && |Filter(s, IsAccepted)| == (9 * count) / 10 - (2 * count) / 5
      && |Filter(s, IsRejected)| == count - (9 * count) / 10
  {
    var s := Unsorted(count, daysAgo, now);
    var p, a := (2 * count) / 5, (9 * count) / 10;
    assert p <= a <= count;
    FilterBlock(s, IsPending, 0, p);
    FilterBlock(s, IsAccepted, p, a);
    FilterBlock(s, IsRejected, a, count);
  }

  /** Counting a block: if exactly the positions in `[lo, hi)` satisfy `p`, the filter keeps `hi - lo` elements. */
  lemma {:induction false} FilterBlock<T>(s: seq<T>, p: T -> bool, lo: int, hi: int)
    requires 0 <= lo <= hi <= |s|
    requires forall i :: 0 <= i < |s| ==> (p(s[i]) <==> lo <= i < hi)
    ensures |Filter(s, p)| == hi - lo
  {
    if |s| > 0 {
      var lo', hi' := if lo > 0 then lo - 1 else 0, if hi > 0 then hi - 1 else 0;
      assert forall i :: 0 <= i < |s| - 1 ==> s[1..][i] == s[i + 1];
      FilterBlock(s[1..], p, lo', hi');
    }
  }

  /** The ids of the generated invitations are distinct, before and after sorting. */
  lemma GeneratedIdsDistinct(count: nat, daysAgo: seq<nat>, now: int)
    requires |daysAgo| == count
    ensures IdsDistinct(Unsorted(count, daysAgo, now))
    ensures IdsDistinct(GenerateMockSharedAccess(count, daysAgo, now))
  {
    var s := Unsorted(count, daysAgo, now);
    assert IdsDistinct(s);
    PermutationKeepsIdsDistinct(s, GenerateMockSharedAccess(count, daysAgo, now));
  }

  /** Reordering a list with distinct ids keeps them distinct. */
  lemma PermutationKeepsIdsDistinct(s: seq<SharedAccess>, r: seq<SharedAccess>)
    requires IdsDistinct(s) && multiset(r) == multiset(s)
    ensures IdsDistinct(r)
  {
    forall i, j | 0 <= i < j < |r|
      ensures r[i].id != r[j].id
    {
      if r[i].id == r[j].id {
        assert r[i] in multiset(s) && r[j] in multiset(s);
        var x := r[i];
        assert r[j] == x by {
          var a :| 0 <= a < |s| && s[a] == r[i];
          var b :| 0 <= b < |s| && s[b] == r[j];
          assert a == b;
        }
        TwoOccurrences(r, i, j);
        AtMostOnce(s, x);
        assert false;
      }
    }
  }

  lemma TwoOccurrences<T>(r: seq<T>, i: nat, j: nat)
    requires i < j < |r| && r[i] == r[j]
    ensures multiset(r)[r[i]] >= 2
  {
    assert r == r[..j] + [r[j]] + r[j + 1..];
    assert r[i] in multiset(r[..j]);
  }

  lemma {:induction false} AtMostOnce(s: seq<SharedAccess>, x: SharedAccess)
    requires IdsDistinct(s)
    ensures multiset(s)[x] <= 1
  {
    if |s| > 0 {
      var t := s[1..];
      assert IdsDistinct(t);
      AtMostOnce(t, x);
      assert s == [s[0]] + t;
      if s[0] == x {
        assert x !in t;
      }
    }
  }

  /** The shipped list: fifteen invitations, six pending, seven accepted and two rejected. */
  lemma MockSharedAccessQuotas(count: nat, daysAgo: seq<nat>, now: int)
    requires count == 15 && |daysAgo| == count
    ensures var s := Unsorted(count, daysAgo, now);
      |Filter(s, IsPending)| == 6 && |Filter(s, IsAccepted)| == 7 && |Filter(s, IsRejected)| == 2
  {
    assert (2 * count) / 5 == 6 && (9 * count) / 10 == 13;
    StatusQuotas(count, daysAgo, now);
  }
}
