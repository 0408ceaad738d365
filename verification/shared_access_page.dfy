/**
 * The supervisor's shared-access page. It keeps its own list of invitations (`shown`), started
 * from the module-wide invitation registry (`registry`) that the share form validates against
 * and the professional's bell reads. Sharing writes to both lists; the other handlers, as
 * written, change only the page's list, so the registry goes stale. The corrected handlers
 * write to both and keep the two lists equal.
 */
module SharedAccessPage {
  import opened Wrappers
  import opened Seqs
  import opened Text
  import opened InvitationsData
  import opened ShareStudentModal
  import MainLayout

  datatype PageState = PageState(shown: seq<SharedAccess>, registry: seq<SharedAccess>)

  /** The page's list and the registry hold the same invitations in the same order. */
  predicate Synced(st: PageState) {
    st.shown == st.registry
  }

  /** `useState(mockSharedAccess)`: the page starts from the registry. */
  function Initial(registry: seq<SharedAccess>): (st: PageState)
    ensures Synced(st) && st.registry == registry
  {
    PageState(registry, registry)
  }

  /** `inv-${Date.now()}`: the id of an invitation created at `now` (milliseconds). */
  function FreshId(now: nat): (id: string)
    ensures |id| > 4 && id[..4] == "inv-" && ParseNat(id[4..]) == Some(now)
  {
    NatToStringRoundTrip(now);
    var id := "inv-" + NatToString(now);
    assert id[4..] == NatToString(now);
    id
  }

  // ----- sharing -----

  /** The invitation `handleShareSubmit` builds: pending, dated now, no professional details yet. */
  function NewInvitation(student: StudentRef, req: ShareRequest, supervisorId: string, now: nat): (a: SharedAccess)
    ensures a.id == FreshId(now) && a.sharedBy == supervisorId && a.sharedWith == req.email
    ensures a.studentId == student.id && a.studentName == student.name
    ensures a.professionalName.None? && a.professionalTitle.None?
    ensures a.sharedDate == now && a.accessLevel == req.accessLevel && a.status == Pending
    ensures a.message == req.message
  {
    SharedAccess(FreshId(now), supervisorId, req.email, student.id, student.name, None, None,
                 now, req.accessLevel, Pending, req.message)
  }

  /** Sharing with no student selected does nothing; otherwise the invitation heads both lists. */
  function ShareSubmit(st: PageState, student: Option<StudentRef>, req: ShareRequest, supervisorId: string, now: nat)
    : (r: PageState)
    ensures student.None? ==> r == st
    ensures student.Some? ==>
      var a := NewInvitation(student.value, req, supervisorId, now);
      r.shown == [a] + st.shown && r.registry == [a] + st.registry
    ensures Synced(st) ==> Synced(r)
  {
    match student
    case None => st
    case Some(s) =>
      var a := NewInvitation(s, req, supervisorId, now);
      PageState([a] + st.shown, [a] + st.registry)
  }

  // ----- removing by id -----

  /** `list.filter(acc => acc.id !== id)`. */
  function WithoutId(s: seq<SharedAccess>, id: string): (r: seq<SharedAccess>)
    ensures forall a :: a in r <==> a in s && a.id != id
    ensures IsSubsequence(r, s)
    ensures (forall a :: a in s ==> a.id != id) ==> r == s
  {
    var keep := (a: SharedAccess) => a.id != id;
    FilterIsSubsequence(s, keep);
    if forall i :: 0 <= i < |s| ==> s[i].id != id then
      FilterKeepsAll(s, keep);
      Filter(s, keep)
    else Filter(s, keep)
  }

  /** "Cancelar invitación" as written: only the page's list loses the invitation. */
  function CancelAsWritten(st: PageState, id: string): (r: PageState)
    ensures r.shown == WithoutId(st.shown, id) && r.registry == st.registry
  {
    st.(shown := WithoutId(st.shown, id))
  }

  /** "Cancelar invitación", corrected: the invitation leaves the registry too. */
  function Cancel(st: PageState, id: string): (r: PageState)
    ensures r.shown == WithoutId(st.shown, id) && r.registry == WithoutId(st.registry, id)
    ensures Synced(st) ==> Synced(r)
    ensures forall a :: a in r.registry ==> a.id != id
  {
    PageState(WithoutId(st.shown, id), WithoutId(st.registry, id))
  }

  /** "Revocar acceso" as written: without a selection nothing happens; otherwise only the page's list changes. */
  function ConfirmRevokeAsWritten(st: PageState, selected: Option<SharedAccess>): (r: PageState)
    ensures selected.None? ==> r == st
    ensures selected.Some? ==> r.shown == WithoutId(st.shown, selected.value.id) && r.registry == st.registry
  {
    match selected
    case None => st
    case Some(s) => CancelAsWritten(st, s.id)
  }

  /** "Revocar acceso", corrected. */
  function ConfirmRevoke(st: PageState, selected: Option<SharedAccess>): (r: PageState)
    ensures selected.None? ==> r == st
    ensures selected.Some? ==>
      r.shown == WithoutId(st.shown, selected.value.id) && r.registry == WithoutId(st.registry, selected.value.id)
    ensures Synced(st) ==> Synced(r)
  {
    match selected
    case None => st
    case Some(s) => Cancel(st, s.id)
  }

  // ----- resending -----

  /** The copy "Reenviar" creates: every field kept except a fresh id, today's date and status pending. */
  function Resent(access: SharedAccess, now: nat): (a: SharedAccess)
    ensures a.id == FreshId(now) && a.sharedDate == now && a.status == Pending
    ensures a.(id := access.id, sharedDate := access.sharedDate, status := access.status) == access
  {
    access.(id := FreshId(now), sharedDate := now, status := Pending)
  }

  /** "Reenviar invitación" as written: the copy heads the page's list only; the original stays. */
  function ResendAsWritten(st: PageState, access: SharedAccess, now: nat): (r: PageState)
    ensures r.shown == [Resent(access, now)] + st.shown && r.registry == st.registry
  {
    st.(shown := [Resent(access, now)] + st.shown)
  }

  /** "Reenviar invitación", corrected: the copy heads both lists. */
  function Resend(st: PageState, access: SharedAccess, now: nat): (r: PageState)
    ensures r.shown == [Resent(access, now)] + st.shown && r.registry == [Resent(access, now)] + st.registry
    ensures Synced(st) ==> Synced(r)
  {
    PageState([Resent(access, now)] + st.shown, [Resent(access, now)] + st.registry)
  }

  // ----- changing the access level -----

  /** `{ ...acc, accessLevel }` on every entry with that id. */
  function SetLevel(s: seq<SharedAccess>, id: string, level: AccessLevel): (r: seq<SharedAccess>)
    ensures |r| == |s|
    ensures forall i :: 0 <= i < |s| ==>
      (s[i].id == id ==> r[i] == s[i].(accessLevel := level))
      && (s[i].id != id ==> r[i] == s[i])
  {
    MapWhere(s, (a: SharedAccess) => a.id == id, (a: SharedAccess) => a.(accessLevel := level))
  }

  /**
   * "Guardar" as written: a no-op without a selected invitation or a chosen level; otherwise the
   * entries with the selected id get the new level in the page's list only.
   */
  function SaveAccessLevelAsWritten(st: PageState, selected: Option<SharedAccess>, level: Option<AccessLevel>)
    : (r: PageState)
    ensures selected.None? || level.None? ==> r == st
    ensures selected.Some? && level.Some? ==>
      r.shown == SetLevel(st.shown, selected.value.id, level.value) && r.registry == st.registry
  {
    if selected.None? || level.None? then st
    else st.(shown := SetLevel(st.shown, selected.value.id, level.value))
  }

  /**
   * "Guardar", corrected: a no-op without a selected invitation or a chosen level; otherwise only
   * the access level of the entries with the selected id changes, in both lists.
   */
  function SaveAccessLevel(st: PageState, selected: Option<SharedAccess>, level: Option<AccessLevel>): (r: PageState)
    ensures selected.None? || level.None? ==> r == st
    ensures selected.Some? && level.Some? ==>
      r.shown == SetLevel(st.shown, selected.value.id, level.value)
      && r.registry == SetLevel(st.registry, selected.value.id, level.value)
    ensures Synced(st) ==> Synced(r)
  {
    if selected.None? || level.None? then st
    else PageState(SetLevel(st.shown, selected.value.id, level.value), SetLevel(st.registry, selected.value.id, level.value))
  }

  /** Changing a level keeps every invitation's identity and status, so validation and the bell see no difference. */
  lemma {:induction false} SetLevelKeepsValidation(s: seq<SharedAccess>, id: string, level: AccessLevel, email: string, studentId: string)
    ensures ValidateEmail(email, studentId, SetLevel(s, id, level)) == ValidateEmail(email, studentId, s)
  {
    var r := SetLevel(s, id, level);
    assert forall i :: 0 <= i < |s| ==> (r[i].sharedWith == s[i].sharedWith && r[i].studentId == s[i].studentId
      && r[i].status == s[i].status);
    FindExistingAgrees(s, r, email, studentId);
  }

  /** Two lists that agree on who was invited to what, and with which status, validate alike. */
  lemma {:induction false} FindExistingAgrees(s: seq<SharedAccess>, r: seq<SharedAccess>, email: string, studentId: string)
    requires |r| == |s|
    requires forall i :: 0 <= i < |s| ==> r[i].sharedWith == s[i].sharedWith && r[i].studentId == s[i].studentId
    ensures FindExisting(r, email, studentId) == FindExisting(s, email, studentId)
  {
    if |s| > 0 {
      FindExistingAgrees(s[1..], r[1..], email, studentId);
    }
  }

  // ----- which actions a row offers -----

  datatype RowAction = ViewDetails | CancelInvitation | ResendInvitation

  /** The "Invitaciones Enviadas" row actions: details always, cancel for pending, resend for rejected. */
  function RowActions(a: SharedAccess): (r: set<RowAction>)
    ensures ViewDetails in r
    ensures CancelInvitation in r <==> a.status == Pending
    ensures ResendInvitation in r <==> a.status == Rejected
    ensures a.status == Accepted ==> r == {ViewDetails}
  {
    match a.status
    case Pending => {ViewDetails, CancelInvitation}
    case Rejected => {ViewDetails, ResendInvitation}
    case Accepted => {ViewDetails}
  }

  /** A row never offers both cancel and resend. */
  lemma CancelAndResendExclusive(a: SharedAccess)
    ensures !(CancelInvitation in RowActions(a) && ResendInvitation in RowActions(a))
  {
  }

  // ----- badges -----

  /** The status badge: colour and text. */
  function StatusBadge(status: Status): (b: (string, string))
    ensures b.0 in {"orange", "green", "red"}
    ensures b.1 in {"Pendiente", "Aceptada", "Rechazada"}
    ensures b == ("orange", "Pendiente") <==> status == Pending
    ensures b == ("green", "Aceptada") <==> status == Accepted
    ensures b == ("red", "Rechazada") <==> status == Rejected
  {
    match status
    case Pending => ("orange", "Pendiente")
    case Accepted => ("green", "Aceptada")
    case Rejected => ("red", "Rechazada")
  }

  /** Different statuses get different badges, so the table tells them apart. */
  lemma StatusBadgesDistinct(s1: Status, s2: Status)
    ensures s1 != s2 ==> StatusBadge(s1).0 != StatusBadge(s2).0 && StatusBadge(s1).1 != StatusBadge(s2).1
  {
  }

  // ----- active accesses grouped by student -----

  /** `sharedAccess.filter(acc => acc.status === 'accepted')`. */
  function ActiveAccess(shown: seq<SharedAccess>): (r: seq<SharedAccess>)
    ensures forall a :: a in r <==> a in shown && a.status == Accepted
    ensures IsSubsequence(r, shown)
  {
    FilterIsSubsequence(shown, IsAccepted);
    Filter(shown, IsAccepted)
  }

  datatype Group = Group(studentId: string, studentName: string, accesses: seq<SharedAccess>)

  /** The accesses of one student, in list order. */
  function OfStudent(s: seq<SharedAccess>, studentId: string): (r: seq<SharedAccess>)
    ensures forall a :: a in r <==> a in s && a.studentId == studentId
  {
    if |s| == 0 then []
    else (if s[0].studentId == studentId then [s[0]] else []) + OfStudent(s[1..], studentId)
  }

  lemma {:induction false} OfStudentSnoc(s: seq<SharedAccess>, x: SharedAccess, studentId: string)
    ensures OfStudent(s + [x], studentId) == OfStudent(s, studentId) + (if x.studentId == studentId then [x] else [])
  {
    var e := if x.studentId == studentId then [x] else [];
    if |s| == 0 {
      assert s + [x] == [x] && [x][1..] == [];
    } else {
      var t := s + [x];
      var h := if s[0].studentId == studentId then [s[0]] else [];
      assert t[0] == s[0] && t[1..] == s[1..] + [x];
      OfStudentSnoc(s[1..], x, studentId);
      calc {
        OfStudent(t, studentId);
        h + OfStudent(s[1..] + [x], studentId);
        h + (OfStudent(s[1..], studentId) + e);
        (h + OfStudent(s[1..], studentId)) + e;
        OfStudent(s, studentId) + e;
      }
    }
  }

  lemma {:induction false} OfStudentNone(s: seq<SharedAccess>, studentId: string)
    requires forall k :: 0 <= k < |s| ==> s[k].studentId != studentId
    ensures OfStudent(s, studentId) == []
  {
    if |s| > 0 {
      OfStudentNone(s[1..], studentId);
    }
  }

  /** The position of the group for `studentId`, if there is one. */
  function FindGroup(groups: seq<Group>, studentId: string): (r: Option<nat>)
    ensures r.None? <==> forall i :: 0 <= i < |groups| ==> groups[i].studentId != studentId
    ensures r.Some? ==> r.value < |groups| && groups[r.value].studentId == studentId
  {
    if |groups| == 0 then None
    else if groups[|groups| - 1].studentId == studentId then Some(|groups| - 1)
    else FindGroup(groups[..|groups| - 1], studentId)
  }

  /** One reduce step: append to the student's group, opening it (named after this access's student) if new. */
  function AddTo(groups: seq<Group>, access: SharedAccess): seq<Group> {
    match FindGroup(groups, access.studentId)
    case Some(i) => groups[i := groups[i].(accesses := groups[i].accesses + [access])]
    case None => groups + [Group(access.studentId, access.studentName, [access])]
  }

  /** One group holds exactly its student's accesses, in order, and is named after the first of them. */
  predicate GroupExact(g: Group, s: seq<SharedAccess>) {
    g.accesses == OfStudent(s, g.studentId)
    && |g.accesses| > 0
    && g.studentName == g.accesses[0].studentName
  }

  function GroupIds(groups: seq<Group>): (ids: seq<string>)
    ensures |ids| == |groups| && forall i :: 0 <= i < |groups| ==> ids[i] == groups[i].studentId
  {
    seq(|groups|, i requires 0 <= i < |groups| => groups[i].studentId)
  }

  /** A grouping of `s`: one group per student, each holding exactly that student's accesses in order. */
  predicate GroupsOf(groups: seq<Group>, s: seq<SharedAccess>) {
    Distinct(GroupIds(groups))
    && (forall i :: 0 <= i < |groups| ==> GroupExact(groups[i], s))
    && (forall k :: 0 <= k < |s| ==> s[k].studentId in GroupIds(groups))
  }

  /** `activeAccess.reduce(...)`: the accesses grouped by student, groups in order of first appearance. */
  function GroupedByStudent(active: seq<SharedAccess>): seq<Group> {
    if |active| == 0 then []
    else AddTo(GroupedByStudent(active[..|active| - 1]), active[|active| - 1])
  }

  /** The reduce yields a grouping: one group per student, each exactly that student's accesses. */
  lemma {:induction false} GroupedByStudentIsExact(active: seq<SharedAccess>)
    ensures GroupsOf(GroupedByStudent(active), active)
  {
    if |active| > 0 {
      var prefix := active[..|active| - 1];
      GroupedByStudentIsExact(prefix);
      AddToKeepsGroups(GroupedByStudent(prefix), prefix, active[|active| - 1], active);
    }
  }

  /** A group of another student is not affected by appending `x`. */
  lemma OtherGroupUnchanged(g: Group, s: seq<SharedAccess>, x: SharedAccess)
    requires GroupExact(g, s) && g.studentId != x.studentId
    ensures GroupExact(g, s + [x])
  {
    OfStudentSnoc(s, x, g.studentId);
  }

  /** The student's own group grows by `x`. */
  lemma OwnGroupGrows(g: Group, s: seq<SharedAccess>, x: SharedAccess)
    requires GroupExact(g, s) && g.studentId == x.studentId
    ensures GroupExact(g.(accesses := g.accesses + [x]), s + [x])
  {
    OfStudentSnoc(s, x, g.studentId);
  }

  /** A student with no group yet has no accesses so far, so the new group holds `x` alone. */
  lemma NewGroupStarts(groups: seq<Group>, s: seq<SharedAccess>, x: SharedAccess)
    requires GroupsOf(groups, s) && x.studentId !in GroupIds(groups)
    ensures GroupExact(Group(x.studentId, x.studentName, [x]), s + [x])
  {
    OfStudentSnoc(s, x, x.studentId);
    forall k | 0 <= k < |s|
      ensures s[k].studentId != x.studentId
    {
      assert s[k].studentId in GroupIds(groups);
    }
    OfStudentNone(s, x.studentId);
  }

  lemma AddToKeepsGroups(g: seq<Group>, s: seq<SharedAccess>, x: SharedAccess, t: seq<SharedAccess>)
    requires GroupsOf(g, s) && t == s + [x]
    ensures GroupsOf(AddTo(g, x), t)
  {
    match FindGroup(g, x.studentId)
    case Some(i) => AddToExisting(g, s, x, i);
    case None => AddToNew(g, s, x);
  }

  lemma AddToExisting(g: seq<Group>, s: seq<SharedAccess>, x: SharedAccess, i: nat)
    requires GroupsOf(g, s) && i < |g| && g[i].studentId == x.studentId
    ensures GroupsOf(g[i := g[i].(accesses := g[i].accesses + [x])], s + [x])
  {
    var t := s + [x];
    var r := g[i := g[i].(accesses := g[i].accesses + [x])];
    assert GroupIds(r) == GroupIds(g);
    forall j | 0 <= j < |r|
      ensures GroupExact(r[j], t)
    {
      if j == i {
        OwnGroupGrows(g[i], s, x);
      } else {
        assert GroupIds(g)[j] != GroupIds(g)[i];
        OtherGroupUnchanged(g[j], s, x);
      }
    }
    forall k | 0 <= k < |t|
      ensures t[k].studentId in GroupIds(r)
    {
      if k < |s| {
        assert t[k] == s[k];
      } else {
        assert GroupIds(r)[i] == t[k].studentId;
      }
    }
  }

  lemma AddToNew(g: seq<Group>, s: seq<SharedAccess>, x: SharedAccess)
    requires GroupsOf(g, s) && x.studentId !in GroupIds(g)
    ensures GroupsOf(g + [Group(x.studentId, x.studentName, [x])], s + [x])
  {
    var t := s + [x];
    var r := g + [Group(x.studentId, x.studentName, [x])];
    assert GroupIds(r) == GroupIds(g) + [x.studentId];
    forall j | 0 <= j < |r|
      ensures GroupExact(r[j], t)
    {
      if j == |g| {
        NewGroupStarts(g, s, x);
      } else {
        assert GroupIds(g)[j] != x.studentId;
        OtherGroupUnchanged(g[j], s, x);
      }
    }
    forall k | 0 <= k < |t|
      ensures t[k].studentId in GroupIds(r)
    {
      if k < |s| {
        assert t[k] == s[k];
      } else {
        assert GroupIds(r)[|g|] == t[k].studentId;
      }
    }
  }

  /** Every access of the grouping belongs to the list it came from, under its own student's group. */
  lemma GroupMembersBelong(s: seq<SharedAccess>, i: nat, a: SharedAccess)
    requires i < |GroupedByStudent(s)| && a in GroupedByStudent(s)[i].accesses
    ensures a in s && a.studentId == GroupedByStudent(s)[i].studentId
  {
    GroupedByStudentIsExact(s);
  }

  // ----- what the registry's readers see -----

  /** With the lists in step, the share form's verdict is the verdict the page's own list would give. */
  lemma SyncedValidationMatchesPage(st: PageState, email: string, studentId: string)
    requires Synced(st)
    ensures ValidateEmail(email, studentId, st.registry) == ValidateEmail(email, studentId, st.shown)
  {
  }

  /**
   * As written: share with a professional, then cancel that invitation. The page no longer shows
   * any invitation of that professional for that student, yet the share form still refuses a new
   * one as a duplicate pending invitation.
   */
  lemma CancelAsWrittenLeavesStaleInvitation(st: PageState, student: StudentRef, req: ShareRequest, supervisorId: string, now: nat)
    requires Synced(st)
    requires ValidateEmail(req.email, student.id, st.registry).None?
    ensures var after := CancelAsWritten(ShareSubmit(st, Some(student), req, supervisorId, now), FreshId(now));
      ValidateEmail(req.email, student.id, after.shown).None?
      && ValidateEmail(req.email, student.id, after.registry) == Some(DuplicatePending)
  {
    var a := NewInvitation(student, req, supervisorId, now);
    var shared := ShareSubmit(st, Some(student), req, supervisorId, now);
    var after := CancelAsWritten(shared, FreshId(now));
    ValidEmailIsNew(req.email, student.id, st.registry);
    assert SameInvitee(a, req.email, student.id);
    assert FindExisting(after.registry, req.email, student.id) == Some(0);
    forall i | 0 <= i < |after.shown|
      ensures !SameInvitee(after.shown[i], req.email, student.id)
    {
      assert after.shown[i] in shared.shown && after.shown[i].id != FreshId(now);
      assert after.shown[i] in st.shown;
    }
  }

  /**
   * Corrected: cancelling every invitation a professional has for a student frees the pair, so
   * the share form accepts a well-formed e-mail for it again.
   */
  lemma CancelFreesInvitee(st: PageState, id: string, email: string, studentId: string)
    requires Synced(st)
    requires forall a :: a in st.registry && SameInvitee(a, email, studentId) ==> a.id == id
    requires !IsBlank(email) && MatchesEmailPattern(email)
    ensures ValidateEmail(email, studentId, Cancel(st, id).registry).None?
  {
    var r := Cancel(st, id).registry;
    forall i | 0 <= i < |r|
      ensures !SameInvitee(r[i], email, studentId)
    {
      assert r[i] in st.registry && r[i].id != id;
    }
  }

  /**
   * As written: revoking a professional's only access to a student removes it from the page, but
   * the share form still answers that the professional already has access.
   */
  lemma RevokeAsWrittenLeavesStaleAccess(st: PageState, selected: SharedAccess)
    requires Synced(st)
    requires selected in st.shown && selected.status == Accepted
    requires forall a :: a in st.shown && SameInvitee(a, selected.sharedWith, selected.studentId) ==> a == selected
    requires !IsBlank(selected.sharedWith) && MatchesEmailPattern(selected.sharedWith)
    ensures var after := ConfirmRevokeAsWritten(st, Some(selected));
      ValidateEmail(selected.sharedWith, selected.studentId, after.shown).None?
      && ValidateEmail(selected.sharedWith, selected.studentId, after.registry) == Some(AlreadyShared)
  {
    var after := ConfirmRevokeAsWritten(st, Some(selected));
    assert SameInvitee(selected, selected.sharedWith, selected.studentId);
    var i := FindExisting(st.registry, selected.sharedWith, selected.studentId);
    assert i.Some? by {
      var k :| 0 <= k < |st.registry| && st.registry[k] == selected;
    }
    forall k | 0 <= k < |after.shown|
      ensures !SameInvitee(after.shown[k], selected.sharedWith, selected.studentId)
    {
      assert after.shown[k] in st.shown && after.shown[k].id != selected.id;
    }
  }

  /** Corrected: after revoking, the professional's only access to the student is gone from the registry too. */
  lemma RevokeFreesInvitee(st: PageState, selected: SharedAccess)
    requires Synced(st)
    requires forall a :: a in st.registry && SameInvitee(a, selected.sharedWith, selected.studentId) ==> a.id == selected.id
    requires !IsBlank(selected.sharedWith) && MatchesEmailPattern(selected.sharedWith)
    ensures ValidateEmail(selected.sharedWith, selected.studentId, ConfirmRevoke(st, Some(selected)).registry).None?
  {
    CancelFreesInvitee(st, selected.id, selected.sharedWith, selected.studentId);
  }

  /**
   * As written: resending a rejected invitation to the current professional shows a new pending
   * invitation on the page, but the professional's bell, which reads the registry, never lists it.
   */
  lemma ResendAsWrittenNeverReachesBell(st: PageState, access: SharedAccess, now: nat)
    requires Synced(st)
    requires access.sharedWith == MainLayout.CurrentProfessionalEmail
    requires forall a :: a in st.registry ==> a.id != FreshId(now)
    ensures var after := ResendAsWritten(st, access, now);
      Resent(access, now) in after.shown && Resent(access, now).status == Pending
      && Resent(access, now) !in MainLayout.RefreshInvitations(MainLayout.Therapist, after.registry)
  {
  }

  /** Corrected: the resent invitation reaches the professional's bell. */
  lemma ResendReachesBell(st: PageState, access: SharedAccess, now: nat)
    requires access.sharedWith == MainLayout.CurrentProfessionalEmail
    ensures Resent(access, now) in MainLayout.RefreshInvitations(MainLayout.Therapist, Resend(st, access, now).registry)
  {
    var r := Resend(st, access, now).registry;
    assert r[0] == Resent(access, now);
    assert MainLayout.IsMinePending(r[0]);
  }

  /**
   * As written, after a pending invitation to the current professional gets a new level, the page
   * shows only the new level while the professional's bell still lists the invitation at the old one.
   */
  lemma SaveLevelAsWrittenLeavesBellStale(st: PageState, selected: SharedAccess, level: AccessLevel)
    requires Synced(st) && selected in st.registry
    requires MainLayout.IsMinePending(selected) && level != selected.accessLevel
    ensures var after := SaveAccessLevelAsWritten(st, Some(selected), Some(level));
      selected.(accessLevel := level) in after.shown
      && (forall a :: a in after.shown && a.id == selected.id ==> a.accessLevel == level)
      && selected in MainLayout.RefreshInvitations(MainLayout.Therapist, after.registry)
  {
    var after := SaveAccessLevelAsWritten(st, Some(selected), Some(level));
    var i :| 0 <= i < |st.shown| && st.shown[i] == selected;
    assert after.shown[i] == selected.(accessLevel := level);
  }

  /**
   * Corrected, the bell lists the invitation at its new level, and every bell entry with its id
   * shows that level.
   */
  lemma SaveLevelReachesBell(st: PageState, selected: SharedAccess, level: AccessLevel)
    requires selected in st.registry && MainLayout.IsMinePending(selected)
    ensures var bell := MainLayout.RefreshInvitations(MainLayout.Therapist,
                                                      SaveAccessLevel(st, Some(selected), Some(level)).registry);
      selected.(accessLevel := level) in bell
      && (forall a :: a in bell && a.id == selected.id ==> a.accessLevel == level)
  {
    var r := SaveAccessLevel(st, Some(selected), Some(level)).registry;
    var i :| 0 <= i < |st.registry| && st.registry[i] == selected;
    assert r[i] == selected.(accessLevel := level);
    assert MainLayout.IsMinePending(r[i]);
  }

  /** Every corrected handler keeps the page's list and the registry in step. */
  lemma HandlersKeepSynced(st: PageState, student: Option<StudentRef>, req: ShareRequest, supervisorId: string,
                           now: nat, id: string, selected: Option<SharedAccess>, access: SharedAccess,
                           level: Option<AccessLevel>)
    requires Synced(st)
    ensures Synced(ShareSubmit(st, student, req, supervisorId, now))
    ensures Synced(Cancel(st, id)) && Synced(ConfirmRevoke(st, selected))
    ensures Synced(Resend(st, access, now)) && Synced(SaveAccessLevel(st, selected, level))
  {
  }
}
