/**
 * The application shell's invitation bell and navigation: a therapist sees the pending invitations
 * addressed to the current professional and can accept or reject them, which rewrites the status
 * of the first invitation with that id in the shared invitation registry; the navigation hides the
 * restricted entries from therapists only.
 */
module MainLayout {
  import opened Wrappers
  import opened Seqs
  import opened InvitationsData

  datatype Role = Admin | Supervisor | Therapist | Family

  /** The mock identity of the professional using the app. */
  const CurrentProfessionalEmail: string := "maria.gonzalez@abaprototipo.com"

  predicate IsMinePending(a: SharedAccess) {
    a.sharedWith == CurrentProfessionalEmail && a.status == Pending
  }

  /** `refreshInvitations`: the bell's list. */
  function RefreshInvitations(role: Role, registry: seq<SharedAccess>): (pending: seq<SharedAccess>)
    ensures role != Therapist ==> pending == []
    ensures role == Therapist ==>
      (forall a :: a in pending <==> a in registry && IsMinePending(a))
      && IsSubsequence(pending, registry)
  {
    if role == Therapist then
      FilterIsSubsequence(registry, IsMinePending);
      Filter(registry, IsMinePending)
    else []
  }

  /** `registry.find(i => i.id === id)`: the position of the first invitation with that id. */
  function FindById(registry: seq<SharedAccess>, id: string): (r: Option<nat>)
    ensures r.None? <==> forall i :: 0 <= i < |registry| ==> registry[i].id != id
    ensures r.Some? ==> r.value < |registry| && registry[r.value].id == id
    ensures r.Some? ==> forall j :: 0 <= j < r.value ==> registry[j].id != id
  {
    if |registry| == 0 then None
    else if registry[0].id == id then Some(0)
    else
      assert forall i :: 1 <= i < |registry| ==> registry[i] == registry[1..][i - 1];
      match FindById(registry[1..], id)
      case None => None
      case Some(i) => Some(i + 1)
  }

  /** The in-place `inv.status = status` on the first invitation with that id; an unknown id changes nothing. */
  function SetStatus(registry: seq<SharedAccess>, id: string, status: Status): (r: seq<SharedAccess>)
    ensures |r| == |registry|
    ensures FindById(registry, id).None? ==> r == registry
    ensures FindById(registry, id).Some? ==>
      var i := FindById(registry, id).value;
      r[i] == registry[i].(status := status)
      && forall j :: 0 <= j < |registry| && j != i ==> r[j] == registry[j]
  {
    match FindById(registry, id)
    case None => registry
    case Some(i) => registry[i := registry[i].(status := status)]
  }

  /**
   * "Aceptar": the registry after the change and the bell. An unknown id is ignored and the bell
   * is not refreshed; otherwise the bell is recomputed from the changed registry.
   */
  function AcceptInvitation(role: Role, registry: seq<SharedAccess>, bell: seq<SharedAccess>, id: string)
    : (r: (seq<SharedAccess>, seq<SharedAccess>))
    ensures FindById(registry, id).None? ==> r == (registry, bell)
    ensures FindById(registry, id).Some? ==>
      r.0 == SetStatus(registry, id, Accepted) && r.1 == RefreshInvitations(role, r.0)
  {
    Answer(role, registry, bell, id, Accepted)
  }

  /** "Rechazar": as accepting, with status `rejected`. */
  function RejectInvitation(role: Role, registry: seq<SharedAccess>, bell: seq<SharedAccess>, id: string)
    : (r: (seq<SharedAccess>, seq<SharedAccess>))
    ensures FindById(registry, id).None? ==> r == (registry, bell)
    ensures FindById(registry, id).Some? ==>
      r.0 == SetStatus(registry, id, Rejected) && r.1 == RefreshInvitations(role, r.0)
  {
    Answer(role, registry, bell, id, Rejected)
  }

  function Answer(role: Role, registry: seq<SharedAccess>, bell: seq<SharedAccess>, id: string, status: Status)
    : (seq<SharedAccess>, seq<SharedAccess>)
  {
    if FindById(registry, id).None? then (registry, bell)
    else
      var updated := SetStatus(registry, id, status);
      (updated, RefreshInvitations(role, updated))
  }

  /**
   * Once answered, an invitation leaves the bell: with distinct ids, nothing in the refreshed bell
   * carries the answered id, and everything else pending for the professional is still there.
   */
  lemma AnsweredInvitationLeavesBell(registry: seq<SharedAccess>, bell: seq<SharedAccess>, id: string, accept: bool)
    requires IdsDistinct(registry)
    requires FindById(registry, id).Some?
    ensures var r := if accept then AcceptInvitation(Therapist, registry, bell, id)
                     else RejectInvitation(Therapist, registry, bell, id);
      (forall a :: a in r.1 ==> a.id != id)
      && (forall a :: a in registry && IsMinePending(a) && a.id != id ==> a in r.1)
  {
    var status := if accept then Accepted else Rejected;
    var updated := SetStatus(registry, id, status);
    var bell' := RefreshInvitations(Therapist, updated);
    var i := FindById(registry, id).value;
    forall a | a in bell'
      ensures a.id != id
    {
      var k :| 0 <= k < |updated| && updated[k] == a;
      if k != i {
        assert a == registry[k];
      }
    }
    forall a | a in registry && IsMinePending(a) && a.id != id
      ensures a in bell'
    {
      var k :| 0 <= k < |registry| && registry[k] == a;
      assert updated[k] == a;
    }
  }

  /** The five destinations of the side navigation. */
  datatype Route = Dashboard | Team | StudentFolders | SharedAccessRoute | Chat

  function RoutePath(r: Route): (path: string)
    ensures r == SharedAccessRoute <==> path == "/shared-access"
  {
    match r
    case Dashboard => "/dashboard"
    case Team => "/team"
    case StudentFolders => "/students"
    case SharedAccessRoute => "/shared-access"
    case Chat => "/chat"
  }

  function RouteCaption(r: Route): string {
    match r
    case Dashboard => "Dashboard"
    case Team => "Mi Equipo"
    case StudentFolders => "Carpetas de Estudiantes"
    case SharedAccessRoute => "Accesos Compartidos"
    case Chat => "Chat"
  }

  datatype NavItem = NavItem(route: Route, restricted: bool)

  const NavItems: seq<NavItem> := [
    NavItem(Dashboard, false), NavItem(Team, false), NavItem(StudentFolders, false),
    NavItem(SharedAccessRoute, true), NavItem(Chat, false)]

  predicate Unrestricted(item: NavItem) {
    !item.restricted
  }

  /** `navItems.filter(item => !isTherapist || !item.restricted)`. */
  function FilteredNavItems(role: Role): (items: seq<NavItem>)
    ensures role != Therapist ==> items == NavItems
    ensures role == Therapist ==> items == Filter(NavItems, Unrestricted)
  {
    if role == Therapist then Filter(NavItems, Unrestricted) else NavItems
  }

  /** A therapist loses exactly the shared-access entry; the other items keep their order. */
  lemma TherapistNavigation()
    ensures FilteredNavItems(Therapist) == [NavItems[0], NavItems[1], NavItems[2], NavItems[4]]
    ensures forall item :: item in FilteredNavItems(Therapist) <==>
      item in NavItems && RoutePath(item.route) != "/shared-access"
    ensures FilteredNavItems(Admin) == NavItems
  {
  }

  /** The role badge's text. */
  function RoleLabel(role: Role): (s: string)
    ensures s in {"Admin", "Supervisor", "Aplicador", "Familia"}
    ensures s == "Admin" <==> role == Admin
    ensures s == "Supervisor" <==> role == Supervisor
    ensures s == "Aplicador" <==> role == Therapist
    ensures s == "Familia" <==> role == Family
  {
    match role
    case Admin => "Admin"
    case Supervisor => "Supervisor"
    case Therapist => "Aplicador"
    case Family => "Familia"
  }

  /** `getRoleColor`: the avatar and badge colour. */
  function RoleColor(role: Role): (c: string)
    ensures c in {"blue", "indigo", "green", "violet"}
    ensures c == "blue" <==> role == Admin
    ensures c == "indigo" <==> role == Supervisor
    ensures c == "green" <==> role == Therapist
    ensures c == "violet" <==> role == Family
  {
    match role
    case Admin => "blue"
    case Supervisor => "indigo"
    case Therapist => "green"
    case Family => "violet"
  }

  /** Each role gets its own badge text and its own colour, so the header tells the roles apart. */
  lemma RoleBadgesDistinct(a: Role, b: Role)
    requires a != b
    ensures RoleLabel(a) != RoleLabel(b)
    ensures RoleColor(a) != RoleColor(b)
  {
  }
}
