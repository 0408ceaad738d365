/**
 * The supervisor's access-request inbox: professionals ask for access to a student's folder and
 * the supervisor approves or denies each request by id. The page splits the requests into the
 * pending ones and the processed ones.
 */
module InvitationsPage {
  import opened Wrappers
  import opened Seqs
  import InvitationsData

  datatype RequestStatus = Pending | Approved | Denied

  datatype AccessInvitation = AccessInvitation(
    id: string,
    professionalName: string,
    professionalEmail: string,
    professionalTitle: string,
    studentName: string,
    requestedAccess: InvitationsData.AccessLevel,
    requestDate: int,
    message: Option<string>,
    status: RequestStatus)

  /** `prev.map(inv => inv.id === id ? { ...inv, status } : inv)`. */
  function SetStatus(list: seq<AccessInvitation>, id: string, status: RequestStatus): (r: seq<AccessInvitation>)
    ensures |r| == |list|
    ensures forall i :: 0 <= i < |list| ==>
      (list[i].id == id ==> r[i] == list[i].(status := status))
      && (list[i].id != id ==> r[i] == list[i])
  {
    MapWhere(list, (a: AccessInvitation) => a.id == id, (a: AccessInvitation) => a.(status := status))
  }

  /** "Aprobar": every request with that id becomes approved, whatever it was; nothing else changes. */
  function Approve(list: seq<AccessInvitation>, id: string): (r: seq<AccessInvitation>)
    ensures |r| == |list|
    ensures forall i :: 0 <= i < |list| && list[i].id == id ==> r[i].status == Approved && r[i].(status := list[i].status) == list[i]
    ensures forall i :: 0 <= i < |list| && list[i].id != id ==> r[i] == list[i]
  {
    SetStatus(list, id, Approved)
  }

  /** "Denegar": as approving, with status denied. */
  function Deny(list: seq<AccessInvitation>, id: string): (r: seq<AccessInvitation>)
    ensures |r| == |list|
    ensures forall i :: 0 <= i < |list| && list[i].id == id ==> r[i].status == Denied && r[i].(status := list[i].status) == list[i]
    ensures forall i :: 0 <= i < |list| && list[i].id != id ==> r[i] == list[i]
  {
    SetStatus(list, id, Denied)
  }

  predicate IsPending(a: AccessInvitation) {
    a.status == Pending
  }

  predicate IsProcessed(a: AccessInvitation) {
    a.status != Pending
  }

  /** The "Solicitudes Pendientes" table. */
  function PendingInvitations(list: seq<AccessInvitation>): (r: seq<AccessInvitation>)
    ensures forall a :: a in r <==> a in list && a.status == Pending
    ensures IsSubsequence(r, list)
  {
    FilterIsSubsequence(list, IsPending);
    Filter(list, IsPending)
  }

  /** The "Historial" table. */
  function ProcessedInvitations(list: seq<AccessInvitation>): (r: seq<AccessInvitation>)
    ensures forall a :: a in r <==> a in list && a.status != Pending
    ensures IsSubsequence(r, list)
  {
    FilterIsSubsequence(list, IsProcessed);
    Filter(list, IsProcessed)
  }

  /** The two tables split the requests: together they hold each request exactly once. */
  lemma PendingAndProcessedPartition(list: seq<AccessInvitation>)
    ensures |PendingInvitations(list)| + |ProcessedInvitations(list)| == |list|
    ensures multiset(PendingInvitations(list)) + multiset(ProcessedInvitations(list)) == multiset(list)
  {
    FilterPartition(list, IsPending, IsProcessed);
  }

  /** The requests other than `id`, in order. */
  function OthersThan(list: seq<AccessInvitation>, id: string): (r: seq<AccessInvitation>)
    ensures forall a :: a in r <==> a in list && a.id != id
  {
    Filter(list, (a: AccessInvitation) => a.id != id)
  }

  /**
   * Answering a request (approve or deny) takes exactly that id out of the pending table: the
   * pending table afterwards is the old one without it, in the same order.
   */
  lemma {:induction false} AnsweringLeavesPending(list: seq<AccessInvitation>, id: string, status: RequestStatus)
    requires status != Pending
    ensures PendingInvitations(SetStatus(list, id, status)) == OthersThan(PendingInvitations(list), id)
  {
    var other := (a: AccessInvitation) => a.id != id;
    if |list| > 0 {
      var r := SetStatus(list, id, status);
      var x := list[0];
      assert r[1..] == SetStatus(list[1..], id, status);
      AnsweringLeavesPending(list[1..], id, status);
      var h := if IsPending(x) then [x] else [];
      assert Filter(list, IsPending) == h + Filter(list[1..], IsPending);
      FilterAppend(h, Filter(list[1..], IsPending), other);
      assert Filter(r, IsPending) == (if IsPending(r[0]) then [r[0]] else []) + Filter(r[1..], IsPending);
      if x.id == id {
        assert !IsPending(r[0]);
        assert Filter(h, other) == [];
      } else {
        assert r[0] == x;
        assert Filter(h, other) == h;
      }
    }
  }

  /** The actions the details dialog offers: approve and deny only for a pending request. */
  datatype DetailAction = ApproveRequest | DenyRequest

  function DetailActions(a: AccessInvitation): (r: set<DetailAction>)
    ensures ApproveRequest in r <==> a.status == Pending
    ensures DenyRequest in r <==> a.status == Pending
  {
    if a.status == Pending then {ApproveRequest, DenyRequest} else {}
  }

  /** A processed request can no longer be answered from the dialog. */
  lemma ProcessedHasNoActions(list: seq<AccessInvitation>, a: AccessInvitation)
    requires a in ProcessedInvitations(list)
    ensures DetailActions(a) == {}
  {
  }

  /** The status badge: colour and text. */
  function StatusBadge(status: RequestStatus): (b: (string, string))
    ensures b.0 in {"orange", "green", "red"}
    ensures b.1 in {"Pendiente", "Aprobado", "Denegado"}
    ensures b == ("orange", "Pendiente") <==> status == Pending
    ensures b == ("green", "Aprobado") <==> status == Approved
    ensures b == ("red", "Denegado") <==> status == Denied
  {
    match status
    case Pending => ("orange", "Pendiente")
    case Approved => ("green", "Aprobado")
    case Denied => ("red", "Denegado")
  }
}
