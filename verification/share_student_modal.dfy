/**
 * The form that shares a student's folder with a professional: the e-mail is required, must match
 * `^[^\s@]+@[^\s@]+\.[^\s@]+$`, and must not already have an invitation for this student (pending,
 * accepted or rejected); an access level is required. Submitting validates both fields, then hands
 * the share to the caller and clears the form.
 */
module ShareStudentModal {
  import opened Wrappers
  import opened Text
  import opened InvitationsData

  // ----- the e-mail pattern -----

  /** A character of the class `[^\s@]`. */
  predicate Plain(c: char) {
    c != '@' && !IsSpace(c)
  }

  predicate AllPlain(t: string) {
    forall i :: 0 <= i < |t| ==> Plain(t[i])
  }

  /** `t` has a `.` at a position `m >= from` with at least one character after it. */
  predicate DotInside(t: string, from: nat) {
    exists m :: from <= m && m + 1 < |t| && t[m] == '.'
  }

  /** `[^\s@]+\.[^\s@]+`: plain characters with a dot that has at least one character on each side. */
  predicate DomainOk(d: string) {
    AllPlain(d) && DotInside(d, 1)
  }

  /** `t` splits at an `@` in position `k` into a plain prefix and a valid domain. */
  predicate AtSplit(t: string, k: int) {
    0 <= k < |t| && t[k] == '@' && AllPlain(t[..k]) && DomainOk(t[k + 1..])
  }

  /** The language of `^[^\s@]+@[^\s@]+\.[^\s@]+$`: a non-empty local part, `@`, and a valid domain. */
  predicate MatchesEmailPattern(s: string) {
    exists k :: 0 < k < |s| && AtSplit(s, k)
  }

  /** The states of a left-to-right scanner for the pattern. */
  datatype ScanState = Start | Local | AfterAt | Domain | DotPending | Accept | Fail

  function Step(st: ScanState, c: char): ScanState {
    if c == '@' then (if st == Local then AfterAt else Fail)
    else if IsSpace(c) then Fail
    else match st
      case Start => Local
      case Local => Local
      case AfterAt => Domain
      case Domain => if c == '.' then DotPending else Domain
      case DotPending => Accept
      case Accept => Accept
      case Fail => Fail
  }

  function Run(st: ScanState, s: string): ScanState
    decreases |s|
  {
    if |s| == 0 then st else Run(Step(st, s[0]), s[1..])
  }

  /** `emailRegex.test(s)`, by scanning. */
  function CheckEmail(s: string): bool {
    Run(Start, s) == Accept
  }

  lemma {:induction false} RunFail(t: string)
    ensures Run(Fail, t) == Fail
    decreases |t|
  {
    if |t| > 0 {
      RunFail(t[1..]);
    }
  }

  lemma ShiftPlain(t: string)
    requires |t| > 0
    ensures AllPlain(t) <==> Plain(t[0]) && AllPlain(t[1..])
  {
    assert forall i :: 1 <= i < |t| ==> t[i] == t[1..][i - 1];
  }

  lemma ShiftDot(t: string, from: nat)
    requires |t| > 0
    ensures DotInside(t, from + 1) <==> DotInside(t[1..], from)
  {
    var u := t[1..];
    if DotInside(t, from + 1) {
      var m :| from + 1 <= m && m + 1 < |t| && t[m] == '.';
      assert u[m - 1] == '.';
    }
    if DotInside(u, from) {
      var m :| from <= m && m + 1 < |u| && u[m] == '.';
      assert t[m + 1] == '.';
    }
  }

  lemma {:induction false} RunAccept(t: string)
    ensures Run(Accept, t) == Accept <==> AllPlain(t)
    decreases |t|
  {
    if |t| > 0 {
      ShiftPlain(t);
      if Plain(t[0]) {
        RunAccept(t[1..]);
      } else {
        RunFail(t[1..]);
      }
    }
  }

  lemma RunDotPending(t: string)
    ensures Run(DotPending, t) == Accept <==> |t| > 0 && AllPlain(t)
  {
    if |t| > 0 {
      ShiftPlain(t);
      if Plain(t[0]) {
        RunAccept(t[1..]);
      } else {
        RunFail(t[1..]);
      }
    }
  }

  lemma {:induction false} RunDomain(t: string)
    ensures Run(Domain, t) == Accept <==> AllPlain(t) && DotInside(t, 0)
    decreases |t|
  {
    if |t| > 0 {
      var u := t[1..];
      ShiftPlain(t);
      if !Plain(t[0]) {
        RunFail(u);
      } else if t[0] == '.' {
        RunDotPending(u);
        if DotInside(t, 0) {
          var m :| 0 <= m && m + 1 < |t| && t[m] == '.';
        }
      } else {
        RunDomain(u);
        ShiftDot(t, 0);
        if DotInside(t, 0) {
          var m :| 0 <= m && m + 1 < |t| && t[m] == '.';
          assert m != 0;
        }
      }
    }
  }

  lemma RunAfterAt(t: string)
    ensures Run(AfterAt, t) == Accept <==> DomainOk(t)
  {
    if |t| > 0 {
      var u := t[1..];
      ShiftPlain(t);
      if !Plain(t[0]) {
        RunFail(u);
      } else {
        RunDomain(u);
        ShiftDot(t, 0);
      }
    }
  }

  /** Dropping a plain first character moves every split one place left. */
  lemma ShiftSplit(t: string, k: int)
    requires |t| > 0 && Plain(t[0]) && k >= 1
    ensures AtSplit(t, k) <==> AtSplit(t[1..], k - 1)
  {
    var u := t[1..];
    if k < |t| {
      assert u[..k - 1] == t[1..k] && u[k..] == t[k + 1..];
      ShiftPlain(t[..k]);
      assert t[..k][1..] == t[1..k];
    }
  }

  /** A split after position 0 needs a plain first character. */
  lemma SplitNeedsPlainStart(t: string, k: int)
    requires AtSplit(t, k) && k > 0
    ensures Plain(t[0])
  {
    assert t[..k][0] == t[0];
  }

  lemma {:induction false} RunLocal(t: string)
    ensures Run(Local, t) == Accept <==> exists k :: AtSplit(t, k)
    decreases |t|
  {
    if |t| > 0 {
      var u := t[1..];
      if t[0] == '@' {
        RunAfterAt(u);
        assert t[..0] == [] && t[1..] == u;
        assert AtSplit(t, 0) <==> DomainOk(u);
        forall k | AtSplit(t, k)
          ensures k == 0
        {
          if k > 0 {
            SplitNeedsPlainStart(t, k);
          }
        }
      } else if IsSpace(t[0]) {
        RunFail(u);
        forall k | AtSplit(t, k)
          ensures false
        {
          SplitNeedsPlainStart(t, k);
        }
      } else {
        RunLocal(u);
        forall k | AtSplit(t, k)
          ensures AtSplit(u, k - 1)
        {
          ShiftSplit(t, k);
        }
        forall k | AtSplit(u, k)
          ensures AtSplit(t, k + 1)
        {
          ShiftSplit(t, k + 1);
        }
      }
    }
  }

  /** The scanner accepts exactly the strings the pattern describes. */
  lemma EmailCheckMatchesPattern(s: string)
    ensures CheckEmail(s) <==> MatchesEmailPattern(s)
  {
    if |s| > 0 {
      var u := s[1..];
      if Plain(s[0]) {
        RunLocal(u);
        forall k | 0 < k && AtSplit(s, k)
          ensures AtSplit(u, k - 1)
        {
          ShiftSplit(s, k);
        }
        forall k | AtSplit(u, k)
          ensures AtSplit(s, k + 1)
        {
          ShiftSplit(s, k + 1);
        }
      } else {
        RunFail(u);
        forall k | 0 < k && AtSplit(s, k)
          ensures false
        {
          SplitNeedsPlainStart(s, k);
        }
      }
    }
  }

  lemma AcceptedEmailExample()
    ensures CheckEmail("ana@mail.com")
  {
    var good := "ana@mail.com";
    assert good[..3] == "ana" && good[4..] == "mail.com";
    assert AllPlain("ana") && AllPlain("mail.com");
    assert "mail.com"[4] == '.';
    assert AtSplit(good, 3);
    EmailCheckMatchesPattern(good);
  }

  lemma RejectedEmailExample()
    ensures !CheckEmail("ana@mail")
  {
    var bad := "ana@mail";
    forall k | 0 < k < |bad| && AtSplit(bad, k)
      ensures false
    {
    }
    EmailCheckMatchesPattern(bad);
  }

  // ----- validation -----

  datatype EmailError = Required | BadFormat | DuplicatePending | AlreadyShared | PreviouslyRejected

  /** The message shown under the field for each error. */
  function EmailErrorText(e: EmailError): string {
    match e
    case Required => "El profesional es requerido"
    case BadFormat => "El formato del email no es válido"
    case DuplicatePending => "Ya existe una invitación pendiente para este profesional"
    case AlreadyShared => "Este profesional ya tiene acceso a esta carpeta"
    case PreviouslyRejected => "Este profesional rechazó previamente. Use el botón \"Reenviar\" en la tabla de invitaciones."
  }

  /** The same professional (e-mail compared case-insensitively) invited to the same student. */
  predicate SameInvitee(a: SharedAccess, email: string, studentId: string) {
    LowerStr(a.sharedWith) == LowerStr(email) && a.studentId == studentId
  }

  /** `list.find(...)`: the position of the first invitation of this professional to this student. */
  function FindExisting(list: seq<SharedAccess>, email: string, studentId: string): (r: Option<nat>)
    ensures r.None? <==> forall i :: 0 <= i < |list| ==> !SameInvitee(list[i], email, studentId)
    ensures r.Some? ==> (r.value < |list| && SameInvitee(list[r.value], email, studentId)
      && forall j :: 0 <= j < r.value ==> !SameInvitee(list[j], email, studentId))
  {
    if |list| == 0 then None
    else if SameInvitee(list[0], email, studentId) then Some(0)
    else
      assert forall i :: 1 <= i < |list| ==> list[i] == list[1..][i - 1];
      match FindExisting(list[1..], email, studentId)
      case None => None
      case Some(i) => Some(i + 1)
  }

  /** The e-mail check against the invitations `list` (None: valid). */
  function ValidateEmail(email: string, studentId: string, list: seq<SharedAccess>): (e: Option<EmailError>)
    ensures e == Some(Required) <==> IsBlank(email)
    ensures e == Some(BadFormat) <==> !IsBlank(email) && !MatchesEmailPattern(email)
    ensures !IsBlank(email) && MatchesEmailPattern(email) ==>
      match FindExisting(list, email, studentId)
      case None => e.None?
      case Some(i) =>
        var a := list[i];
        (a.status == Pending ==> e == Some(DuplicatePending))
        && (a.status == Accepted ==> e == Some(AlreadyShared))
        && (a.status == Rejected ==> e == Some(PreviouslyRejected))
  {
    EmailCheckMatchesPattern(email);
    if IsBlank(email) then Some(Required)
    else if !CheckEmail(email) then Some(BadFormat)
    else match FindExisting(list, email, studentId)
      case None => None
      case Some(i) =>
        match list[i].status
        case Pending => Some(DuplicatePending)
        case Accepted => Some(AlreadyShared)
        case Rejected => Some(PreviouslyRejected)
  }

  /** An accepted e-mail is well formed and new for this student in `list`. */
  lemma ValidEmailIsNew(email: string, studentId: string, list: seq<SharedAccess>)
    requires ValidateEmail(email, studentId, list).None?
    ensures MatchesEmailPattern(email)
    ensures forall i :: 0 <= i < |list| ==> !SameInvitee(list[i], email, studentId)
  {
  }

  // ----- the form -----

  datatype Form = Form(email: string, accessLevel: Option<AccessLevel>, message: string,
                       emailError: Option<EmailError>, accessLevelError: bool)

  const EmptyForm: Form := Form("", None, "", None, false)

  /** What the caller receives: `message || undefined`, so an empty message is absent. */
  datatype ShareRequest = ShareRequest(email: string, accessLevel: AccessLevel, message: Option<string>)

  /** Picking a professional clears any e-mail error. */
  function ChangeEmail(f: Form, value: Option<string>): (r: Form)
    ensures r.email == value.GetOr("") && r.emailError.None?
    ensures r.accessLevel == f.accessLevel && r.message == f.message && r.accessLevelError == f.accessLevelError
  {
    f.(email := value.GetOr(""), emailError := None)
  }

  /** Picking an access level (or clearing the select) clears the access-level error. */
  function ChangeLevel(f: Form, value: Option<AccessLevel>): (r: Form)
    ensures r.accessLevel == value && !r.accessLevelError
    ensures r.email == f.email && r.message == f.message && r.emailError == f.emailError
  {
    f.(accessLevel := value, accessLevelError := false)
  }

  /** Once a level is picked, only the e-mail check decides whether the share goes out. */
  lemma PickedLevelLeavesEmailToDecide(f: Form, level: AccessLevel, studentId: string, list: seq<SharedAccess>)
    ensures var r := Submit(ChangeLevel(f, Some(level)), studentId, list);
      (r.1.Some? <==> ValidateEmail(f.email, studentId, list).None?)
      && (r.1.Some? ==> r.1.value.accessLevel == level)
      && (r.1.None? ==> !r.0.accessLevelError)
  {
  }

  /** "Cancelar" and every close: the form returns to empty. */
  function Close(f: Form): (r: Form)
    ensures r.email == "" && r.accessLevel.None? && r.message == "" && r.emailError.None? && !r.accessLevelError
  {
    EmptyForm
  }

  /**
   * "Enviar Invitación": both fields are validated (no short-circuit, so both errors show); when
   * both pass the share goes to the caller and the form is cleared, otherwise the form keeps its
   * values and shows the errors.
   */
  function Submit(f: Form, studentId: string, list: seq<SharedAccess>): (r: (Form, Option<ShareRequest>))
    ensures r.1.Some? <==> ValidateEmail(f.email, studentId, list).None? && f.accessLevel.Some?
    ensures r.1.Some? ==>
      r.1.value.email == f.email && r.1.value.accessLevel == f.accessLevel.value
      && (r.1.value.message.None? <==> f.message == "")
      && (r.1.value.message.Some? ==> r.1.value.message.value == f.message)
      && r.0 == EmptyForm
    ensures r.1.None? ==>
      r.0.email == f.email && r.0.accessLevel == f.accessLevel && r.0.message == f.message
      && r.0.emailError == ValidateEmail(f.email, studentId, list)
      && (r.0.accessLevelError <==> f.accessLevel.None?)
  {
    var emailError := ValidateEmail(f.email, studentId, list);
    if emailError.None? && f.accessLevel.Some? then
      (Close(f), Some(ShareRequest(f.email, f.accessLevel.value, if f.message == "" then None else Some(f.message))))
    else
      (f.(emailError := emailError, accessLevelError := f.accessLevel.None?), None)
  }

  /** A successful submission never re-invites someone already in `list` for this student. */
  lemma SubmittedShareIsNew(f: Form, studentId: string, list: seq<SharedAccess>)
    requires Submit(f, studentId, list).1.Some?
    ensures var req := Submit(f, studentId, list).1.value;
      MatchesEmailPattern(req.email)
      && forall i :: 0 <= i < |list| ==> !SameInvitee(list[i], req.email, studentId)
  {
    ValidEmailIsNew(f.email, studentId, list);
  }
}
