/**
 * The profile editor: a form seeded from a staff profile, its three validators, and the avatar
 * picker that keeps the preview and the form's avatar field in step.
 */
module ProfileSettings {
  import opened Wrappers
  import opened Text
  import opened MockData

  datatype ProfileValues = ProfileValues(
    name: string, profession: string, title: string, description: string, email: string, phone: string, avatar: string)

  /** The form starts from the profile; a missing phone becomes the empty string. */
  function InitialValues(p: UserProfile): (v: ProfileValues)
    ensures v.name == p.name && v.profession == p.profession && v.title == p.title
    ensures v.description == p.description && v.email == p.email && v.avatar == p.avatar
    ensures p.phone.Some? ==> v.phone == p.phone.value
    ensures p.phone.None? ==> v.phone == ""
  {
    ProfileValues(p.name, p.profession, p.title, p.description, p.email, p.phone.GetOr(""), p.avatar)
  }

  /**
   * The shape `^\S+@\S+$`: one or more non-whitespace characters, an `@`, one or more
   * non-whitespace characters. Either part may itself contain `@`.
   */
  predicate EmailShape(s: string) {
    (forall i :: 0 <= i < |s| ==> !IsSpace(s[i]))
    && exists k :: 0 < k < |s| - 1 && s[k] == '@'
  }

  /** A scan for the shape: no whitespace anywhere and an `@` strictly inside. */
  function CheckEmail(s: string): (ok: bool)
    decreases |s|
  {
    if |s| == 0 then true
    else !IsSpace(s[0]) && CheckEmail(s[1..])
  }

  function HasInnerAt(s: string): (ok: bool)
    ensures ok <==> exists k :: 0 < k < |s| - 1 && s[k] == '@'
  {
    if |s| >= 3 && '@' in s[1..|s| - 1] then
      var j :| 0 <= j < |s| - 2 && s[1..|s| - 1][j] == '@';
      assert s[j + 1] == '@';
      true
    else
      assert forall k :: 0 < k < |s| - 1 ==> s[k] == s[1..|s| - 1][k - 1];
      false
  }

  lemma {:induction false} CheckEmailNoSpace(s: string)
    ensures CheckEmail(s) <==> forall i :: 0 <= i < |s| ==> !IsSpace(s[i])
  {
    if |s| > 0 {
      CheckEmailNoSpace(s[1..]);
      assert forall i :: 1 <= i < |s| ==> s[i] == s[1..][i - 1];
    }
  }

  /** The scan accepts exactly the strings of the shape. */
  lemma CheckEmailMatchesShape(s: string)
    ensures CheckEmail(s) && HasInnerAt(s) <==> EmailShape(s)
  {
    CheckEmailNoSpace(s);
  }

  lemma ShapeExamples()
    ensures EmailShape("a@b")
    ensures !EmailShape("@b") && !EmailShape("a@") && !EmailShape("a @b")
  {
    assert "a@b"[1] == '@';
    assert "a @b"[1] == ' ';
  }

  datatype ProfileErrors = ProfileErrors(name: bool, email: bool, profession: bool)

  /** A name whose `length` is at least 3, an email of the shape above, a profession whose `length` is at least 2. */
  function Validate(v: ProfileValues): (e: ProfileErrors)
    ensures e.name <==> Utf16Length(v.name) < 3
    ensures e.email <==> !EmailShape(v.email)
    ensures e.profession <==> Utf16Length(v.profession) < 2
  {
    CheckEmailMatchesShape(v.email);
    ProfileErrors(Utf16Length(v.name) < 3, !(CheckEmail(v.email) && HasInnerAt(v.email)), Utf16Length(v.profession) < 2)
  }

  /** "Guardar cambios": only a form that passes the validators reaches `onSave`, with every field. */
  function Submit(v: ProfileValues): (r: Option<ProfileValues>)
    ensures r.Some? <==> Validate(v) == ProfileErrors(false, false, false)
    ensures r.Some? ==> r.value == v && EmailShape(v.email)
  {
    if Validate(v) == ProfileErrors(false, false, false) then Some(v) else None
  }

  /** The preview image and the form's values. */
  datatype EditorState = EditorState(preview: string, values: ProfileValues)

  predicate AvatarInStep(st: EditorState) {
    st.preview == st.values.avatar
  }

  function Initial(p: UserProfile): (st: EditorState)
    ensures AvatarInStep(st) && st.preview == p.avatar
  {
    EditorState(p.avatar, InitialValues(p))
  }

  /** Picking an avatar (or uploading a file, as its object URL) sets preview and field to the same URL. */
  function SelectAvatar(st: EditorState, url: string): (r: EditorState)
    ensures AvatarInStep(r) && r.preview == url
    ensures r.values == st.values.(avatar := url)
  {
    EditorState(url, st.values.(avatar := url))
  }

  /** `handleFileUpload`: a cancelled file dialog changes nothing. */
  function UploadAvatar(st: EditorState, fileUrl: Option<string>): (r: EditorState)
    ensures fileUrl.None? ==> r == st
    ensures fileUrl.Some? ==> r == SelectAvatar(st, fileUrl.value)
    ensures AvatarInStep(st) ==> AvatarInStep(r)
  {
    if fileUrl.Some? then SelectAvatar(st, fileUrl.value) else st
  }
}
