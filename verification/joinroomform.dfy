/**
  The join form: its four inputs, the validation it runs on submit, and the
  join request it hands to the page that shows it.

  Lengths are JavaScript lengths (UTF-16 code units) of the name as typed; only
  the "required" test looks at the trimmed name.
 */
module JoinRoomForm {
  import opened Entities
  import opened JsString
  import opened Connection
  import opened RoomDetail

  const UsernameRequired: string := "Username is required"
  const UsernameTooShort: string := "Username must be at least 3 characters"
  const UsernameTooLong: string := "Username must be less than 20 characters"
  const RoomIdRequired: string := "Room ID is required for joining a public room"

  /** The shortest and longest accepted names, in UTF-16 code units. */
  const MinUsernameLength: nat := 3
  const MaxUsernameLength: nat := 20

  /** The form's inputs: the room id the page passed in (empty when none), and
      the name, room id and privacy box as the user left them. */
  datatype Form = Form(initialRoomId: string, username: string, roomId: string, isPrivate: bool)

  /** A fresh form: empty name, the initial room id pre-filled, privacy off. */
  function NewForm(initialRoomId: string): (f: Form)
    ensures f.username == "" && !f.isPrivate
    ensures f.initialRoomId == initialRoomId && f.roomId == initialRoomId
  {
    Form(initialRoomId, "", initialRoomId, false)
  }

  /** The error map `validate` builds: at most one message per field. */
  datatype Errors = Errors(username: Option<string>, roomId: Option<string>)

  /** A name within the length bounds, counted as typed. */
  predicate LengthAccepted(name: string) {
    MinUsernameLength <= Utf16Length(name) <= MaxUsernameLength
  }

  /** The name's message: "required" for a blank name, whatever its length;
      otherwise "too short" or "too long" by the untrimmed length. */
  function UsernameError(name: string): (e: Option<string>)
    ensures e.None? <==> !IsBlank(name) && LengthAccepted(name)
    ensures IsBlank(name) ==> e == Some(UsernameRequired)
    ensures !IsBlank(name) && Utf16Length(name) < MinUsernameLength ==> e == Some(UsernameTooShort)
    ensures !IsBlank(name) && Utf16Length(name) > MaxUsernameLength ==> e == Some(UsernameTooLong)
  {
    TrimEmptyIffBlank(name);
    if Trim(name) == [] then Some(UsernameRequired)
    else if Utf16Length(name) < MinUsernameLength then Some(UsernameTooShort)
    else if Utf16Length(name) > MaxUsernameLength then Some(UsernameTooLong)
    else None
  }

  /** The room id is demanded only of a form opened without one, whose room id
      was cleared, and which does not ask for a private room. */
  function RoomIdError(f: Form): (e: Option<string>)
    ensures e.Some? <==> f.initialRoomId == "" && f.roomId == "" && !f.isPrivate
    ensures e.Some? ==> e.value == RoomIdRequired
  {
    if f.initialRoomId == "" && f.roomId == "" && !f.isPrivate then Some(RoomIdRequired) else None
  }

  /** `validate()`: both fields are checked, each on its own. The name is
      faulted when blank or out of bounds; the room id only when none is at
      hand and no private room is asked for. */
  function Validate(f: Form): (e: Errors)
    ensures e.username.None? <==> !IsBlank(f.username) && LengthAccepted(f.username)
    ensures IsBlank(f.username) ==> e.username == Some(UsernameRequired)
    ensures e.roomId.Some? <==> f.initialRoomId == "" && f.roomId == "" && !f.isPrivate
    ensures e.roomId.Some? ==> e.roomId.value == RoomIdRequired
  {
    Errors(UsernameError(f.username), RoomIdError(f))
  }

  /** The form passes when the error map is empty. */
  predicate Valid(f: Form) {
    Validate(f) == Errors(None, None)
  }

  /** `handleSubmit`: nothing is handed on unless the form is valid; the name
      goes as typed, an empty room id as absent, and the privacy box as set. */
  function Submit(f: Form): (r: Option<JoinData>)
    ensures r.Some? <==> Valid(f)
    ensures r.Some? ==> r.value.username == f.username && r.value.isPrivate == f.isPrivate
    ensures r.Some? ==> (r.value.roomId.None? <==> f.roomId == "")
    ensures r.Some? && r.value.roomId.Some? ==> r.value.roomId.value == f.roomId
  {
    if Valid(f) then Some(JoinData(f.username, if f.roomId == "" then None else Some(f.roomId), f.isPrivate))
    else None
  }

  /** A form passes exactly when the name is non-blank and within bounds, and a
      room id is at hand or a private room is asked for. */
  lemma ValidIff(f: Form)
    ensures Valid(f) <==>
      && !IsBlank(f.username) && LengthAccepted(f.username)
      && (f.initialRoomId != "" || f.roomId != "" || f.isPrivate)
  {
  }

  /** A name of Basic Multilingual Plane characters has as many code units as characters. */
  lemma BmpLength(name: string)
    requires forall i :: 0 <= i < |name| ==> name[i] as int <= 0xFFFF
    ensures Utf16Length(name) == |name|
  {
  }

  /** Surrounding blanks count towards the length: a two-character name
      padded with blanks passes, although its trimmed form is too short. */
  lemma PaddingCounts(pad: string, core: string)
    requires pad != [] && IsBlank(pad) && !IsBlank(core)
    requires forall i :: 0 <= i < |pad + core| ==> (pad + core)[i] as int <= 0xFFFF
    requires |core| == 2 && |pad| <= 18
    ensures |Trim(pad + core)| < MinUsernameLength
    ensures UsernameError(pad + core) == None
  {
    var name := pad + core;
    BmpLength(name);
    assert !IsBlank(name) by {
      var i :| 0 <= i < |core| && !IsWhitespace(core[i]);
      assert name[|pad| + i] == core[i];
    }
    TrimStartDropsBlankPrefix(pad, core);
  }

  /** A name of exactly twenty characters passes, although the message for long
      names says "less than 20". */
  lemma TwentyIsAccepted(name: string)
    requires !IsBlank(name) && |name| == 20
    requires forall i :: 0 <= i < |name| ==> name[i] as int <= 0xFFFF
    ensures UsernameError(name) == None
  {
    BmpLength(name);
  }

  /** The two checks are independent: an empty form opened without a room id
      reports both. */
  lemma BothErrorsAtOnce()
    ensures Validate(NewForm("")) == Errors(Some(UsernameRequired), Some(RoomIdRequired))
  {
  }

  /** On a page that passes its own room id, the room id is never asked for,
      whatever the user does with the field. */
  lemma InitialRoomIdSuffices(f: Form)
    requires f.initialRoomId != ""
    ensures RoomIdError(f).None?
    ensures Valid(f) <==> UsernameError(f.username).None?
  {
  }

  /** A state the user can bring the form to: the room-id box and the privacy
      box are only shown when no initial room id was given, so with one the
      room id stays as given and privacy stays off. */
  predicate Reachable(f: Form) {
    f.initialRoomId != "" ==> f.roomId == f.initialRoomId && !f.isPrivate
  }

  /** On the room page the form is opened with the page's room id: whatever
      name is accepted, the page then asks to join its own room under that name. */
  lemma RoomPageJoinsItsRoom(f: Form, c: Client, created: Socket)
    requires f.initialRoomId != "" && Reachable(f) && Valid(f)
    ensures Submit(f) == Some(JoinData(f.username, Some(f.initialRoomId), false))
    ensures HandleJoinRoom(c, Submit(f).value, created).actions ==
      InitSocket(c, created).client.actions + [Emit(JoinRoomMsg(Some(f.initialRoomId), f.username))]
  {
  }
}
