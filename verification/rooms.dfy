/**
  The rooms page's join handler: what a join request from its form leads to —
  creating a private room, going straight to an existing room, or an error —
  and the address the browser is sent to.
 */
module Rooms {
  import opened Entities
  import opened Events
  import UriComponent
  import JoinRoomForm

  const CreateFallback: string := "Failed to create room"
  const MissingInformation: string := "Missing required information"
  const JoinFailedPrefix: string := "Failed to join room: "

  /** How `createRoom(true)` ended: the server's reply, or the HTTP client's error. */
  datatype CreateResponse =
    | CreateReplied(success: bool, roomId: Option<string>, message: Option<string>)
    | CreateFailed(error: string)

  /** The three branches of `handleJoin`. */
  datatype Decision = CreatePrivate | GoToExisting | MissingInfo

  /** Privacy wins over a room id; a room id is used only when it is truthy. */
  function Decide(d: JoinData): (r: Decision)
    ensures r == CreatePrivate <==> d.isPrivate
    ensures r == GoToExisting <==> !d.isPrivate && Truthy(d.roomId)
    ensures r == MissingInfo <==> !d.isPrivate && !Truthy(d.roomId)
  {
    if d.isPrivate then CreatePrivate else if Truthy(d.roomId) then GoToExisting else MissingInfo
  }

  /** A possibly undefined value in a template literal. */
  function TemplateText(s: Option<string>): string {
    if s.Some? then s.value else "undefined"
  }

  /** `/room/<roomId>?username=<encodeURIComponent(username)>`. */
  function RoomUrl(roomId: string, username: string): string {
    "/room/" + roomId + "?username=" + UriComponent.Encode(username)
  }

  /** The page's `isJoining` flag while a request is handled. */
  datatype RoomsPage = RoomsPage(isJoining: bool)

  /** What `handleJoin` did: the page while the request was in flight, whether
      it asked the server for a room, where it sent the browser, what error it
      showed, and the page afterwards. */
  datatype JoinOutcome = JoinOutcome(during: RoomsPage, createRequested: bool, location: Option<string>, toast: Option<Toast>, page: RoomsPage)

  /** The message after "Failed to join room: " for a failed create. */
  function CreateFailureText(resp: CreateResponse): string {
    match resp
    case CreateReplied(_, _, message) => OrElse(message, CreateFallback)
    case CreateFailed(error) => error
  }

  /** `handleJoin(joinData)`, given how the create request would end. The flag
      is set on entry and cleared in the `finally` block, on every path;
      either the browser is sent somewhere or an error is shown, never both. */
  function HandleJoin(p: RoomsPage, d: JoinData, resp: CreateResponse): (r: JoinOutcome)
    ensures r.during == p.(isJoining := true) && r.during.isJoining
    ensures !r.page.isJoining
    ensures r.createRequested <==> d.isPrivate
    ensures r.location.Some? <==> r.toast.None?
    ensures d.isPrivate && resp.CreateReplied? && resp.success ==>
      r.location == Some(RoomUrl(TemplateText(resp.roomId), d.username))
    ensures d.isPrivate && !(resp.CreateReplied? && resp.success) ==>
      r.toast == Some(Toast(ErrorToast, JoinFailedPrefix + CreateFailureText(resp)))
    ensures !d.isPrivate && Truthy(d.roomId) ==> r.location == Some(RoomUrl(d.roomId.value, d.username))
    ensures !d.isPrivate && !Truthy(d.roomId) ==>
      r.toast == Some(Toast(ErrorToast, JoinFailedPrefix + MissingInformation))
  {
    var joining := p.(isJoining := true);
    var done := joining.(isJoining := false);
    match Decide(d)
    case CreatePrivate =>
      if resp.CreateReplied? && resp.success then
        JoinOutcome(joining, true, Some(RoomUrl(TemplateText(resp.roomId), d.username)), None, done)
      else
        JoinOutcome(joining, true, None, Some(Toast(ErrorToast, JoinFailedPrefix + CreateFailureText(resp))), done)
    case GoToExisting =>
      JoinOutcome(joining, false, Some(RoomUrl(d.roomId.value, d.username)), None, done)
    case MissingInfo =>
      JoinOutcome(joining, false, None, Some(Toast(ErrorToast, JoinFailedPrefix + MissingInformation)), done)
  }

  /** A private request ignores any room id it carries. */
  lemma PrivateIgnoresRoomId(p: RoomsPage, d: JoinData, resp: CreateResponse)
    requires d.isPrivate
    ensures HandleJoin(p, d, resp) == HandleJoin(p, d.(roomId := None), resp)
  {
  }

  /** Going to an existing room never involves the server's answer. */
  lemma ExistingRoomIgnoresServer(p: RoomsPage, d: JoinData, resp1: CreateResponse, resp2: CreateResponse)
    requires !d.isPrivate
    ensures HandleJoin(p, d, resp1) == HandleJoin(p, d, resp2)
  {
  }

  /** The address ends in a query value that is safe as it stands and that
      reads back as the username exactly. */
  lemma UrlCarriesUsername(roomId: string, username: string)
    ensures var url := RoomUrl(roomId, username);
      var value := url[|"/room/" + roomId + "?username="|..];
      && url[..|"/room/" + roomId + "?username="|] == "/room/" + roomId + "?username="
      && UriComponent.QuerySafe(value)
      && UriComponent.Decode(value) == Some(username)
  {
    var prefix := "/room/" + roomId + "?username=";
    var url := RoomUrl(roomId, username);
    assert url == prefix + UriComponent.Encode(username);
    assert url[|prefix|..] == UriComponent.Encode(username);
    UriComponent.EncodeIsQuerySafe(username);
    UriComponent.DecodeEncode(username);
  }

  /** The shape of `/room/<roomId>?username=<value>` for any value without '#'. */
  lemma QueryShape(roomId: string, value: string)
    requires '?' !in roomId && '#' !in roomId && '#' !in value
    ensures var url := "/room/" + roomId + "?username=" + value;
      var mark := |"/room/" + roomId|;
      && url[mark] == '?'
      && '?' !in url[..mark]
      && '#' !in url
      && url[mark + 1..] == "username=" + value
  {
    var path := "/room/" + roomId;
    assert path + "?username=" + value == path + ("?" + ("username=" + value));
    assert (path + ("?" + ("username=" + value)))[..|path|] == path;
  }

  /** An encoded value never holds a '#'. */
  lemma EncodedHasNoFragment(username: string)
    ensures '#' !in UriComponent.Encode(username)
  {
    var e := UriComponent.Encode(username);
    UriComponent.EncodeIsQuerySafe(username);
    forall k | 0 <= k < |e|
      ensures e[k] != '#'
    {
    }
  }

  /** When the room id holds no '?' and no '#', the address's query starts at
      the '?' the handler writes, no fragment follows, and the whole query is
      the username parameter. */
  lemma QueryIsTheUsername(roomId: string, username: string)
    requires '?' !in roomId && '#' !in roomId
    ensures var url := RoomUrl(roomId, username);
      var mark := |"/room/" + roomId|;
      && url[mark] == '?'
      && '?' !in url[..mark]
      && '#' !in url
      && url[mark + 1..] == "username=" + UriComponent.Encode(username)
  {
    EncodedHasNoFragment(username);
    QueryShape(roomId, UriComponent.Encode(username));
  }

  /** The rooms page's form is opened without a room id. Whatever the user
      enters, a request the form lets through never ends in "Missing required
      information": the form already demands a room id or a private room. */
  lemma FormRulesOutMissingInfo(f: JoinRoomForm.Form)
    requires f.initialRoomId == ""
    requires JoinRoomForm.Submit(f).Some?
    ensures Decide(JoinRoomForm.Submit(f).value) != MissingInfo
  {
  }
}
