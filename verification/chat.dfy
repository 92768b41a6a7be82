/**
  The chat panel: the send guard of its input box and how each entry of the
  room's stream is shown (a chat bubble or a file notice, on the user's own
  side or the other side).
 */
module Chat {
  import opened Entities
  import opened JsString
  import opened Events
  import opened Connection
  import opened RoomDetail

  /** The input box after a submit, and the text handed to `onSendMessage`, if any. */
  datatype Submitted = Submitted(text: string, sent: Option<string>)

  /** `handleSendMessage`: blank text is not sent and stays in the box; any
      other text is sent exactly as typed, surrounding blanks included, and the
      box is cleared. */
  function SubmitMessage(text: string): (r: Submitted)
    ensures r.sent.Some? <==> !IsBlank(text)
    ensures r.sent.Some? ==> r.sent.value == text && r.text == ""
    ensures r.sent.None? ==> r.text == text
  {
    TrimEmptyIffBlank(text);
    if Trim(text) == [] then Submitted(text, None) else Submitted("", Some(text))
  }

  /** The send button's `disabled`: the trimmed text is empty, which is to say
      the text is all white space. */
  predicate SendDisabled(text: string)
    ensures SendDisabled(text) <==> IsBlank(text)
  {
    TrimEmptyIffBlank(text);
    Trim(text) == []
  }

  /** The button is disabled exactly when submitting would send nothing. */
  lemma DisabledIffNothingSent(text: string)
    ensures SendDisabled(text) <==> SubmitMessage(text).sent.None?
  {
    TrimEmptyIffBlank(text);
  }

  /** A second submit right after a send has nothing to send. */
  lemma SubmitClears(text: string)
    requires !IsBlank(text)
    ensures SubmitMessage(SubmitMessage(text).text).sent.None?
  {
  }

  /** Typed text reaching the room page: nothing is emitted for blank text; other
      text is emitted untrimmed, and the page's own stream is not touched. */
  lemma SendThroughPage(s: Session, text: string)
    requires s.client.socket.Some?
    ensures SubmitMessage(text).sent.Some? ==>
      var r := HandleSendMessage(s, SubmitMessage(text).sent.value);
      && r.Some? && r.value.page == s.page
      && r.value.client.actions == s.client.actions + [Emit(SendMessageMsg(s.page.roomId, text))]
  {
  }

  /** `message.user.id === currentUser?.id`: with no current user, or a current
      user whose socket id is still undefined, no entry is the user's own. */
  predicate IsCurrentUser(record: StreamRecord, currentUser: Option<CurrentUser>) {
    currentUser.Some? && currentUser.value.id == Some(record.user.id)
  }

  /** How one stream entry is drawn. */
  datatype Bubble =
    | ChatBubble(sender: User, text: Option<string>, mine: bool)
    | FileNotice(sender: User, file: FileMeta, mine: bool)

  /** The `Message` component: a file notice exactly for entries with a file,
      a chat bubble for the rest, on the user's own side when the sender is the
      current user. */
  function Classify(record: StreamRecord, currentUser: Option<CurrentUser>): (b: Bubble)
    ensures b.FileNotice? <==> record.fileInfo.Some?
    ensures b.FileNotice? ==> b.file == record.fileInfo.value
    ensures b.ChatBubble? ==> b.text == record.text
    ensures b.sender == record.user
    ensures b.mine <==> IsCurrentUser(record, currentUser)
    ensures currentUser.None? ==> !b.mine
  {
    match record.fileInfo
    case Some(file) => FileNotice(record.user, file, IsCurrentUser(record, currentUser))
    case None => ChatBubble(record.user, record.text, IsCurrentUser(record, currentUser))
  }

  /** The panel's list: one bubble per stream entry, in stream order. */
  function Render(messages: seq<StreamRecord>, currentUser: Option<CurrentUser>): (bs: seq<Bubble>)
    ensures |bs| == |messages|
    ensures forall i :: 0 <= i < |bs| ==> bs[i] == Classify(messages[i], currentUser)
  {
    seq(|messages|, i requires 0 <= i < |messages| => Classify(messages[i], currentUser))
  }

  /** Once the room info has reached a mounted page, an entry is drawn as the
      user's own exactly when its sender's id is the page's socket id. */
  lemma OwnEntriesAfterJoin(s: Session, roomId: string, isPrivate: bool, users: seq<User>, record: StreamRecord)
    requires Subscribed(s)
    ensures var p := Deliver(s, RoomInfoEvent(roomId, isPrivate, users)).session.page;
      Classify(record, p.currentUser).mine <==> CurrentSocketId(s.client) == Some(record.user.id)
  {
    SubscribedPageReactsOnce(s, RoomInfoEvent(roomId, isPrivate, users));
  }
}
