/**
  The room page: its state, the five socket handlers it subscribes while it is
  mounted, the join request it sends, the sends it makes without touching its
  own state, and which of its three views it shows.

  A page and the socket client form a session. Delivering an inbound event to
  a session runs the notification policy and then every subscribed handler in
  order; the page reacts only to calls of its own handlers.
 */
module RoomDetail {
  import opened Entities
  import opened Events
  import opened Connection

  /** The room as the room API returned it. `isPrivate` and `users` are the two
      fields a `roomInfo` event overwrites; `rest` stands for every other field,
      which is kept as it was. */
  datatype RoomRecord = RoomRecord(
    id: Option<string>,
    isPrivate: Option<bool>,
    users: Option<seq<User>>,
    rest: map<string, string>)

  /** The page's notion of who is using it: the socket id read when the room
      was joined (undefined before the server accepted the socket) and the
      username from the page's query string. */
  datatype CurrentUser = CurrentUser(id: Option<string>, username: string)

  /** The identities of the five handlers the page subscribes. */
  datatype PageHandlers = PageHandlers(
    roomInfo: HandlerId, userJoined: HandlerId, message: HandlerId, newFile: HandlerId, userLeft: HandlerId)

  /** The page's React state, plus the route it redirected to, if any. */
  datatype Page = Page(
    roomId: string,
    room: Option<RoomRecord>,
    isLoading: bool,
    isJoined: bool,
    username: string,
    messages: seq<StreamRecord>,
    users: seq<User>,
    currentUser: Option<CurrentUser>,
    handlers: PageHandlers,
    redirect: Option<string>)

  /** The page when first rendered for route `/room/<roomId>`: `username` comes
      from the query string, and an absent or empty one becomes "". */
  function InitialPage(roomId: string, queryUsername: Option<string>, handlers: PageHandlers): (p: Page)
    ensures p.isLoading && !p.isJoined && p.room.None? && p.currentUser.None?
    ensures p.messages == [] && p.users == []
    ensures Truthy(queryUsername) ==> p.username == queryUsername.value
    ensures !Truthy(queryUsername) ==> p.username == ""
  {
    Page(roomId, None, true, false, OrElse(queryUsername, ""), [], [], None, handlers, None)
  }

  /** The five `on` calls of the mount effect, in source order; `off` is called
      for the same pairs in the same order on unmount. */
  function Subscriptions(h: PageHandlers): seq<Subscription> {
    [ Subscription("roomInfo", h.roomInfo), Subscription("userJoined", h.userJoined),
      Subscription("message", h.message), Subscription("newFile", h.newFile),
      Subscription("userLeft", h.userLeft) ]
  }

  /** What one subscription contributes to the handlers of kind `k`. */
  lemma OneSubscription(sub: Subscription, k: EventKind)
    ensures HandlersFor([sub], k) == if Parse(sub.name) == Some(k) then [sub.handler] else []
  {
    assert [sub][1..] == [];
  }

  /** The handlers of kind `k` among the mount effect's subscriptions, one
      subscription at a time. */
  lemma SubscriptionsSplit(h: PageHandlers, k: EventKind)
    ensures HandlersFor(Subscriptions(h), k) ==
      HandlersFor([Subscriptions(h)[0]], k) + HandlersFor([Subscriptions(h)[1]], k)
      + HandlersFor([Subscriptions(h)[2]], k) + HandlersFor([Subscriptions(h)[3]], k)
      + HandlersFor([Subscriptions(h)[4]], k)
  {
    var subs := Subscriptions(h);
    assert subs == [subs[0]] + ([subs[1]] + ([subs[2]] + ([subs[3]] + [subs[4]])));
    HandlersForAppend([subs[3]], [subs[4]], k);
    HandlersForAppend([subs[2]], [subs[3]] + [subs[4]], k);
    HandlersForAppend([subs[1]], [subs[2]] + ([subs[3]] + [subs[4]]), k);
    HandlersForAppend([subs[0]], [subs[1]] + ([subs[2]] + ([subs[3]] + [subs[4]])), k);
  }

  /** The page subscribes exactly one handler to each of five kinds, and none to
      `p2pSignal`, `roomJoinError`, `roomInvitation` or `inviteError`. */
  lemma SubscriptionsPerKind(h: PageHandlers)
    ensures HandlersFor(Subscriptions(h), RoomInfo) == [h.roomInfo]
    ensures HandlersFor(Subscriptions(h), UserJoined) == [h.userJoined]
    ensures HandlersFor(Subscriptions(h), Message) == [h.message]
    ensures HandlersFor(Subscriptions(h), NewFile) == [h.newFile]
    ensures HandlersFor(Subscriptions(h), UserLeft) == [h.userLeft]
    ensures forall k :: k in {P2pSignal, RoomJoinError, RoomInvitation, InviteError} ==> HandlersFor(Subscriptions(h), k) == []
  {
    forall k ensures HandlersFor(Subscriptions(h), k) ==
      (if k == RoomInfo then [h.roomInfo] else []) + (if k == UserJoined then [h.userJoined] else [])
      + (if k == Message then [h.message] else []) + (if k == NewFile then [h.newFile] else [])
      + (if k == UserLeft then [h.userLeft] else [])
    {
      var subs := Subscriptions(h);
      assert Parse(subs[0].name) == Some(RoomInfo);
      assert Parse(subs[1].name) == Some(UserJoined);
      assert Parse(subs[2].name) == Some(Message);
      assert Parse(subs[3].name) == Some(NewFile);
      assert Parse(subs[4].name) == Some(UserLeft);
      SubscriptionsSplit(h, k);
      OneSubscription(subs[0], k);
      OneSubscription(subs[1], k);
      OneSubscription(subs[2], k);
      OneSubscription(subs[3], k);
      OneSubscription(subs[4], k);
    }
  }

  /** The page together with the socket client it drives. */
  datatype Session = Session(page: Page, client: Client)

  /** `handleJoinRoom(joinData)`: asks to join with the room id and username
      only; whether the form asked for a private room is not sent. */
  function HandleJoinRoom(c: Client, d: JoinData, created: Socket): (r: Client)
    ensures r.registry == c.registry && r.socket.Some?
    ensures r.actions == InitSocket(c, created).client.actions + [Emit(JoinRoomMsg(d.roomId, d.username))]
  {
    JoinRoom(c, d.roomId, d.username, created)
  }

  /** The privacy flag of a join request has no effect on what is sent. */
  lemma JoinIgnoresPrivacy(c: Client, d: JoinData, created: Socket)
    ensures HandleJoinRoom(c, d, created) == HandleJoinRoom(c, d.(isPrivate := !d.isPrivate), created)
  {
  }

  /** The mount effect: make sure the socket exists, start loading the room,
      join at once when the query string named a user, then subscribe the five
      handlers. */
  function Mount(p: Page, c: Client, created: Socket): (s: Session)
    ensures s.page == p.(isLoading := true)
    ensures s.client.socket.Some?
    ensures s.client.actions == InitSocket(c, created).client.actions
      + (if p.username != "" then [Emit(JoinRoomMsg(Some(p.roomId), p.username))] else [])
    ensures s.client.registry == OnAll(c.registry, Subscriptions(p.handlers))
  {
    var ready := InitSocket(c, created).client;
    var joined := if p.username != "" then HandleJoinRoom(ready, JoinData(p.username, Some(p.roomId), false), created) else ready;
    Session(p.(isLoading := true), joined.(registry := OnAll(joined.registry, Subscriptions(p.handlers))))
  }

  /** The effect's cleanup: unsubscribe the five pairs. The socket stays open:
      nothing is closed or emitted, and the page is left as it is. */
  function Unmount(s: Session): (r: Session)
    ensures r.page == s.page
    ensures r.client.socket == s.client.socket && r.client.actions == s.client.actions
    ensures r.client.registry == OffAll(s.client.registry, Subscriptions(s.page.handlers))
  {
    s.(client := s.client.(registry := OffAll(s.client.registry, Subscriptions(s.page.handlers))))
  }

  /** None of the page's five handler ids is subscribed to any kind. */
  predicate FreshIn(h: PageHandlers, reg: Registry) {
    forall k :: h.roomInfo !in reg.Get(k) && h.userJoined !in reg.Get(k) && h.message !in reg.Get(k)
      && h.newFile !in reg.Get(k) && h.userLeft !in reg.Get(k)
  }

  /** Cleanup unsubscribes exactly what mounting subscribed: the registry is the
      one the page found. */
  lemma UnmountRestoresRegistry(p: Page, c: Client, created: Socket)
    requires FreshIn(p.handlers, c.registry)
    ensures Unmount(Mount(p, c, created)).client.registry == c.registry
  {
    var subs := Subscriptions(p.handlers);
    assert forall i, k :: 0 <= i < |subs| ==> subs[i].handler !in c.registry.Get(k);
    OffAllUndoesOnAll(c.registry, subs);
  }

  /** The page's result of `roomsApi.getRoom`. */
  datatype RoomResponse =
    | RoomResolved(success: bool, data: RoomRecord, message: Option<string>)
    | RoomRejected(error: string)

  /** Completion of `fetchRoomData`: a successful response becomes the room;
      any failure sends the page back to `/rooms`. Loading ends either way. */
  function FetchRoomDone(p: Page, resp: RoomResponse): (r: Page)
    ensures !r.isLoading
    ensures resp.RoomResolved? && resp.success ==> r.room == Some(resp.data) && r.redirect == p.redirect
    ensures !(resp.RoomResolved? && resp.success) ==> r.room == p.room && r.redirect == Some("/rooms")
    ensures r.(isLoading := p.isLoading, room := p.room, redirect := p.redirect) == p
  {
    if resp.RoomResolved? && resp.success then p.(room := Some(resp.data), isLoading := false)
    else p.(redirect := Some("/rooms"), isLoading := false)
  }

  /** `{...prevRoom, isPrivate, users}`: spreading a missing room gives a record
      with only the two new fields. */
  function MergeRoom(prev: Option<RoomRecord>, isPrivate: bool, users: seq<User>): (r: RoomRecord)
    ensures r.isPrivate == Some(isPrivate) && r.users == Some(users)
    ensures prev.Some? ==> r.id == prev.value.id && r.rest == prev.value.rest
    ensures prev.None? ==> r.id.None? && r.rest == map[]
  {
    match prev
    case Some(room) => room.(isPrivate := Some(isPrivate), users := Some(users))
    case None => RoomRecord(None, Some(isPrivate), Some(users), map[])
  }

  /** What the page's own handler for `ev` does to the page; kinds the page has
      no handler for change nothing. */
  function React(p: Page, ev: Inbound, socketId: Option<string>): (r: Page)
    ensures r.handlers == p.handlers && r.roomId == p.roomId && r.username == p.username
    ensures r.isLoading == p.isLoading && r.redirect == p.redirect
    ensures r.isJoined == (p.isJoined || ev.RoomInfoEvent?)
    ensures ev.RoomInfoEvent? || ev.UserJoinedEvent? || ev.UserLeftEvent? ==> r.users == ev.users
    ensures !(ev.RoomInfoEvent? || ev.UserJoinedEvent? || ev.UserLeftEvent?) ==> r.users == p.users
    ensures ev.MessageEvent? || ev.NewFileEvent? ==> r.messages == p.messages + [ev.record]
    ensures !(ev.MessageEvent? || ev.NewFileEvent?) ==> r.messages == p.messages
    ensures ev.RoomInfoEvent? ==> r.currentUser == Some(CurrentUser(socketId, p.username))
    ensures ev.RoomInfoEvent? ==> r.room == Some(MergeRoom(p.room, ev.isPrivate, ev.users))
    ensures !ev.RoomInfoEvent? ==> r.currentUser == p.currentUser && r.room == p.room
    ensures KindOf(ev) in {P2pSignal, RoomJoinError, RoomInvitation, InviteError} ==> r == p
  {
    match ev
    case RoomInfoEvent(_, isPrivate, users) =>
      p.(isJoined := true, users := users, currentUser := Some(CurrentUser(socketId, p.username)),
         room := Some(MergeRoom(p.room, isPrivate, users)))
    case UserJoinedEvent(_, users) => p.(users := users)
    case UserLeftEvent(_, users) => p.(users := users)
    case MessageEvent(record) => p.(messages := p.messages + [record])
    case NewFileEvent(record) => p.(messages := p.messages + [record])
    case P2pSignalEvent(_, _) => p
    case RoomJoinErrorEvent(_) => p
    case RoomInvitationEvent(_, _) => p
    case InviteErrorEvent(_) => p
  }

  lemma ReactOnStream(p: Page, ev: Inbound, socketId: Option<string>)
    requires IsStream(ev)
    ensures React(p, ev, socketId) == p.(messages := p.messages + [ev.record])
  {
  }

  /** The page's handler for the kind of `ev`, if it has one. */
  function OwnHandler(h: PageHandlers, ev: Inbound): Option<HandlerId> {
    match KindOf(ev)
    case RoomInfo => Some(h.roomInfo)
    case UserJoined => Some(h.userJoined)
    case Message => Some(h.message)
    case NewFile => Some(h.newFile)
    case UserLeft => Some(h.userLeft)
    case _ => None
  }

  /** One handler call as it affects the page: only the page's own handler for
      the event's kind does anything. */
  function Invoke(p: Page, call: Invocation, socketId: Option<string>): Page {
    if OwnHandler(p.handlers, call.data) == Some(call.handler) then React(p, call.data, socketId) else p
  }

  /** The page after the given handler calls, in order. */
  function RunCalls(p: Page, calls: seq<Invocation>, socketId: Option<string>): Page
    decreases |calls|
  {
    if calls == [] then p else RunCalls(Invoke(p, calls[0], socketId), calls[1..], socketId)
  }

  /** `React` applied `n` times. */
  function ReactTimes(p: Page, ev: Inbound, socketId: Option<string>, n: nat): (r: Page)
    ensures r.handlers == p.handlers
    decreases n
  {
    if n == 0 then p else ReactTimes(React(p, ev, socketId), ev, socketId, n - 1)
  }

  /** Counting the first handler separately. */
  lemma CountCons(hs: seq<HandlerId>, h: HandlerId)
    requires hs != []
    ensures Count(hs, h) == (if hs[0] == h then 1 else 0) + Count(hs[1..], h)
  {
    assert hs == [hs[0]] + hs[1..];
  }

  /** Running a fan-out is running its first call, then the rest. */
  lemma RunFanOutCons(p: Page, hs: seq<HandlerId>, ev: Inbound, socketId: Option<string>)
    requires hs != []
    ensures RunCalls(p, FanOut(hs, ev), socketId) ==
      RunCalls(Invoke(p, Invocation(hs[0], ev), socketId), FanOut(hs[1..], ev), socketId)
  {
    assert FanOut(hs, ev)[1..] == FanOut(hs[1..], ev);
  }

  /** A call changes the page only when it is the page's own handler for the event. */
  lemma InvokeCases(p: Page, call: Invocation, socketId: Option<string>)
    ensures Invoke(p, call, socketId).handlers == p.handlers
    ensures OwnHandler(p.handlers, call.data) == Some(call.handler) ==>
      Invoke(p, call, socketId) == React(p, call.data, socketId)
    ensures OwnHandler(p.handlers, call.data) != Some(call.handler) ==> Invoke(p, call, socketId) == p
  {
  }

  /** Fanning `ev` out to `hs` changes the page once for every occurrence of the
      page's own handler in `hs`, and not otherwise. */
  lemma {:induction false} FanOutReacts(p: Page, hs: seq<HandlerId>, ev: Inbound, socketId: Option<string>)
    ensures OwnHandler(p.handlers, ev).None? ==> RunCalls(p, FanOut(hs, ev), socketId) == p
    ensures OwnHandler(p.handlers, ev).Some? ==>
      RunCalls(p, FanOut(hs, ev), socketId) == ReactTimes(p, ev, socketId, Count(hs, OwnHandler(p.handlers, ev).value))
    decreases |hs|
  {
    if hs != [] {
      var p' := Invoke(p, Invocation(hs[0], ev), socketId);
      RunFanOutCons(p, hs, ev, socketId);
      InvokeCases(p, Invocation(hs[0], ev), socketId);
      FanOutReacts(p', hs[1..], ev, socketId);
      if OwnHandler(p.handlers, ev).Some? {
        var own := OwnHandler(p.handlers, ev).value;
        CountCons(hs, own);
        if hs[0] == own {
          ReactTimesShift(p, ev, socketId, Count(hs[1..], own));
        } else {
          assert p' == p;
        }
      } else {
        assert p' == p;
      }
    }
  }

  lemma {:induction false} ReactTimesShift(p: Page, ev: Inbound, socketId: Option<string>, n: nat)
    ensures ReactTimes(React(p, ev, socketId), ev, socketId, n) == ReactTimes(p, ev, socketId, n + 1)
  {
  }

  /** The socket id `getSocketId()` returns inside a handler. Handlers only run
      for events of a live socket, so the socket is there and nothing is
      created; without one, the socket `io()` would create has no id yet. */
  function CurrentSocketId(c: Client): (id: Option<string>)
    ensures c.socket.Some? ==> id == c.socket.value.id
    ensures c.socket.None? ==> id.None?
  {
    GetSocketId(c, Socket(0, None)).id
  }

  /** The id a handler sees is what `getSocketId` answers, whichever fresh socket
      `io()` would create; with a live socket, asking changes nothing. */
  lemma HandlerAsksGetSocketId(c: Client, created: Socket)
    requires created.id.None?
    ensures CurrentSocketId(c) == GetSocketId(c, created).id
    ensures c.socket.Some? ==> GetSocketId(c, created).client == c
  {
  }

  /** The session after one inbound event, and the toast it showed. */
  datatype Delivered = Delivered(session: Session, toast: Option<Toast>)

  /** An inbound event reaching the session: notification policy first, then
      every handler subscribed to its kind, in order. */
  function Deliver(s: Session, ev: Inbound): (r: Delivered)
    ensures r.session.client == s.client
    ensures r.toast == Notify(ev)
  {
    var d := Dispatch(s.client.registry, ev);
    Delivered(Session(RunCalls(s.page, d.calls, CurrentSocketId(s.client)), s.client), d.toast)
  }

  /** Each of the page's five handlers is subscribed exactly once, to its own kind. */
  predicate Subscribed(s: Session) {
    var reg := s.client.registry;
    var h := s.page.handlers;
    && Count(reg.Get(RoomInfo), h.roomInfo) == 1
    && Count(reg.Get(UserJoined), h.userJoined) == 1
    && Count(reg.Get(Message), h.message) == 1
    && Count(reg.Get(NewFile), h.newFile) == 1
    && Count(reg.Get(UserLeft), h.userLeft) == 1
  }

  /** A handler not yet subscribed to `k`, and subscribed once by the mount
      effect, is subscribed exactly once afterwards. */
  lemma SubscribedOnce(reg: Registry, h: PageHandlers, k: EventKind, x: HandlerId)
    requires HandlersFor(Subscriptions(h), k) == [x] && x !in reg.Get(k)
    ensures Count(OnAll(reg, Subscriptions(h)).Get(k), x) == 1
  {
    OnAllAppends(reg, Subscriptions(h), k);
    assert multiset(reg.Get(k) + [x]) == multiset(reg.Get(k)) + multiset{x};
  }

  /** Mounting a page whose handlers are not yet subscribed leaves each of them
      subscribed exactly once. */
  lemma MountSubscribes(p: Page, c: Client, created: Socket)
    requires FreshIn(p.handlers, c.registry)
    ensures Subscribed(Mount(p, c, created))
  {
    var h := p.handlers;
    SubscriptionsPerKind(h);
    SubscribedOnce(c.registry, h, RoomInfo, h.roomInfo);
    SubscribedOnce(c.registry, h, UserJoined, h.userJoined);
    SubscribedOnce(c.registry, h, Message, h.message);
    SubscribedOnce(c.registry, h, NewFile, h.newFile);
    SubscribedOnce(c.registry, h, UserLeft, h.userLeft);
  }

  /** On a mounted page every inbound event has exactly the effect of the page's
      own handler for it: user-list replacement, stream append, or joining. */
  lemma SubscribedPageReactsOnce(s: Session, ev: Inbound)
    requires Subscribed(s)
    ensures Deliver(s, ev).session.page == React(s.page, ev, CurrentSocketId(s.client))
  {
    var hs := s.client.registry.Get(KindOf(ev));
    FanOutReacts(s.page, hs, ev, CurrentSocketId(s.client));
  }

  /** A page none of whose handlers is subscribed to the event's kind (after
      unmounting, or after `disconnect()` emptied the registry) is not changed. */
  lemma UnsubscribedPageIgnores(s: Session, ev: Inbound)
    requires OwnHandler(s.page.handlers, ev).Some? ==> OwnHandler(s.page.handlers, ev).value !in s.client.registry.Get(KindOf(ev))
    ensures Deliver(s, ev).session.page == s.page
  {
    var hs := s.client.registry.Get(KindOf(ev));
    FanOutReacts(s.page, hs, ev, CurrentSocketId(s.client));
  }

  /** The room page registers no `roomJoinError` handler: a join error is only
      a toast, and the page stays as it was, joined or not. */
  lemma JoinErrorOnlyNotifies(s: Session, message: string)
    ensures Deliver(s, RoomJoinErrorEvent(message)).session.page == s.page
    ensures Deliver(s, RoomJoinErrorEvent(message)).toast == Some(Toast(ErrorToast, message))
  {
    FanOutReacts(s.page, s.client.registry.Get(RoomJoinError), RoomJoinErrorEvent(message), CurrentSocketId(s.client));
  }

  /** Delivering events one after another; the toasts are dropped. */
  function DeliverAll(s: Session, evs: seq<Inbound>): Session
    decreases |evs|
  {
    if evs == [] then s else DeliverAll(Deliver(s, evs[0]).session, evs[1..])
  }

  /** `message` or `newFile`: the two kinds that feed the stream. */
  predicate IsStream(ev: Inbound) {
    ev.MessageEvent? || ev.NewFileEvent?
  }

  /** The records a list of stream events carries, in order. */
  function Records(evs: seq<Inbound>): seq<StreamRecord>
    requires forall i :: 0 <= i < |evs| ==> IsStream(evs[i])
    decreases |evs|
  {
    if evs == [] then []
    else
      assert IsStream(evs[0]);
      [evs[0].record] + Records(evs[1..])
  }

  /** The session with `recs` appended to the page's stream and nothing else changed. */
  function AppendStream(s: Session, recs: seq<StreamRecord>): Session {
    Session(s.page.(messages := s.page.messages + recs), s.client)
  }

  lemma AppendStreamTwice(s: Session, a: seq<StreamRecord>, b: seq<StreamRecord>)
    ensures AppendStream(AppendStream(s, a), b) == AppendStream(s, a + b)
  {
    assert s.page.messages + a + b == s.page.messages + (a + b);
  }

  /** On a mounted page, chat messages and file shares land in one stream in
      arrival order, each exactly once, after what was there; the rest of the
      page and the client do not change. */
  lemma {:induction false} StreamKeepsArrivalOrder(s: Session, evs: seq<Inbound>)
    requires Subscribed(s)
    requires forall i :: 0 <= i < |evs| ==> IsStream(evs[i])
    ensures DeliverAll(s, evs) == AppendStream(s, Records(evs))
    decreases |evs|
  {
    if evs == [] {
      assert s.page.messages + [] == s.page.messages;
    } else {
      var ev := evs[0];
      var rest := evs[1..];
      assert IsStream(ev);
      assert forall i :: 0 <= i < |rest| ==> IsStream(rest[i]) by {
        forall i | 0 <= i < |rest| ensures IsStream(rest[i]) {
          assert rest[i] == evs[i + 1];
        }
      }
      StreamStep(s, ev);
      var s' := AppendStream(s, [ev.record]);
      assert DeliverAll(s, evs) == DeliverAll(s', rest);
      StreamKeepsArrivalOrder(s', rest);
      AppendStreamTwice(s, [ev.record], Records(rest));
      assert Records(evs) == [ev.record] + Records(rest);
    }
  }

  /** One stream event on a mounted page: the record is appended, nothing else
      changes, and the page stays subscribed. */
  lemma StreamStep(s: Session, ev: Inbound)
    requires Subscribed(s) && IsStream(ev)
    ensures Deliver(s, ev).session == AppendStream(s, [ev.record])
    ensures Subscribed(Deliver(s, ev).session)
  {
    SubscribedPageReactsOnce(s, ev);
    ReactOnStream(s.page, ev, CurrentSocketId(s.client));
  }

  /** Once joined, a page stays joined whatever events arrive: the page has no
      transition back to the join form. */
  lemma {:induction false} JoinedStaysJoined(s: Session, evs: seq<Inbound>)
    requires s.page.isJoined
    ensures DeliverAll(s, evs).page.isJoined
    decreases |evs|
  {
    if evs != [] {
      var sid := CurrentSocketId(s.client);
      RunCallsKeepsJoined(s.page, Dispatch(s.client.registry, evs[0]).calls, sid);
      JoinedStaysJoined(Deliver(s, evs[0]).session, evs[1..]);
    }
  }

  lemma {:induction false} RunCallsKeepsJoined(p: Page, calls: seq<Invocation>, socketId: Option<string>)
    requires p.isJoined
    ensures RunCalls(p, calls, socketId).isJoined
    decreases |calls|
  {
    if calls != [] {
      RunCallsKeepsJoined(Invoke(p, calls[0], socketId), calls[1..], socketId);
    }
  }

  /** `handleSendMessage(text)`: the text is emitted to the room and the page's
      own stream is left as it is; the message shows up only when the server
      sends it back. */
  function HandleSendMessage(s: Session, text: string): (r: Option<Session>)
    ensures r.Some? <==> s.client.socket.Some?
    ensures r.Some? ==> r.value.page == s.page
    ensures r.Some? ==> r.value.client == s.client.(actions := s.client.actions + [Emit(SendMessageMsg(s.page.roomId, text))])
  {
    match SendMessage(s.client, s.page.roomId, text)
    case Some(c) => Some(Session(s.page, c))
    case None => None
  }

  /** `handleUploadSuccess(fileData)`: the file is announced to the room and,
      again, the page's stream is left as it is. */
  function HandleUploadSuccess(s: Session, file: FileMeta): (r: Option<Session>)
    ensures r.Some? <==> s.client.socket.Some?
    ensures r.Some? ==> r.value.page == s.page
    ensures r.Some? ==> r.value.client == s.client.(actions := s.client.actions + [Emit(FileInfoMsg(s.page.roomId, file))])
  {
    match ShareFileInfo(s.client, s.page.roomId, file)
    case Some(c) => Some(Session(s.page, c))
    case None => None
  }

  /** The three things the page can render. */
  datatype View = JoinFormView | LoaderView | RoomView

  /** Render gating: the join form while not joined, whatever the loading flag;
      the loader while joined and loading; the room otherwise. */
  function ViewOf(p: Page): (v: View)
    ensures v == JoinFormView <==> !p.isJoined
    ensures v == LoaderView <==> p.isJoined && p.isLoading
    ensures v == RoomView <==> p.isJoined && !p.isLoading
  {
    if !p.isJoined then JoinFormView else if p.isLoading then LoaderView else RoomView
  }

  /** Whatever the fetch's outcome, the loader is gone afterwards: a joined page
      shows the room, holding the fetched record on success; a failure also
      leaves the redirect to `/rooms`. */
  lemma FetchEndsLoader(p: Page, resp: RoomResponse)
    ensures ViewOf(FetchRoomDone(p, resp)) != LoaderView
    ensures p.isJoined ==> ViewOf(FetchRoomDone(p, resp)) == RoomView
    ensures resp.RoomResolved? && resp.success ==> FetchRoomDone(p, resp).room == Some(resp.data)
    ensures !(resp.RoomResolved? && resp.success) ==> FetchRoomDone(p, resp).redirect == Some("/rooms")
  {
  }

  /** After the room info has reached a mounted page, the join form is never
      shown again, whatever else arrives. */
  lemma RoomInfoEndsJoinForm(s: Session, roomId: string, isPrivate: bool, users: seq<User>, later: seq<Inbound>)
    requires Subscribed(s)
    ensures ViewOf(DeliverAll(Deliver(s, RoomInfoEvent(roomId, isPrivate, users)).session, later).page) != JoinFormView
  {
    SubscribedPageReactsOnce(s, RoomInfoEvent(roomId, isPrivate, users));
    JoinedStaysJoined(Deliver(s, RoomInfoEvent(roomId, isPrivate, users)).session, later);
  }
}
