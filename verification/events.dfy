/**
  The event side of the socket service: the closed set of inbound event kinds,
  the registry that keeps, for every kind, the handlers subscribed to it in
  subscription order, the notification policy that decides which events show
  a toast, and the fan-out of one inbound event to its handlers.

  Handlers are opaque identities: two handlers are the same exactly when their
  ids are equal, as two JavaScript functions are `===` exactly when they are
  the same object.
 */
module Events {
  import opened Entities

  /** The nine inbound event kinds the service listens for. */
  datatype EventKind =
    | RoomInfo | UserJoined | Message | NewFile | UserLeft
    | P2pSignal | RoomJoinError | RoomInvitation | InviteError

  /** The kinds in the order the registry object declares them. */
  const AllKinds: seq<EventKind> :=
    [RoomInfo, UserJoined, Message, NewFile, UserLeft, P2pSignal, RoomJoinError, RoomInvitation, InviteError]

  /** The wire name of a kind, which is also its key in the registry object. */
  function Name(k: EventKind): string {
    match k
    case RoomInfo => "roomInfo"
    case UserJoined => "userJoined"
    case Message => "message"
    case NewFile => "newFile"
    case UserLeft => "userLeft"
    case P2pSignal => "p2pSignal"
    case RoomJoinError => "roomJoinError"
    case RoomInvitation => "roomInvitation"
    case InviteError => "inviteError"
  }

  /** The kind an event name denotes, or `None` for a name outside the nine. */
  function Parse(name: string): Option<EventKind> {
    if name == "roomInfo" then Some(RoomInfo)
    else if name == "userJoined" then Some(UserJoined)
    else if name == "message" then Some(Message)
    else if name == "newFile" then Some(NewFile)
    else if name == "userLeft" then Some(UserLeft)
    else if name == "p2pSignal" then Some(P2pSignal)
    else if name == "roomJoinError" then Some(RoomJoinError)
    else if name == "roomInvitation" then Some(RoomInvitation)
    else if name == "inviteError" then Some(InviteError)
    else None
  }

  /** A name denotes a kind exactly when it is that kind's wire name. */
  lemma ParseInvertsName(name: string)
    ensures Parse(name).Some? ==> Name(Parse(name).value) == name
    ensures Parse(name).None? ==> forall k :: Name(k) != name
  {
  }

  /** Every wire name parses back to its kind. */
  lemma ParseName(k: EventKind)
    ensures Parse(Name(k)) == Some(k)
  {
    match k
    case RoomInfo =>
    case UserJoined =>
    case Message =>
    case NewFile =>
    case UserLeft =>
    case P2pSignal =>
    case RoomJoinError =>
    case RoomInvitation =>
    case InviteError =>
  }

  /** Names and kinds are in one-to-one correspondence, and `AllKinds` lists
      each of the nine kinds exactly once. */
  lemma KindsAreClosed()
    ensures forall k :: Parse(Name(k)) == Some(k)
    ensures forall k :: k in AllKinds
    ensures |AllKinds| == 9
    ensures forall i, j :: 0 <= i < j < |AllKinds| ==> AllKinds[i] != AllKinds[j]
  {
    forall k ensures Parse(Name(k)) == Some(k) && k in AllKinds {
      ParseName(k);
    }
  }

  /** The identity of a subscribed callback. */
  type HandlerId = nat

  /** The registry object: one handler list per kind, so every one of the nine
      kinds always has a list, empty or not. */
  datatype Registry = Registry(
    roomInfo: seq<HandlerId>, userJoined: seq<HandlerId>, message: seq<HandlerId>,
    newFile: seq<HandlerId>, userLeft: seq<HandlerId>, p2pSignal: seq<HandlerId>,
    roomJoinError: seq<HandlerId>, roomInvitation: seq<HandlerId>, inviteError: seq<HandlerId>)
  {
    /** `eventHandlers[k]`. */
    function Get(k: EventKind): seq<HandlerId> {
      match k
      case RoomInfo => roomInfo
      case UserJoined => userJoined
      case Message => message
      case NewFile => newFile
      case UserLeft => userLeft
      case P2pSignal => p2pSignal
      case RoomJoinError => roomJoinError
      case RoomInvitation => roomInvitation
      case InviteError => inviteError
    }

    /** `eventHandlers[k] = hs`: kind `k` gets `hs`, every other kind keeps its list. */
    function Set(k: EventKind, hs: seq<HandlerId>): (r: Registry)
      ensures r.Get(k) == hs
      ensures forall k' :: k' != k ==> r.Get(k') == Get(k')
    {
      match k
      case RoomInfo => this.(roomInfo := hs)
      case UserJoined => this.(userJoined := hs)
      case Message => this.(message := hs)
      case NewFile => this.(newFile := hs)
      case UserLeft => this.(userLeft := hs)
      case P2pSignal => this.(p2pSignal := hs)
      case RoomJoinError => this.(roomJoinError := hs)
      case RoomInvitation => this.(roomInvitation := hs)
      case InviteError => this.(inviteError := hs)
    }
  }

  /** Two registries are equal when every kind has the same list in both. */
  lemma RegistryExtensionality(a: Registry, b: Registry)
    requires forall k :: a.Get(k) == b.Get(k)
    ensures a == b
  {
    assert a.Get(RoomInfo) == b.Get(RoomInfo) && a.Get(UserJoined) == b.Get(UserJoined);
    assert a.Get(Message) == b.Get(Message) && a.Get(NewFile) == b.Get(NewFile);
    assert a.Get(UserLeft) == b.Get(UserLeft) && a.Get(P2pSignal) == b.Get(P2pSignal);
    assert a.Get(RoomJoinError) == b.Get(RoomJoinError) && a.Get(RoomInvitation) == b.Get(RoomInvitation);
    assert a.Get(InviteError) == b.Get(InviteError);
  }

  /** The registry at module load: every kind present with no handlers. */
  function EmptyRegistry(): (r: Registry)
    ensures forall k :: r.Get(k) == []
  {
    Registry([], [], [], [], [], [], [], [], [])
  }

  /** `on(name, h)`: a known name gets `h` appended to the end of its list;
      an unknown name is rejected and nothing changes. */
  function On(reg: Registry, name: string, h: HandlerId): (r: Registry)
    ensures Parse(name).None? ==> r == reg
    ensures Parse(name).Some? ==> r.Get(Parse(name).value) == reg.Get(Parse(name).value) + [h]
    ensures forall k :: Parse(name) != Some(k) ==> r.Get(k) == reg.Get(k)
  {
    match Parse(name)
    case None => reg
    case Some(k) => reg.Set(k, reg.Get(k) + [h])
  }

  /** `s` with every occurrence of `h` filtered out, the rest in order. */
  function Without(s: seq<HandlerId>, h: HandlerId): (r: seq<HandlerId>)
    ensures h !in r
    ensures forall x :: x != h ==> multiset(r)[x] == multiset(s)[x]
    ensures h !in s ==> r == s
  {
    if s == [] then []
    else
      assert s == [s[0]] + s[1..];
      if s[0] == h then Without(s[1..], h) else [s[0]] + Without(s[1..], h)
  }

  /** Filtering distributes over concatenation, so the handlers that remain
      keep their relative order. */
  lemma {:induction false} WithoutAppend(a: seq<HandlerId>, b: seq<HandlerId>, h: HandlerId)
    ensures Without(a + b, h) == Without(a, h) + Without(b, h)
  {
    if a != [] {
      assert (a + b)[1..] == a[1..] + b;
      WithoutAppend(a[1..], b, h);
    } else {
      assert a + b == b;
    }
  }

  /** `off(name, h)`: a known name has every occurrence of `h` removed from its
      list; an unknown name is rejected and nothing changes. */
  function Off(reg: Registry, name: string, h: HandlerId): (r: Registry)
    ensures Parse(name).None? ==> r == reg
    ensures Parse(name).Some? ==> r.Get(Parse(name).value) == Without(reg.Get(Parse(name).value), h)
    ensures forall k :: Parse(name) != Some(k) ==> r.Get(k) == reg.Get(k)
  {
    match Parse(name)
    case None => reg
    case Some(k) => reg.Set(k, Without(reg.Get(k), h))
  }

  /** Subscribing a handler that was not yet subscribed to that kind, then
      unsubscribing it, gives back the registry one started from. */
  lemma OffUndoesOn(reg: Registry, name: string, h: HandlerId)
    requires Parse(name).Some? ==> h !in reg.Get(Parse(name).value)
    ensures Off(On(reg, name, h), name, h) == reg
  {
    if Parse(name).Some? {
      var k := Parse(name).value;
      WithoutAppend(reg.Get(k), [h], h);
      assert Without([h], h) == [];
      assert Off(On(reg, name, h), name, h).Get(k) == reg.Get(k);
    }
  }

  /** Unsubscribing removes every copy: a handler subscribed twice is gone
      after one `off`, and so are copies that were there before. */
  lemma OffRemovesAllCopies(reg: Registry, k: EventKind, h: HandlerId)
    ensures h !in Off(On(On(reg, Name(k), h), Name(k), h), Name(k), h).Get(k)
  {
    KindsAreClosed();
  }

  /** A (kind name, handler) pair as passed to `on` and `off`. */
  datatype Subscription = Subscription(name: string, handler: HandlerId)

  /** Calling `on` for each pair in turn. */
  function OnAll(reg: Registry, subs: seq<Subscription>): Registry
    decreases |subs|
  {
    if subs == [] then reg else OnAll(On(reg, subs[0].name, subs[0].handler), subs[1..])
  }

  /** Calling `off` for each pair in turn. */
  function OffAll(reg: Registry, subs: seq<Subscription>): Registry
    decreases |subs|
  {
    if subs == [] then reg else OffAll(Off(reg, subs[0].name, subs[0].handler), subs[1..])
  }

  /** The handlers among `subs` whose name denotes kind `k`, in order. */
  function HandlersFor(subs: seq<Subscription>, k: EventKind): (hs: seq<HandlerId>)
    ensures |hs| <= |subs|
    decreases |subs|
  {
    if subs == [] then []
    else (if Parse(subs[0].name) == Some(k) then [subs[0].handler] else []) + HandlersFor(subs[1..], k)
  }

  /** The handlers of a non-empty list: the first one's contribution, then the rest. */
  lemma HandlersForCons(subs: seq<Subscription>, k: EventKind)
    requires subs != []
    ensures HandlersFor(subs, k) ==
      (if Parse(subs[0].name) == Some(k) then [subs[0].handler] else []) + HandlersFor(subs[1..], k)
  {
  }

  /** Every handler listed for a kind comes from one of the pairs. */
  lemma {:induction false} HandlersForFrom(subs: seq<Subscription>, k: EventKind, h: HandlerId)
    requires h in HandlersFor(subs, k)
    ensures exists i :: 0 <= i < |subs| && subs[i].handler == h
    decreases |subs|
  {
    HandlersForCons(subs, k);
    if !(Parse(subs[0].name) == Some(k) && h == subs[0].handler) {
      HandlersForFrom(subs[1..], k, h);
      var i :| 0 <= i < |subs[1..]| && subs[1..][i].handler == h;
      assert subs[i + 1].handler == h;
    }
  }

  /** The handlers of a concatenation are those of its two parts. */
  lemma {:induction false} HandlersForAppend(a: seq<Subscription>, b: seq<Subscription>, k: EventKind)
    ensures HandlersFor(a + b, k) == HandlersFor(a, k) + HandlersFor(b, k)
    decreases |a|
  {
    if a == [] {
      assert a + b == b;
    } else {
      HandlersForCons(a + b, k);
      HandlersForCons(a, k);
      assert (a + b)[0] == a[0];
      assert (a + b)[1..] == a[1..] + b;
      HandlersForAppend(a[1..], b, k);
    }
  }

  /** Removing the handlers `hs` one after another. */
  function WithoutAll(s: seq<HandlerId>, hs: seq<HandlerId>): seq<HandlerId>
    decreases |hs|
  {
    if hs == [] then s else WithoutAll(Without(s, hs[0]), hs[1..])
  }

  /** After subscribing a list of pairs, each kind's list is its old list
      followed by that kind's new handlers in the order they were subscribed. */
  lemma {:induction false} OnAllAppends(reg: Registry, subs: seq<Subscription>, k: EventKind)
    ensures OnAll(reg, subs).Get(k) == reg.Get(k) + HandlersFor(subs, k)
    decreases |subs|
  {
    if subs != [] {
      var reg' := On(reg, subs[0].name, subs[0].handler);
      OnAllAppends(reg', subs[1..], k);
      if Parse(subs[0].name) == Some(k) {
        assert reg'.Get(k) == reg.Get(k) + [subs[0].handler];
      }
    }
  }

  /** After unsubscribing a list of pairs, each kind's list is its old list
      without that kind's handlers among the pairs. */
  lemma {:induction false} OffAllRemoves(reg: Registry, subs: seq<Subscription>, k: EventKind)
    ensures OffAll(reg, subs).Get(k) == WithoutAll(reg.Get(k), HandlersFor(subs, k))
    decreases |subs|
  {
    if subs != [] {
      var reg' := Off(reg, subs[0].name, subs[0].handler);
      OffAllRemoves(reg', subs[1..], k);
      if Parse(subs[0].name) == Some(k) {
        assert HandlersFor(subs, k) == [subs[0].handler] + HandlersFor(subs[1..], k);
      } else {
        assert HandlersFor(subs, k) == HandlersFor(subs[1..], k);
      }
    }
  }

  lemma HeadIsMember(c: seq<HandlerId>)
    requires c != []
    ensures c[0] in c
  {
  }

  /** Removing a list of handlers from `a + c`, where `a` holds none of them and
      every handler of `c` is among them, leaves exactly `a`. */
  lemma {:induction false} WithoutAllLeavesPrefix(a: seq<HandlerId>, c: seq<HandlerId>, hs: seq<HandlerId>)
    requires forall h :: h in hs ==> h !in a
    requires forall x :: x in c ==> x in hs
    ensures WithoutAll(a + c, hs) == a
    decreases |hs|
  {
    if hs == [] {
      if c != [] {
        HeadIsMember(c);
        assert false;
      }
    } else {
      WithoutAppend(a, c, hs[0]);
      var c' := Without(c, hs[0]);
      forall x | x in c' ensures x in hs[1..] {
        assert multiset(c')[x] == multiset(c)[x];
        assert x in hs && x != hs[0];
      }
      WithoutAllLeavesPrefix(a, c', hs[1..]);
    }
  }

  /** Unsubscribing exactly the pairs that were subscribed restores the registry,
      provided none of their handlers was already subscribed to any kind. */
  lemma OffAllUndoesOnAll(reg: Registry, subs: seq<Subscription>)
    requires forall i, k :: 0 <= i < |subs| ==> subs[i].handler !in reg.Get(k)
    ensures OffAll(OnAll(reg, subs), subs) == reg
  {
    var r := OffAll(OnAll(reg, subs), subs);
    forall k ensures r.Get(k) == reg.Get(k) {
      OnAllAppends(reg, subs, k);
      OffAllRemoves(OnAll(reg, subs), subs, k);
      var hs := HandlersFor(subs, k);
      forall h | h in hs ensures h !in reg.Get(k) {
        HandlersForFrom(subs, k, h);
      }
      WithoutAllLeavesPrefix(reg.Get(k), hs, hs);
    }
    RegistryExtensionality(r, reg);
  }

  /** An inbound event: its kind together with the payload fields the client reads. */
  datatype Inbound =
    | RoomInfoEvent(roomId: string, isPrivate: bool, users: seq<User>)
    | UserJoinedEvent(user: User, users: seq<User>)
    | MessageEvent(record: StreamRecord)
    | NewFileEvent(record: StreamRecord)
    | UserLeftEvent(username: string, users: seq<User>)
    | P2pSignalEvent(from: string, signal: string)
    | RoomJoinErrorEvent(message: string)
    | RoomInvitationEvent(inviter: string, roomId: string)
    | InviteErrorEvent(message: string)

  function KindOf(ev: Inbound): EventKind {
    match ev
    case RoomInfoEvent(_, _, _) => RoomInfo
    case UserJoinedEvent(_, _) => UserJoined
    case MessageEvent(_) => Message
    case NewFileEvent(_) => NewFile
    case UserLeftEvent(_, _) => UserLeft
    case P2pSignalEvent(_, _) => P2pSignal
    case RoomJoinErrorEvent(_) => RoomJoinError
    case RoomInvitationEvent(_, _) => RoomInvitation
    case InviteErrorEvent(_) => InviteError
  }

  datatype ToastLevel = ErrorToast | SuccessToast | InfoToast

  /** A notification shown to the user. */
  datatype Toast = Toast(level: ToastLevel, text: string)

  /** The notification policy applied to every inbound event before its handlers run. */
  function Notify(ev: Inbound): (t: Option<Toast>)
    ensures t.None? <==> KindOf(ev) in {Message, NewFile, P2pSignal}
    ensures t.Some? && t.value.level == ErrorToast <==> KindOf(ev) in {RoomJoinError, InviteError}
    ensures t.Some? && t.value.level == SuccessToast <==> KindOf(ev) == RoomInfo
    ensures ev.RoomJoinErrorEvent? || ev.InviteErrorEvent? ==> t.value.text == ev.message
    ensures ev.RoomInfoEvent? ==> t.value.text == "Joined room: " + ev.roomId
    ensures ev.UserJoinedEvent? ==> t.value.text == ev.user.username + " joined the room"
    ensures ev.UserLeftEvent? ==> t.value.text == ev.username + " left the room"
    ensures ev.RoomInvitationEvent? ==> t.value.text == "You've been invited to a room by " + ev.inviter
  {
    match ev
    case RoomJoinErrorEvent(message) => Some(Toast(ErrorToast, message))
    case InviteErrorEvent(message) => Some(Toast(ErrorToast, message))
    case RoomInfoEvent(roomId, _, _) => Some(Toast(SuccessToast, "Joined room: " + roomId))
    case UserJoinedEvent(user, _) => Some(Toast(InfoToast, user.username + " joined the room"))
    case UserLeftEvent(username, _) => Some(Toast(InfoToast, username + " left the room"))
    case RoomInvitationEvent(inviter, _) => Some(Toast(InfoToast, "You've been invited to a room by " + inviter))
    case MessageEvent(_) => None
    case NewFileEvent(_) => None
    case P2pSignalEvent(_, _) => None
  }

  /** One handler call made while dispatching an event. */
  datatype Invocation = Invocation(handler: HandlerId, data: Inbound)

  /** What dispatching one event does: the toast it shows, then the handler
      calls it makes, in order. */
  datatype Delivery = Delivery(toast: Option<Toast>, calls: seq<Invocation>)

  /** `handlers.forEach(handler => handler(data))`. */
  function FanOut(hs: seq<HandlerId>, ev: Inbound): (calls: seq<Invocation>)
    ensures |calls| == |hs|
    ensures forall i :: 0 <= i < |hs| ==> calls[i] == Invocation(hs[i], ev)
  {
    if hs == [] then [] else [Invocation(hs[0], ev)] + FanOut(hs[1..], ev)
  }

  /** Dispatching an inbound event: the toast of the notification policy, then
      one call of every handler subscribed to the event's kind, in subscription
      order, each receiving the same payload. */
  function Dispatch(reg: Registry, ev: Inbound): (d: Delivery)
    ensures d.toast == Notify(ev)
    ensures |d.calls| == |reg.Get(KindOf(ev))|
    ensures forall i :: 0 <= i < |d.calls| ==> d.calls[i].handler == reg.Get(KindOf(ev))[i] && d.calls[i].data == ev
  {
    Delivery(Notify(ev), FanOut(reg.Get(KindOf(ev)), ev))
  }

  /** Number of occurrences of `h` in a handler list. */
  function Count(s: seq<HandlerId>, h: HandlerId): nat {
    multiset(s)[h]
  }

  /** Number of calls of handler `h` among `calls`. */
  function CallsOf(calls: seq<Invocation>, h: HandlerId): nat
    decreases |calls|
  {
    if calls == [] then 0 else (if calls[0].handler == h then 1 else 0) + CallsOf(calls[1..], h)
  }

  /** A handler is called once for each time it is subscribed to the event's kind. */
  lemma {:induction false} CallsMatchSubscriptions(hs: seq<HandlerId>, ev: Inbound, h: HandlerId)
    ensures CallsOf(FanOut(hs, ev), h) == Count(hs, h)
    decreases |hs|
  {
    if hs != [] {
      assert hs == [hs[0]] + hs[1..];
      assert multiset(hs) == multiset([hs[0]]) + multiset(hs[1..]);
      var calls := FanOut(hs, ev);
      assert calls[1..] == FanOut(hs[1..], ev);
      CallsMatchSubscriptions(hs[1..], ev, h);
    }
  }

  /** After `off(k, h)` an event of kind `k` never reaches `h`, while every other
      handler is called as often as before. */
  lemma UnsubscribedIsNotCalled(reg: Registry, ev: Inbound, h: HandlerId, other: HandlerId)
    requires other != h
    ensures CallsOf(Dispatch(Off(reg, Name(KindOf(ev)), h), ev).calls, h) == 0
    ensures CallsOf(Dispatch(Off(reg, Name(KindOf(ev)), h), ev).calls, other)
         == CallsOf(Dispatch(reg, ev).calls, other)
  {
    KindsAreClosed();
    var k := KindOf(ev);
    var reg' := Off(reg, Name(k), h);
    CallsMatchSubscriptions(reg'.Get(k), ev, h);
    CallsMatchSubscriptions(reg'.Get(k), ev, other);
    CallsMatchSubscriptions(reg.Get(k), ev, other);
  }

  /** Subscribing under an unknown name has no effect on any later dispatch. */
  lemma UnknownNameIsHarmless(reg: Registry, name: string, h: HandlerId, ev: Inbound)
    requires Parse(name).None?
    ensures Dispatch(On(reg, name, h), ev) == Dispatch(reg, ev)
  {
  }
}
