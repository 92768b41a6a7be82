/**
  The connection side of the socket service: the one module-level socket, its
  lazy creation, the reconnect rule applied when the socket is disconnected,
  the outbound messages, and `disconnect`, which also empties the registry.

  The transport itself is not modelled. Creating a socket, asking it to
  reconnect, emitting a message and closing it are recorded, in order, as
  actions of the client; the socket that `io()` would create is a parameter.
 */
module Connection {
  import opened Entities
  import opened Events

  /** The disconnect reason socket.io reports when the server closed the socket. */
  const ServerDisconnect: string := "io server disconnect"

  /** The disconnect reason socket.io reports when this client closed the socket. */
  const ClientDisconnect: string := "io client disconnect"

  /** A socket.io client socket: its identity, and the id the server assigned
      it once connected. */
  datatype Socket = Socket(handle: nat, id: Option<string>)

  /** The messages the client emits, with the event name each is sent under. */
  datatype Outbound =
    | JoinRoomMsg(joinRoomId: Option<string>, username: string)
    | SendMessageMsg(roomId: string, message: string)
    | FileInfoMsg(roomId: string, fileInfo: FileMeta)
    | SignalMsg(to: string, signal: string, from: string)
    | InviteMsg(roomId: string, targetSocketId: string)

  function OutboundName(m: Outbound): string {
    match m
    case JoinRoomMsg(_, _) => "joinRoom"
    case SendMessageMsg(_, _) => "sendMessage"
    case FileInfoMsg(_, _) => "fileInfo"
    case SignalMsg(_, _, _) => "p2pSignal"
    case InviteMsg(_, _) => "inviteToRoom"
  }

  /** What the client asks of the transport. */
  datatype Action = Open(handle: nat) | Emit(msg: Outbound) | Reconnect | Close(handle: nat)

  /** The module state: the socket (absent until first needed), the handler
      registry, and the transport actions taken so far. */
  datatype Client = Client(socket: Option<Socket>, registry: Registry, actions: seq<Action>)

  /** The state when the module is loaded. */
  function InitialClient(): (c: Client)
    ensures c.socket.None? && c.actions == []
    ensures forall k :: c.registry.Get(k) == []
  {
    Client(None, EmptyRegistry(), [])
  }

  /** The client after `initSocket`, and the socket it returns. */
  datatype Init = Init(client: Client, socket: Socket)

  /** `initSocket()`: an existing socket is returned unchanged; otherwise `created`
      becomes the socket and is opened. The registry is never touched, so
      handlers subscribed before the socket existed stay subscribed. */
  function InitSocket(c: Client, created: Socket): (r: Init)
    ensures c.socket.Some? ==> r == Init(c, c.socket.value)
    ensures c.socket.None? ==> r.socket == created && r.client.socket == Some(created)
    ensures r.client.registry == c.registry
    ensures c.socket.None? ==> r.client.actions == c.actions + [Open(created.handle)]
  {
    if c.socket.Some? then Init(c, c.socket.value)
    else Init(c.(socket := Some(created), actions := c.actions + [Open(created.handle)]), created)
  }

  /** Calling `initSocket` a second time, whatever socket `io()` would create,
      returns the first call's socket and changes nothing. */
  lemma InitSocketIdempotent(c: Client, created1: Socket, created2: Socket)
    ensures InitSocket(InitSocket(c, created1).client, created2) == InitSocket(c, created1)
  {
  }

  /** The reconnect rule of the `disconnect` listener: reconnect exactly when
      the server closed the socket. */
  predicate ShouldReconnect(reason: string) {
    reason == ServerDisconnect
  }

  /** Number of reconnect requests among `actions`. */
  function Reconnects(actions: seq<Action>): nat {
    if actions == [] then 0
    else Reconnects(actions[..|actions| - 1]) + (if actions[|actions| - 1] == Reconnect then 1 else 0)
  }

  /** The socket's `disconnect` event with the given reason. The closed socket
      loses its id, whatever the reason; a server-initiated disconnect also
      makes the client ask the socket to connect again, and any other reason is
      only logged. With no socket left (after `disconnect()`) the listener
      cannot call `connect` and nothing happens. */
  function OnDisconnect(c: Client, reason: string): (r: Client)
    ensures c.socket.Some? ==> r.socket == Some(c.socket.value.(id := None))
    ensures c.socket.None? ==> r == c
    ensures r.registry == c.registry
    ensures Reconnects(r.actions) == Reconnects(c.actions) + (if ShouldReconnect(reason) && c.socket.Some? then 1 else 0)
    ensures !ShouldReconnect(reason) ==> r.actions == c.actions
  {
    if c.socket.None? then c
    else
      var closed := c.(socket := Some(c.socket.value.(id := None)));
      if ShouldReconnect(reason) then
        assert (c.actions + [Reconnect])[..|c.actions|] == c.actions;
        closed.(actions := c.actions + [Reconnect])
      else closed
  }

  /** The socket's `connect` event: the server has assigned the socket its id. */
  function OnConnect(c: Client, id: string): (r: Client)
    ensures c.socket.Some? ==> r.socket == Some(c.socket.value.(id := Some(id)))
    ensures c.socket.None? ==> r == c
    ensures r.registry == c.registry && r.actions == c.actions
  {
    if c.socket.Some? then c.(socket := Some(c.socket.value.(id := Some(id)))) else c
  }

  /** `disconnect()`: with a socket, `socket.disconnect()` first runs the
      `disconnect` listener with "io client disconnect" while the socket is
      still set, then the socket is closed and forgotten and all nine handler
      lists are emptied; without one nothing changes and every subscribed
      handler stays subscribed. */
  function Disconnect(c: Client): (r: Client)
    ensures c.socket.None? ==> r == c
    ensures c.socket.Some? ==> r.socket.None? && r.actions == c.actions + [Close(c.socket.value.handle)]
    ensures c.socket.Some? ==> forall k :: r.registry.Get(k) == []
    ensures Reconnects(r.actions) == Reconnects(c.actions)
  {
    if c.socket.Some? then
      var notified := OnDisconnect(c, ClientDisconnect);
      assert (notified.actions + [Close(c.socket.value.handle)])[..|notified.actions|] == notified.actions;
      Client(None, EmptyRegistry(), notified.actions + [Close(c.socket.value.handle)])
    else c
  }

  /** The listener run by a disconnect this client asked for requests no
      reconnect, and it makes no difference to what `disconnect()` leaves; a
      second `disconnect()` does nothing. */
  lemma ClientDisconnectIsFinal(c: Client)
    ensures Reconnects(OnDisconnect(c, ClientDisconnect).actions) == Reconnects(c.actions)
    ensures Disconnect(OnDisconnect(c, ClientDisconnect)) == Disconnect(c)
    ensures Disconnect(Disconnect(c)) == Disconnect(c)
  {
  }

  /** `socket.emit(name, payload)`: recorded when there is a socket; with none
      the call would throw, which is `None`. */
  function Send(c: Client, m: Outbound): (r: Option<Client>)
    ensures r.Some? <==> c.socket.Some?
    ensures r.Some? ==> r.value == c.(actions := c.actions + [Emit(m)])
  {
    if c.socket.Some? then Some(c.(actions := c.actions + [Emit(m)])) else None
  }

  /** `joinRoom(params)`: creates the socket when there is none, then emits the
      request; it never fails. */
  function JoinRoom(c: Client, roomId: Option<string>, username: string, created: Socket): (r: Client)
    ensures r.socket.Some? && r.registry == c.registry
    ensures r.actions == InitSocket(c, created).client.actions + [Emit(JoinRoomMsg(roomId, username))]
  {
    var ready := InitSocket(c, created).client;
    ready.(actions := ready.actions + [Emit(JoinRoomMsg(roomId, username))])
  }

  /** `sendMessage(roomId, message)`: one `sendMessage` emit carrying both
      arguments; it throws without a socket. */
  function SendMessage(c: Client, roomId: string, message: string): (r: Option<Client>)
    ensures r.Some? <==> c.socket.Some?
    ensures r.Some? ==> r.value.socket == c.socket && r.value.registry == c.registry
    ensures r.Some? ==> r.value.actions == c.actions + [Emit(SendMessageMsg(roomId, message))]
    ensures r.Some? ==> OutboundName(r.value.actions[|c.actions|].msg) == "sendMessage"
  {
    Send(c, SendMessageMsg(roomId, message))
  }

  /** `shareFileInfo(roomId, fileInfo)`: one emit under the name `fileInfo`
      carrying both arguments; it throws without a socket. */
  function ShareFileInfo(c: Client, roomId: string, fileInfo: FileMeta): (r: Option<Client>)
    ensures r.Some? <==> c.socket.Some?
    ensures r.Some? ==> r.value.socket == c.socket && r.value.registry == c.registry
    ensures r.Some? ==> r.value.actions == c.actions + [Emit(FileInfoMsg(roomId, fileInfo))]
    ensures r.Some? ==> OutboundName(r.value.actions[|c.actions|].msg) == "fileInfo"
  {
    Send(c, FileInfoMsg(roomId, fileInfo))
  }

  /** `sendSignal(to, signal, from)`: one `p2pSignal` emit carrying the three
      arguments; it throws without a socket. */
  function SendSignal(c: Client, to: string, signal: string, from: string): (r: Option<Client>)
    ensures r.Some? <==> c.socket.Some?
    ensures r.Some? ==> r.value.socket == c.socket && r.value.registry == c.registry
    ensures r.Some? ==> r.value.actions == c.actions + [Emit(SignalMsg(to, signal, from))]
    ensures r.Some? ==> OutboundName(r.value.actions[|c.actions|].msg) == "p2pSignal"
  {
    Send(c, SignalMsg(to, signal, from))
  }

  /** `inviteToRoom(roomId, targetSocketId)`: one `inviteToRoom` emit carrying
      both arguments; it throws without a socket. */
  function InviteToRoom(c: Client, roomId: string, targetSocketId: string): (r: Option<Client>)
    ensures r.Some? <==> c.socket.Some?
    ensures r.Some? ==> r.value.socket == c.socket && r.value.registry == c.registry
    ensures r.Some? ==> r.value.actions == c.actions + [Emit(InviteMsg(roomId, targetSocketId))]
    ensures r.Some? ==> OutboundName(r.value.actions[|c.actions|].msg) == "inviteToRoom"
  {
    Send(c, InviteMsg(roomId, targetSocketId))
  }

  /** The client after `getSocketId`, and the id it returns. */
  datatype IdQuery = IdQuery(client: Client, id: Option<string>)

  /** `getSocketId()`: creates the socket when there is none, then reads its id,
      which stays undefined until the server has accepted the connection. */
  function GetSocketId(c: Client, created: Socket): (r: IdQuery)
    ensures r.client == InitSocket(c, created).client
    ensures c.socket.Some? ==> r.id == c.socket.value.id
    ensures c.socket.None? ==> r.id == created.id
  {
    var init := InitSocket(c, created);
    IdQuery(init.client, init.socket.id)
  }

  /** Once the server has accepted the connection, `getSocketId` returns the id
      it assigned, and asking changes nothing. */
  lemma ConnectedIdIsReturned(c: Client, id: string, created: Socket)
    requires c.socket.Some?
    ensures GetSocketId(OnConnect(c, id), created) == IdQuery(OnConnect(c, id), Some(id))
  {
  }

  /** After any disconnect the id is undefined again until the next `connect`. */
  lemma DisconnectForgetsId(c: Client, reason: string, id: string, created: Socket)
    requires c.socket.Some?
    ensures GetSocketId(OnDisconnect(c, reason), created).id.None?
    ensures GetSocketId(OnConnect(OnDisconnect(c, reason), id), created).id == Some(id)
  {
  }
}
