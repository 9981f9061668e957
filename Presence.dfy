/** What the two chat hubs share: the registry entry, the caller's context, the events a hub
    pushes to clients, and the connect and online-list logic, which both hubs implement with
    the same code. */
module Presence {
  import opened Common

  /** ConnectedUser: one entry of the static registry. */
  datatype ConnectedUser = ConnectedUser(
    userId: Option<string>,
    connectionId: Option<string>,
    username: Option<string>,
    connectedAt: int,
    isOnline: bool)

  /** The registry: user id to entry. A hub object holds it as a field; in the hub it is a
      static dictionary shared by every connection. */
  type Registry = map<string, ConnectedUser>

  /** What an invocation knows about its caller: Context.ConnectionId and the values of the
      NameIdentifier and Name claims (absent when the identity has no such claim). */
  datatype HubCaller = HubCaller(connectionId: string, userId: Option<string>, userName: Option<string>)

  /** Whom a push is addressed to: Clients.All, Clients.Others (everyone but the caller's
      connection), Clients.Client(id), Clients.Caller. */
  datatype Target = All | Others(callerConnection: string) | Client(connectionId: string) | Caller(connectionId: string)

  /** An element of the OnlineUsers payload. */
  datatype OnlineUser = OnlineUser(userId: Option<string>, username: Option<string>, isOnline: bool)

  /** TypingStatus, the argument of UserTyping in the later hub. */
  datatype TypingStatus = TypingStatus(
    senderId: string,
    receiverId: string,
    isTyping: bool,
    conversationId: Option<int>,
    username: Option<string>)

  /** PrivateMessageDTO, the argument of SendPrivateMessage in the later hub: the hub reads only
      RecipientId and passes the rest on untouched (`body`). */
  datatype PrivateMessageDTO = PrivateMessageDTO(recipientId: string, body: string)

  /** The arguments of a push. */
  datatype Payload =
    | UserPresence(userId: string, username: string, isOnline: bool)
    | UserIdArg(userId: string)
    | Opaque(content: string)
    | PrivateMessage(message: PrivateMessageDTO)
    | PrivateData(senderId: string, senderName: Option<string>, text: string, timestamp: int)
    | Typing(status: TypingStatus)
    | TypingArgs(user: string, isTyping: bool)
    | OnlineUsers(users: set<OnlineUser>)

  /** One `SendAsync(name, payload)` on a target. */
  datatype Event = Event(target: Target, name: string, payload: Payload)

  const UserConnectedEvent := "UserConnected"
  const UserDisconnectedEvent := "UserDisconnected"
  const ReceiveMessageEvent := "ReceiveMessage"
  const ReceivePrivateMessageEvent := "ReceivePrivateMessage"
  const UserTypingStatusEvent := "UserTypingStatus"
  const OnlineUsersEvent := "OnlineUsers"

  /** The name a new entry gets: the Name claim, or "Anonymous". */
  function DisplayName(caller: HubCaller): string
  {
    caller.userName.GetOr("Anonymous")
  }

  /** Every entry is stored under its own user id. */
  ghost predicate WellKeyed(users: Registry)
  {
    forall k :: k in users ==> users[k].userId == Some(k)
  }

  /** The registry after OnConnectedAsync: `AddOrUpdate` inserts a fresh entry, or overwrites the
      connection id and the online flag of the existing one. An identity without a user id
      leaves the registry alone. */
  function ConnectRegistry(users: Registry, caller: HubCaller, now: int): (r: Registry)
    ensures caller.userId.None? ==> r == users
    ensures caller.userId.Some? ==>
      var id := caller.userId.value;
      && r.Keys == users.Keys + {id}
      && (forall k :: k in users && k != id ==> r[k] == users[k])
      && r[id].connectionId == Some(caller.connectionId)
      && r[id].isOnline
      && (id in users ==>
            r[id].username == users[id].username && r[id].connectedAt == users[id].connectedAt
            && r[id].userId == users[id].userId)
      && (id !in users ==>
            r[id].username == Some(DisplayName(caller)) && r[id].connectedAt == now
            && r[id].userId == Some(id))
  {
    if caller.userId.None? then users
    else
      var id := caller.userId.value;
      if id in users then users[id := users[id].(connectionId := Some(caller.connectionId), isOnline := true)]
      else users[id := ConnectedUser(Some(id), Some(caller.connectionId), Some(DisplayName(caller)), now, true)]
  }

  /** The pushes of OnConnectedAsync: one UserConnected to everybody but the caller, naming the
      caller's claim name (not the name kept in a reused entry); none without a user id. */
  function ConnectEvents(caller: HubCaller): (r: seq<Event>)
    ensures caller.userId.None? ==> r == []
    ensures caller.userId.Some? ==>
      r == [Event(Others(caller.connectionId), UserConnectedEvent,
                  UserPresence(caller.userId.value, DisplayName(caller), true))]
  {
    if caller.userId.None? then []
    else [Event(Others(caller.connectionId), UserConnectedEvent,
                UserPresence(caller.userId.value, DisplayName(caller), true))]
  }

  /** The pushes of OnDisconnectedAsync, the same in both hubs: one UserDisconnected to the
      others when the caller has an entry, nothing otherwise. */
  function DisconnectEvents(users: Registry, caller: HubCaller): (r: seq<Event>)
    ensures (caller.userId.None? || caller.userId.value !in users) <==> r == []
    ensures caller.userId.Some? && caller.userId.value in users ==>
      r == [Event(Others(caller.connectionId), UserDisconnectedEvent, UserIdArg(caller.userId.value))]
  {
    if caller.userId.Some? && caller.userId.value in users then
      [Event(Others(caller.connectionId), UserDisconnectedEvent, UserIdArg(caller.userId.value))]
    else []
  }

  /** The sender id is missing or empty (`string.IsNullOrEmpty`). */
  predicate NoSender(caller: HubCaller)
  {
    caller.userId.None? || caller.userId.value == ""
  }

  /** Connecting keeps every entry under its own key. */
  lemma ConnectKeepsKeys(users: Registry, caller: HubCaller, now: int)
    requires WellKeyed(users)
    ensures WellKeyed(ConnectRegistry(users, caller, now))
  {
  }

  /** Last connect wins: after two connects of the same user from two connections, the entry
      names the second connection and is online. */
  lemma LastConnectWins(users: Registry, id: string, c1: HubCaller, c2: HubCaller, t1: int, t2: int)
    requires c1.userId == Some(id) && c2.userId == Some(id)
    ensures var r := ConnectRegistry(ConnectRegistry(users, c1, t1), c2, t2);
      id in r && r[id].connectionId == Some(c2.connectionId) && r[id].isOnline
  {
  }

  /** The OnlineUsers payload: every entry whose online flag is set, as (UserId, Username,
      IsOnline). The dictionary enumerates in no particular order, so this is a set. */
  function OnlineSnapshot(users: Registry): (r: set<OnlineUser>)
    ensures forall o :: o in r ==> o.isOnline
    ensures forall k :: k in users && users[k].isOnline ==>
      OnlineUser(users[k].userId, users[k].username, true) in r
    ensures forall o :: o in r ==>
      (exists k :: k in users && users[k].isOnline && o == OnlineUser(users[k].userId, users[k].username, true))
  {
    set k | k in users && users[k].isOnline :: OnlineUser(users[k].userId, users[k].username, users[k].isOnline)
  }

  /** In a well-keyed registry, a user whose entry is offline, or who has no entry, is not in
      the online list. */
  lemma OfflineNotListed(users: Registry, id: string)
    requires WellKeyed(users)
    requires id !in users || !users[id].isOnline
    ensures forall o :: o in OnlineSnapshot(users) ==> o.userId != Some(id)
  {
  }
}
