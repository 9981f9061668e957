/** The chat hub that evicts a user's registry entry when that user disconnects. A hub
    object stands for the static `ConnectedUsers` dictionary together with the pushes sent so
    far; each hub invocation is one method call, run to completion before the next. */
module EvictingHub {
  import opened Common
  import opened Presence

  /** In this hub an entry exists only while its user is online: disconnect removes it. */
  ghost predicate AllOnline(users: Registry)
  {
    forall k :: k in users ==> users[k].isOnline
  }

  /** The registry after OnDisconnectedAsync: the caller's entry is removed, whichever
      connection it names. */
  function Disconnect(users: Registry, caller: HubCaller): (r: Registry)
    ensures caller.userId.None? ==> r == users
    ensures caller.userId.Some? ==> r == users - {caller.userId.value}
  {
    if caller.userId.Some? && caller.userId.value in users then users - {caller.userId.value}
    else users
  }

  /** The pushes of SendPrivateMessage: the message, unchanged, to the recipient's stored
      connection and back to the caller, provided the sender is known and the recipient has an
      entry; otherwise nothing. */
  function PrivateEvents(users: Registry, caller: HubCaller, message: PrivateMessageDTO): (r: seq<Event>)
    ensures (NoSender(caller) || message.recipientId !in users) <==> r == []
    ensures r != [] ==>
      && |r| == 2
      && r[0] == Event(Client(users[message.recipientId].connectionId.GetOr("")),
                       ReceivePrivateMessageEvent, PrivateMessage(message))
      && r[1] == Event(Caller(caller.connectionId), ReceivePrivateMessageEvent, PrivateMessage(message))
  {
    if NoSender(caller) then []
    else if message.recipientId in users then
      var recipient := users[message.recipientId];
      [Event(Client(recipient.connectionId.GetOr("")), ReceivePrivateMessageEvent, PrivateMessage(message)),
       Event(Caller(caller.connectionId), ReceivePrivateMessageEvent, PrivateMessage(message))]
    else []
  }

  class ChatHub {
    var connectedUsers: Registry
    var outbox: seq<Event>

    ghost predicate Valid()
      reads this
    {
      WellKeyed(connectedUsers) && AllOnline(connectedUsers)
    }

    constructor ()
      ensures Valid() && connectedUsers == map[] && outbox == []
    {
      connectedUsers := map[];
      outbox := [];
    }

    method OnConnected(caller: HubCaller, now: int)
      requires Valid()
      modifies this
      ensures Valid()
      ensures connectedUsers == ConnectRegistry(old(connectedUsers), caller, now)
      ensures outbox == old(outbox) + ConnectEvents(caller)
    {
      if caller.userId.Some? {
        var userId := caller.userId.value;
        var connectedUser := ConnectedUser(Some(userId), Some(caller.connectionId),
                                           Some(caller.userName.GetOr("Anonymous")), now, true);
        if userId in connectedUsers {
          var oldValue := connectedUsers[userId];
          connectedUsers := connectedUsers[userId := oldValue.(connectionId := Some(caller.connectionId), isOnline := true)];
        } else {
          connectedUsers := connectedUsers[userId := connectedUser];
        }
        outbox := outbox + [Event(Others(caller.connectionId), UserConnectedEvent,
                                  UserPresence(userId, connectedUser.username.value, true))];
      }
    }

    method OnDisconnected(caller: HubCaller)
      requires Valid()
      modifies this
      ensures Valid()
      ensures connectedUsers == Disconnect(old(connectedUsers), caller)
      ensures outbox == old(outbox) + DisconnectEvents(old(connectedUsers), caller)
    {
      if caller.userId.Some? && caller.userId.value in connectedUsers {
        var userId := caller.userId.value;
        outbox := outbox + [Event(Others(caller.connectionId), UserDisconnectedEvent, UserIdArg(userId))];
        connectedUsers := connectedUsers - {userId};
      }
    }

    /** SendMessage: the message goes to every connection, the caller's included. */
    method SendMessage(caller: HubCaller, message: string)
      requires Valid()
      modifies this
      ensures Valid()
      ensures connectedUsers == old(connectedUsers)
      ensures outbox == old(outbox) + [Event(All, ReceiveMessageEvent, Opaque(message))]
    {
      outbox := outbox + [Event(All, ReceiveMessageEvent, Opaque(message))];
    }

    method SendPrivateMessage(caller: HubCaller, message: PrivateMessageDTO)
      requires Valid()
      modifies this
      ensures Valid()
      ensures connectedUsers == old(connectedUsers)
      ensures outbox == old(outbox) + PrivateEvents(old(connectedUsers), caller, message)
    {
      if caller.userId.None? || caller.userId.value == "" {
        return;
      }
      if message.recipientId in connectedUsers {
        var recipient := connectedUsers[message.recipientId];
        outbox := outbox + [Event(Client(recipient.connectionId.GetOr("")), ReceivePrivateMessageEvent, PrivateMessage(message))];
        outbox := outbox + [Event(Caller(caller.connectionId), ReceivePrivateMessageEvent, PrivateMessage(message))];
      }
    }

    /** UserTyping: the status goes to every connection. */
    method UserTyping(caller: HubCaller, status: TypingStatus)
      requires Valid()
      modifies this
      ensures Valid()
      ensures connectedUsers == old(connectedUsers)
      ensures outbox == old(outbox) + [Event(All, UserTypingStatusEvent, Typing(status))]
    {
      outbox := outbox + [Event(All, UserTypingStatusEvent, Typing(status))];
    }

    /** GetOnlineUsers: the online entries go to the caller only. */
    method GetOnlineUsers(caller: HubCaller)
      requires Valid()
      modifies this
      ensures Valid()
      ensures connectedUsers == old(connectedUsers)
      ensures outbox == old(outbox) + [Event(Caller(caller.connectionId), OnlineUsersEvent, OnlineUsers(OnlineSnapshot(connectedUsers)))]
    {
      var onlineUsers := set k | k in connectedUsers && connectedUsers[k].isOnline ::
        OnlineUser(connectedUsers[k].userId, connectedUsers[k].username, connectedUsers[k].isOnline);
      outbox := outbox + [Event(Caller(caller.connectionId), OnlineUsersEvent, OnlineUsers(onlineUsers))];
    }
  }

  // ---- Properties of the registry transitions ----

  /** Connect and disconnect keep the hub's invariant: entries are under their own key and online. */
  lemma TransitionsKeepInvariant(users: Registry, caller: HubCaller, now: int)
    requires WellKeyed(users) && AllOnline(users)
    ensures WellKeyed(ConnectRegistry(users, caller, now)) && AllOnline(ConnectRegistry(users, caller, now))
    ensures WellKeyed(Disconnect(users, caller)) && AllOnline(Disconnect(users, caller))
  {
  }

  /** Here the online list is the whole registry: every entry is listed, and every listed
      user has an entry. */
  lemma OnlineListIsWholeRegistry(users: Registry)
    requires WellKeyed(users) && AllOnline(users)
    ensures forall k :: k in users ==> OnlineUser(Some(k), users[k].username, true) in OnlineSnapshot(users)
    ensures forall o :: o in OnlineSnapshot(users) ==> o.userId.Some? && o.userId.value in users
  {
    forall o | o in OnlineSnapshot(users)
      ensures o.userId.Some? && o.userId.value in users
    {
      var j :| j in users && users[j].isOnline && o == OnlineUser(users[j].userId, users[j].username, true);
      assert users[j].userId == Some(j);
    }
  }

  /** A user who disconnects is unreachable: private messages to them produce no pushes. */
  lemma DisconnectedUserUnreachable(users: Registry, caller: HubCaller, sender: HubCaller, message: PrivateMessageDTO)
    requires caller.userId == Some(message.recipientId)
    ensures PrivateEvents(Disconnect(users, caller), sender, message) == []
  {
  }

  /** As written: a disconnect of an older connection evicts the entry a newer connection of
      the same user put there. After connecting from `c1` and then from `c2`, the close of `c1`
      leaves no entry, so the user, still connected through `c2`, receives no private messages. */
  lemma StaleDisconnectEvictsNewerConnection(users: Registry, id: string, c1: HubCaller, c2: HubCaller,
                                             t1: int, t2: int, sender: HubCaller, message: PrivateMessageDTO)
    requires c1.userId == Some(id) && c2.userId == Some(id) && c1.connectionId != c2.connectionId
    requires message.recipientId == id
    ensures var before := ConnectRegistry(ConnectRegistry(users, c1, t1), c2, t2);
      && before[id].connectionId == Some(c2.connectionId)
      && id !in Disconnect(before, c1)
      && PrivateEvents(Disconnect(before, c1), sender, message) == []
  {
    LastConnectWins(users, id, c1, c2, t1, t2);
  }

  /** Corrected disconnect: the entry is removed only when it still names the closing
      connection, so a close of a superseded connection has no effect. */
  function DisconnectIntended(users: Registry, caller: HubCaller): (r: Registry)
    ensures r.Keys <= users.Keys
    ensures forall k :: k in r ==> r[k] == users[k]
    ensures forall k :: k in users && Some(k) != caller.userId ==> k in r
    ensures caller.userId.Some? && caller.userId.value in users ==>
      (caller.userId.value in r <==> users[caller.userId.value].connectionId != Some(caller.connectionId))
  {
    if caller.userId.Some? && caller.userId.value in users
       && users[caller.userId.value].connectionId == Some(caller.connectionId)
    then users - {caller.userId.value}
    else users
  }

  /** With the corrected disconnect, the close of the older connection leaves the user reachable
      through the newer one, and the close of the newer one takes the entry away. */
  lemma IntendedDisconnectKeepsNewerConnection(users: Registry, id: string, c1: HubCaller, c2: HubCaller,
                                               t1: int, t2: int, sender: HubCaller, message: PrivateMessageDTO)
    requires c1.userId == Some(id) && c2.userId == Some(id) && c1.connectionId != c2.connectionId
    requires message.recipientId == id && !NoSender(sender)
    ensures var before := ConnectRegistry(ConnectRegistry(users, c1, t1), c2, t2);
      && PrivateEvents(DisconnectIntended(before, c1), sender, message)[0].target == Client(c2.connectionId)
      && id !in DisconnectIntended(before, c2)
  {
    LastConnectWins(users, id, c1, c2, t1, t2);
  }
}
