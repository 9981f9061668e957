/** The earlier chat hub, which keeps a user's registry entry on disconnect and only marks it
    offline. A hub object stands for the static `ConnectedUsers` dictionary together with the
    pushes sent so far; each hub invocation is one method call. */
module RetainingHub {
  import opened Common
  import opened Presence

  /** The registry after OnDisconnectedAsync: the caller's entry stays, marked offline. */
  function Disconnect(users: Registry, caller: HubCaller): (r: Registry)
    ensures r.Keys == users.Keys
    ensures forall k :: k in users && Some(k) != caller.userId ==> r[k] == users[k]
    ensures caller.userId.Some? && caller.userId.value in users ==>
      r[caller.userId.value] == users[caller.userId.value].(isOnline := false)
  {
    if caller.userId.Some? && caller.userId.value in users then
      users[caller.userId.value := users[caller.userId.value].(isOnline := false)]
    else users
  }

  /** The payload of a private message: the sender id, the Username of the sender's entry (null
      without an entry), the text unchanged, and the time. */
  function PrivatePayload(users: Registry, senderId: string, message: string, now: int): (p: Payload)
    ensures p.PrivateData? && p.senderId == senderId && p.text == message && p.timestamp == now
    ensures senderId !in users ==> p.senderName.None?
    ensures senderId in users ==> p.senderName == users[senderId].username
  {
    PrivateData(senderId, if senderId in users then users[senderId].username else None, message, now)
  }

  /** The pushes of SendPrivateMessage: the payload to the connection the recipient's entry
      names, online or not, and an echo to the caller; nothing when the sender is unknown or the
      recipient has no entry. */
  function PrivateEvents(users: Registry, caller: HubCaller, recipientUserId: string, message: string, now: int): (r: seq<Event>)
    ensures (NoSender(caller) || recipientUserId !in users) <==> r == []
    ensures r != [] ==>
      var p := PrivatePayload(users, caller.userId.value, message, now);
      && |r| == 2
      && r[0] == Event(Client(users[recipientUserId].connectionId.GetOr("")), ReceivePrivateMessageEvent, p)
      && r[1] == Event(Caller(caller.connectionId), ReceivePrivateMessageEvent, p)
  {
    if NoSender(caller) then []
    else if recipientUserId in users then
      var p := PrivatePayload(users, caller.userId.value, message, now);
      [Event(Client(users[recipientUserId].connectionId.GetOr("")), ReceivePrivateMessageEvent, p),
       Event(Caller(caller.connectionId), ReceivePrivateMessageEvent, p)]
    else []
  }

  class ChatHub {
    var connectedUsers: Registry
    var outbox: seq<Event>

    ghost predicate Valid()
      reads this
    {
      WellKeyed(connectedUsers)
    }

    constructor ()
      ensures Valid() && connectedUsers == map[] && outbox == []
    {
      connectedUsers := map[];
      outbox := [];
    }

    method OnConnected(caller: HubCaller, now: int)
      requires Valid()
      modifies this
      ensures Valid()
      ensures connectedUsers == ConnectRegistry(old(connectedUsers), caller, now)
      ensures outbox == old(outbox) + ConnectEvents(caller)
    {
      if caller.userId.Some? {
        var userId := caller.userId.value;
        var connectedUser := ConnectedUser(Some(userId), Some(caller.connectionId),
                                           Some(caller.userName.GetOr("Anonymous")), now, true);
        if userId in connectedUsers {
          var oldValue := connectedUsers[userId];
          connectedUsers := connectedUsers[userId := oldValue.(connectionId := Some(caller.connectionId), isOnline := true)];
        } else {
          connectedUsers := connectedUsers[userId := connectedUser];
        }
        outbox := outbox + [Event(Others(caller.connectionId), UserConnectedEvent,
                                  UserPresence(userId, connectedUser.username.value, true))];
      }
    }

    method OnDisconnected(caller: HubCaller)
      requires Valid()
      modifies this
      ensures Valid()
      ensures connectedUsers == Disconnect(old(connectedUsers), caller)
      ensures outbox == old(outbox) + DisconnectEvents(old(connectedUsers), caller)
    {
      if caller.userId.Some? && caller.userId.value in connectedUsers {
        var userId := caller.userId.value;
        var user := connectedUsers[userId];
        connectedUsers := connectedUsers[userId := user.(isOnline := false)];
        outbox := outbox + [Event(Others(caller.connectionId), UserDisconnectedEvent, UserIdArg(userId))];
      }
    }

    /** SendMessage: the message goes to every connection, the caller's included. */
    method SendMessage(caller: HubCaller, message: string)
      requires Valid()
      modifies this
      ensures Valid()
      ensures connectedUsers == old(connectedUsers)
      ensures outbox == old(outbox) + [Event(All, ReceiveMessageEvent, Opaque(message))]
    {
      outbox := outbox + [Event(All, ReceiveMessageEvent, Opaque(message))];
    }

    method SendPrivateMessage(caller: HubCaller, recipientUserId: string, message: string, now: int)
      requires Valid()
      modifies this
      ensures Valid()
      ensures connectedUsers == old(connectedUsers)
      ensures outbox == old(outbox) + PrivateEvents(old(connectedUsers), caller, recipientUserId, message, now)
    {
      if caller.userId.None? || caller.userId.value == "" {
        return;
      }
      var senderId := caller.userId.value;
      if recipientUserId in connectedUsers {
        var recipient := connectedUsers[recipientUserId];
        var senderName := if senderId in connectedUsers then connectedUsers[senderId].username else None;
        var messageData := PrivateData(senderId, senderName, message, now);
        outbox := outbox + [Event(Client(recipient.connectionId.GetOr("")), ReceivePrivateMessageEvent, messageData)];
        outbox := outbox + [Event(Caller(caller.connectionId), ReceivePrivateMessageEvent, messageData)];
      }
    }

    /** UserTyping: the (user, flag) pair goes to every connection. */
    method UserTyping(caller: HubCaller, userId: string, isTyping: bool)
      requires Valid()
      modifies this
      ensures Valid()
      ensures connectedUsers == old(connectedUsers)
      ensures outbox == old(outbox) + [Event(All, UserTypingStatusEvent, TypingArgs(userId, isTyping))]
    {
      outbox := outbox + [Event(All, UserTypingStatusEvent, TypingArgs(userId, isTyping))];
    }

    /** GetOnlineUsers: the online entries go to the caller only. */
    method GetOnlineUsers(caller: HubCaller)
      requires Valid()
      modifies this
      ensures Valid()
      ensures connectedUsers == old(connectedUsers)
      ensures outbox == old(outbox) + [Event(Caller(caller.connectionId), OnlineUsersEvent, OnlineUsers(OnlineSnapshot(connectedUsers)))]
    {
      var onlineUsers := set k | k in connectedUsers && connectedUsers[k].isOnline ::
        OnlineUser(connectedUsers[k].userId, connectedUsers[k].username, connectedUsers[k].isOnline);
      outbox := outbox + [Event(Caller(caller.connectionId), OnlineUsersEvent, OnlineUsers(onlineUsers))];
    }
  }

  // ---- Properties of the registry transitions ----

  /** Disconnect keeps entries under their own keys. */
  lemma DisconnectKeepsKeys(users: Registry, caller: HubCaller)
    requires WellKeyed(users)
    ensures WellKeyed(Disconnect(users, caller))
  {
  }

  /** After a disconnect the user's entry is still there but the online list omits the user. */
  lemma DisconnectedUserHiddenButRetained(users: Registry, caller: HubCaller)
    requires WellKeyed(users)
    requires caller.userId.Some? && caller.userId.value in users
    ensures caller.userId.value in Disconnect(users, caller)
    ensures forall o :: o in OnlineSnapshot(Disconnect(users, caller)) ==> o.userId != caller.userId
  {
    OfflineNotListed(Disconnect(users, caller), caller.userId.value);
  }

  /** Reconnecting after a disconnect sets the entry online again with the new connection, and
      keeps the name and connect time of the first connect. */
  lemma ReconnectAfterDisconnect(users: Registry, id: string, c1: HubCaller, c2: HubCaller, t1: int, t2: int)
    requires c1.userId == Some(id) && c2.userId == Some(id)
    ensures var first := ConnectRegistry(users, c1, t1);
      var again := ConnectRegistry(Disconnect(first, c1), c2, t2);
      && again[id].isOnline
      && again[id].connectionId == Some(c2.connectionId)
      && again[id].username == first[id].username
      && again[id].connectedAt == first[id].connectedAt
  {
  }

  /** As written: a retained offline recipient is still pushed to, at the connection it last
      used, and the sender gets the echo as if delivered. */
  lemma OfflineRecipientStillPushed(users: Registry, recipient: HubCaller, sender: HubCaller,
                                    message: string, t1: int, now: int)
    requires recipient.userId.Some? && !NoSender(sender)
    ensures var offline := Disconnect(ConnectRegistry(users, recipient, t1), recipient);
      var r := PrivateEvents(offline, sender, recipient.userId.value, message, now);
      && !offline[recipient.userId.value].isOnline
      && |r| == 2
      && r[0].target == Client(recipient.connectionId)
      && r[1].target == Caller(sender.connectionId)
  {
  }

  /** Corrected private message: the recipient's connection is used only while the entry is
      online; an offline recipient, like an unknown one, gets nothing and there is no echo. */
  function PrivateEventsIntended(users: Registry, caller: HubCaller, recipientUserId: string, message: string, now: int): (r: seq<Event>)
    ensures r == [] <==> (NoSender(caller) || recipientUserId !in users || !users[recipientUserId].isOnline)
    ensures r != [] ==> r == PrivateEvents(users, caller, recipientUserId, message, now)
  {
    if recipientUserId in users && users[recipientUserId].isOnline then PrivateEvents(users, caller, recipientUserId, message, now)
    else []
  }

  /** With the corrected lookup, a disconnected recipient receives nothing, while a connected
      one still receives the message at its current connection. */
  lemma IntendedSkipsOfflineRecipient(users: Registry, recipient: HubCaller, sender: HubCaller,
                                      message: string, t1: int, now: int)
    requires recipient.userId.Some? && !NoSender(sender)
    ensures var online := ConnectRegistry(users, recipient, t1);
      && PrivateEventsIntended(Disconnect(online, recipient), sender, recipient.userId.value, message, now) == []
      && PrivateEventsIntended(online, sender, recipient.userId.value, message, now)[0].target == Client(recipient.connectionId)
  {
  }
}
