/** The object-mapper profile: each configured map as a total function. Members the profile
    does not configure are mapped by name, as the mapper's conventions do; members with no
    counterpart keep their defaults. */
module MessageMapping {
  import opened Common
  import opened Entities

  /** ApplicationUser to UserDTO: the id becomes UserId, a null name or avatar becomes "". */
  function UserToDto(u: ApplicationUser): UserDTO
  {
    EmptyUserDTO.(
      userId := Some(u.id),
      userName := Some(u.userName.GetOr("")),
      avatar := Some(u.avatar.GetOr("")),
      lastActive := u.lastActive)
  }

  /** UserDTO to ApplicationUser: a null UserId becomes the id "". */
  function DtoToUser(d: UserDTO): ApplicationUser
  {
    ApplicationUser(
      id := d.userId.GetOr(""),
      userName := Some(d.userName.GetOr("")),
      email := None,
      phoneNumber := None,
      fullName := None,
      avatar := Some(d.avatar.GetOr("")),
      lastActive := d.lastActive,
      isActive := false)
  }

  /** Message to MessageDTO; `sender` is the loaded Sender navigation, if any. */
  function MessageToDto(m: Message, sender: Option<ApplicationUser>): MessageDTO
  {
    MessageDTO(
      messageId := m.messageId,
      conversationId := m.conversationId,
      content := Some(m.content),
      messageType := Some(m.messageType),
      createdAt := m.createdAt,
      modifiedAt := m.modifiedAt,
      senderId := Some(m.senderId),
      sender := if sender.Some? then Some(UserToDto(sender.value)) else None)
  }

  /** MessageDTO to Message: null sender id and content become "", a null type becomes "text",
      and the message is never deleted. */
  function DtoToMessage(d: MessageDTO): Message
  {
    Message(
      messageId := d.messageId,
      conversationId := d.conversationId,
      senderId := d.senderId.GetOr(""),
      content := d.content.GetOr(""),
      messageType := d.messageType.GetOr("text"),
      createdAt := d.createdAt,
      modifiedAt := d.modifiedAt,
      isDeleted := false)
  }

  /** The Sender navigation the MessageDTO-to-Message map builds from the DTO's sender through
      the UserDTO-to-ApplicationUser map. The model's Message holds the columns only, so the
      navigation is this separate function. */
  function DtoToSender(d: MessageDTO): (u: Option<ApplicationUser>)
    ensures d.sender.None? <==> u.None?
    ensures u.Some? ==> u.value.id == d.sender.value.userId.GetOr("")
  {
    if d.sender.Some? then Some(DtoToUser(d.sender.value)) else None
  }

  /** One participant row built from a participant DTO at time `now`. */
  function ParticipantRow(p: UserDTO, now: int): ConversationParticipant
  {
    ConversationParticipant(
      conversationId := p.conversationId.GetOr(0),
      userId := p.userId,
      joinedAt := p.joinedAt.GetOr(now),
      leftAt := p.leftAt,
      lastRead := Some(now),
      isAdmin := p.isAdmin.GetOr(false))
  }

  /** ConversationDto to Conversation; a missing CreatedAt becomes DateTime's default (0). */
  function DtoToConversation(d: ConversationDto): Conversation
  {
    Conversation(
      conversationId := d.conversationId,
      createdAt := d.createdAt.GetOr(0),
      updatedAt := d.updatedAt,
      conversationType := d.conversationType,
      title := d.title,
      isActive := d.isActive)
  }

  /** The participant rows of ConversationDto to Conversation: one per participant DTO, in order. */
  function DtoToParticipants(d: ConversationDto, now: int): (rows: seq<ConversationParticipant>)
  {
    seq(|d.participants|, i requires 0 <= i < |d.participants| => ParticipantRow(d.participants[i], now))
  }

  /** ConversationParticipant to UserDTO; `user` is the row's User navigation, if loaded. */
  function ParticipantToDto(cp: ConversationParticipant, user: Option<ApplicationUser>): UserDTO
  {
    EmptyUserDTO.(
      userId := cp.userId,
      userName := if user.Some? then user.value.userName else None,
      avatar := if user.Some? then user.value.avatar else None,
      isAdmin := Some(cp.isAdmin),
      joinedAt := Some(cp.joinedAt),
      leftAt := cp.leftAt,
      conversationId := Some(cp.conversationId))
  }

  /** Conversation to ConversationDto, its participants mapped one by one. */
  function ConversationToDto(c: Conversation, participants: seq<UserDTO>): ConversationDto
  {
    ConversationDto(
      conversationId := c.conversationId,
      createdAt := Some(c.createdAt),
      updatedAt := c.updatedAt,
      conversationType := c.conversationType,
      title := c.title,
      isActive := c.isActive,
      participants := participants)
  }

  // ---- What the mapping rules promise ----

  /** MessageDTO to Message fills the three defaults and clears the deleted flag; every value
      that is present is copied. */
  lemma DtoToMessageDefaults(d: MessageDTO)
    ensures var m := DtoToMessage(d);
      && (d.messageType.None? ==> m.messageType == "text")
      && (d.messageType.Some? ==> m.messageType == d.messageType.value)
      && (d.senderId.None? ==> m.senderId == "")
      && (d.senderId.Some? ==> m.senderId == d.senderId.value)
      && (d.content.None? ==> m.content == "")
      && (d.content.Some? ==> m.content == d.content.value)
      && m.createdAt == d.createdAt && m.modifiedAt == d.modifiedAt
      && !m.isDeleted
  {
  }

  /** Message to DTO and back gives the message again, except that it is no longer deleted. */
  lemma MessageRoundTrip(m: Message, sender: Option<ApplicationUser>)
    ensures DtoToMessage(MessageToDto(m, sender)) == m.(isDeleted := false)
  {
  }

  /** A DTO that came from a message, with or without a sender, is reproduced by mapping it to
      the entity and its Sender navigation and back. */
  lemma MessageDtoRoundTrip(m: Message, sender: Option<ApplicationUser>)
    ensures var d := MessageToDto(m, sender);
      MessageToDto(DtoToMessage(d), DtoToSender(d)) == d
  {
    if sender.Some? {
      UserDtoNormalises(sender.value);
    }
  }

  /** ApplicationUser to UserDTO keeps the id and replaces a null name or avatar by "". */
  lemma UserToDtoDefaults(u: ApplicationUser)
    ensures var d := UserToDto(u);
      && d.userId == Some(u.id)
      && d.userName.Some? && d.avatar.Some?
      && (u.userName.Some? ==> d.userName == u.userName)
      && (u.userName.None? ==> d.userName == Some(""))
      && (u.avatar.Some? ==> d.avatar == u.avatar)
      && (u.avatar.None? ==> d.avatar == Some(""))
  {
  }

  /** UserDTO to ApplicationUser uses "" for a null UserId, and otherwise copies it. */
  lemma DtoToUserId(d: UserDTO)
    ensures d.userId.None? ==> DtoToUser(d).id == ""
    ensures d.userId.Some? ==> DtoToUser(d).id == d.userId.value
  {
  }

  /** User to DTO and back keeps the id and the last-active time; a null name or avatar comes
      back as "". */
  lemma UserRoundTrip(u: ApplicationUser)
    ensures var v := DtoToUser(UserToDto(u));
      && v.id == u.id
      && v.userName == Some(u.userName.GetOr(""))
      && v.avatar == Some(u.avatar.GetOr(""))
      && v.lastActive == u.lastActive
  {
  }

  /** Mapping a user to a DTO normalises it: a second round trip through the DTO changes nothing. */
  lemma UserDtoNormalises(u: ApplicationUser)
    ensures UserToDto(DtoToUser(UserToDto(u))) == UserToDto(u)
  {
  }

  /** Conversation to DTO and back gives the conversation again, whatever its participants. */
  lemma ConversationRoundTrip(c: Conversation, participants: seq<UserDTO>)
    ensures DtoToConversation(ConversationToDto(c, participants)) == c
    ensures ConversationToDto(c, participants).participants == participants
  {
  }

  /** ConversationParticipant to UserDTO copies the row's columns and takes the name and avatar
      from the User navigation, none when it is not loaded. */
  lemma ParticipantToDtoFields(cp: ConversationParticipant, user: Option<ApplicationUser>)
    ensures var d := ParticipantToDto(cp, user);
      && d.userId == cp.userId
      && d.isAdmin == Some(cp.isAdmin)
      && d.joinedAt == Some(cp.joinedAt)
      && d.leftAt == cp.leftAt
      && d.conversationId == Some(cp.conversationId)
      && (user.Some? ==> d.userName == user.value.userName && d.avatar == user.value.avatar)
      && (user.None? ==> d.userName.None? && d.avatar.None?)
  {
  }

  /** A participant row mapped to its DTO and back is the same row, read at time `now`. */
  lemma ParticipantRowRoundTrip(cp: ConversationParticipant, user: Option<ApplicationUser>, now: int)
    ensures ParticipantRow(ParticipantToDto(cp, user), now) == cp.(lastRead := Some(now))
  {
  }

  /** ConversationDto to Conversation gives one row per participant DTO, in order, with the
      defaults false / 0 / now, the user id and leave time copied, and LastRead set to now. */
  lemma ParticipantRowsDefaults(d: ConversationDto, now: int)
    ensures |DtoToParticipants(d, now)| == |d.participants|
    ensures forall i :: 0 <= i < |d.participants| ==>
      var p, row := d.participants[i], DtoToParticipants(d, now)[i];
      && row.userId == p.userId
      && row.leftAt == p.leftAt
      && row.lastRead == Some(now)
      && (p.isAdmin.None? ==> !row.isAdmin)
      && (p.isAdmin.Some? ==> row.isAdmin == p.isAdmin.value)
      && (p.conversationId.None? ==> row.conversationId == 0)
      && (p.conversationId.Some? ==> row.conversationId == p.conversationId.value)
      && (p.joinedAt.None? ==> row.joinedAt == now)
      && (p.joinedAt.Some? ==> row.joinedAt == p.joinedAt.value)
  {
  }
}
