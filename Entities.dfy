/** The entities and data-transfer objects of the chat core, the dental tables and the
    identity users, as values. `DateTime` is a tick count (`int`); a nullable member is an
    `Option`. Navigation properties are not fields: they are looked up in the `Store`. */
module Entities {
  import opened Common

  /** The identity user (IdentityUser plus the profile fields the core reads). */
  datatype ApplicationUser = ApplicationUser(
    id: string,
    userName: Option<string>,
    email: Option<string>,
    phoneNumber: Option<string>,
    fullName: Option<string>,
    avatar: Option<string>,
    lastActive: Option<int>,
    isActive: bool)

  datatype Conversation = Conversation(
    conversationId: int,
    createdAt: int,
    updatedAt: Option<int>,
    conversationType: Option<string>,
    title: Option<string>,
    isActive: bool)

  /** One membership row, keyed by (conversationId, userId). */
  datatype ConversationParticipant = ConversationParticipant(
    conversationId: int,
    userId: Option<string>,
    joinedAt: int,
    leftAt: Option<int>,
    lastRead: Option<int>,
    isAdmin: bool)

  datatype Message = Message(
    messageId: int,
    conversationId: int,
    senderId: string,
    content: string,
    messageType: string,
    createdAt: int,
    modifiedAt: Option<int>,
    isDeleted: bool)

  /** The chat tables of the database context: Users, Conversations, ConversationParticipants
      and Messages, each in the order the database enumerates it. */
  datatype Store = Store(
    users: seq<ApplicationUser>,
    conversations: seq<Conversation>,
    participants: seq<ConversationParticipant>,
    messages: seq<Message>)

  /** UserDTO. Its ConversationId is declared `string?` but always holds a conversation id, so it
      is an optional int here; IsAdmin is read by the conversation mapping, so it is kept. */
  datatype UserDTO = UserDTO(
    userId: Option<string>,
    userName: Option<string>,
    avatar: Option<string>,
    lastActive: Option<int>,
    joinedAt: Option<int>,
    leftAt: Option<int>,
    role: Option<string>,
    isOnline: Option<bool>,
    conversationId: Option<int>,
    isAdmin: Option<bool>)

  /** A UserDTO whose members are all unset: object-initialiser expressions start from it, and
      every projection sets the members that the C# type initialises to the empty string. */
  const EmptyUserDTO := UserDTO(None, None, None, None, None, None, None, None, None, None)

  datatype MessageDTO = MessageDTO(
    messageId: int,
    conversationId: int,
    content: Option<string>,
    messageType: Option<string>,
    createdAt: int,
    modifiedAt: Option<int>,
    senderId: Option<string>,
    sender: Option<UserDTO>)

  datatype ConversationDto = ConversationDto(
    conversationId: int,
    createdAt: Option<int>,
    updatedAt: Option<int>,
    conversationType: Option<string>,
    title: Option<string>,
    isActive: bool,
    participants: seq<UserDTO>)

  /** One item of a conversation listing. */
  datatype ConversationWithLastMessage = ConversationWithLastMessage(
    conversation: Option<Conversation>,
    lastMessage: Option<Message>)

  /** The first user with id `id` (`FindAsync`, or the `User` navigation of a row). */
  function FindUser(users: seq<ApplicationUser>, id: string): (r: Option<ApplicationUser>)
    ensures r.Some? ==> r.value in users && r.value.id == id
    ensures r.None? <==> forall u :: u in users ==> u.id != id
  {
    if users == [] then None
    else if users[0].id == id then Some(users[0])
    else FindUser(users[1..], id)
  }

  /** The first conversation with id `id` (`FirstOrDefault(c => c.ConversationId == id)`). */
  function FindConversation(conversations: seq<Conversation>, id: int): (r: Option<Conversation>)
    ensures r.Some? ==> r.value in conversations && r.value.conversationId == id
    ensures r.None? <==> forall c :: c in conversations ==> c.conversationId != id
  {
    if conversations == [] then None
    else if conversations[0].conversationId == id then Some(conversations[0])
    else FindConversation(conversations[1..], id)
  }
}
