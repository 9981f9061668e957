/** The chat message service: the messages of a conversation for one of its participants, and
    the messages a user sent, as DTOs, live messages only, oldest first. */
module MessageService {
  import opened Common
  import opened Entities
  import opened Collections
  import opened MessageMapping
  import ConversationService

  /** The sender summary of the projection: the Sender navigation's id, name and avatar. */
  function SenderSummary(s: Store, m: Message): UserDTO
  {
    var u := FindUser(s.users, m.senderId);
    EmptyUserDTO.(
      userId := if u.Some? then Some(u.value.id) else None,
      userName := if u.Some? then u.value.userName else None,
      avatar := if u.Some? then u.value.avatar else None)
  }

  /** The projection of one message: the scalar members copied, the sender summarised. */
  function ProjectMessage(s: Store, m: Message): (d: MessageDTO)
    ensures d.messageId == m.messageId && d.conversationId == m.conversationId
    ensures d.content == Some(m.content) && d.messageType == Some(m.messageType)
    ensures d.createdAt == m.createdAt && d.modifiedAt == m.modifiedAt && d.senderId == Some(m.senderId)
    ensures d.sender.Some?
  {
    MessageDTO(m.messageId, m.conversationId, Some(m.content), Some(m.messageType),
               m.createdAt, m.modifiedAt, Some(m.senderId), Some(SenderSummary(s, m)))
  }

  /** The projection maps back, through the mapper profile, to a live copy of the message. */
  lemma ProjectionMapsBack(s: Store, m: Message)
    ensures DtoToMessage(ProjectMessage(s, m)) == m.(isDeleted := false)
  {
  }

  function ProjectAll(s: Store, ms: seq<Message>): (r: seq<MessageDTO>)
    ensures |r| == |ms|
    ensures forall i :: 0 <= i < |ms| ==> r[i] == ProjectMessage(s, ms[i])
  {
    seq(|ms|, i requires 0 <= i < |ms| => ProjectMessage(s, ms[i]))
  }

  /** A projected DTO is there exactly when a message it projects is. */
  lemma ProjectAllMembership(s: Store, ms: seq<Message>)
    ensures forall d :: d in ProjectAll(s, ms) <==> exists m :: m in ms && d == ProjectMessage(s, m)
  {
    var r := ProjectAll(s, ms);
    forall d | d in r ensures exists m :: m in ms && d == ProjectMessage(s, m) {
      var i :| 0 <= i < |r| && r[i] == d;
      assert ms[i] in ms;
    }
    forall m | m in ms ensures ProjectMessage(s, m) in r {
      var i :| 0 <= i < |ms| && ms[i] == m;
      assert r[i] == ProjectMessage(s, m);
    }
  }

  /** `OrderBy(m => m.CreatedAt)` on DTOs. */
  function DtoCreatedBefore(a: MessageDTO, b: MessageDTO): bool
  {
    a.createdAt <= b.createdAt
  }

  lemma DtoCreatedBeforeIsPreorder()
    ensures TotalPreorder(DtoCreatedBefore)
  {
  }

  /** The live messages of conversation `cid`, in table order. */
  function LiveMessagesOf(ms: seq<Message>, cid: int): (r: seq<Message>)
    ensures forall m :: m in r <==> m in ms && m.conversationId == cid && !m.isDeleted
  {
    Filter(ms, (m: Message) => m.conversationId == cid && !m.isDeleted)
  }

  /** The live messages sent by `uid`, in table order. */
  function LiveMessagesFrom(ms: seq<Message>, uid: string): (r: seq<Message>)
    ensures forall m :: m in r <==> m in ms && m.senderId == uid && !m.isDeleted
  {
    Filter(ms, (m: Message) => m.senderId == uid && !m.isDeleted)
  }

  /** Projection followed by `OrderBy(CreatedAt)`: a sorted permutation of the projections. */
  function ProjectSorted(s: Store, ms: seq<Message>): (r: seq<MessageDTO>)
    ensures multiset(r) == multiset(ProjectAll(s, ms))
    ensures SortedBy(r, DtoCreatedBefore)
    ensures forall d :: d in r <==> exists m :: m in ms && d == ProjectMessage(s, m)
  {
    var dtos := ProjectAll(s, ms);
    DtoCreatedBeforeIsPreorder();
    SortBySorted(dtos, DtoCreatedBefore);
    ProjectAllMembership(s, ms);
    var r := SortBy(dtos, DtoCreatedBefore);
    assert forall d :: d in r <==> d in multiset(r);
    assert forall d :: d in dtos <==> d in multiset(dtos);
    r
  }

  /** GetMessagesByConversationIdAsync: Unauthorized for a caller with no row in the
      conversation; otherwise every live message of the conversation and nothing else,
      projected, ordered by CreatedAt. */
  function GetMessagesByConversationId(s: Store, cid: int, uid: string): (r: Result<seq<MessageDTO>>)
    ensures r.Err? <==> !ConversationService.IsUserParticipant(s, cid, uid)
    ensures r.Err? ==> r.error == Unauthorized
    ensures r.Ok? ==> SortedBy(r.value, DtoCreatedBefore)
    ensures r.Ok? ==> multiset(r.value) == multiset(ProjectAll(s, LiveMessagesOf(s.messages, cid)))
    ensures r.Ok? ==> forall d :: d in r.value <==>
      exists m :: m in s.messages && m.conversationId == cid && !m.isDeleted && d == ProjectMessage(s, m)
  {
    if !ConversationService.IsUserParticipant(s, cid, uid) then Err(Unauthorized)
    else Ok(ProjectSorted(s, LiveMessagesOf(s.messages, cid)))
  }

  /** GetMessagesByUserIdAsync: every live message the user sent, in any conversation, with no
      membership check, projected, ordered by CreatedAt. */
  function GetMessagesByUserId(s: Store, uid: string): (r: seq<MessageDTO>)
    ensures SortedBy(r, DtoCreatedBefore)
    ensures multiset(r) == multiset(ProjectAll(s, LiveMessagesFrom(s.messages, uid)))
    ensures forall d :: d in r <==>
      exists m :: m in s.messages && m.senderId == uid && !m.isDeleted && d == ProjectMessage(s, m)
  {
    ProjectSorted(s, LiveMessagesFrom(s.messages, uid))
  }

  /** Every message listed for a conversation maps back to a stored live message of it, and
      keeps its id, content, type, times and sender id. */
  lemma ListedMessagesAreStored(s: Store, cid: int, uid: string)
    requires ConversationService.IsUserParticipant(s, cid, uid)
    ensures forall d :: d in GetMessagesByConversationId(s, cid, uid).value ==>
      var m := DtoToMessage(d);
      && m in s.messages && m.conversationId == cid && !m.isDeleted
      && d == ProjectMessage(s, m)
  {
    forall d | d in GetMessagesByConversationId(s, cid, uid).value
      ensures DtoToMessage(d) in s.messages && DtoToMessage(d).conversationId == cid && d == ProjectMessage(s, DtoToMessage(d))
    {
      var m :| m in s.messages && m.conversationId == cid && !m.isDeleted && d == ProjectMessage(s, m);
      ProjectionMapsBack(s, m);
    }
  }
}
