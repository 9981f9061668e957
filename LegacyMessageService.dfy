/** The older message service, which returns the message entities themselves. */
module LegacyMessageService {
  import opened Common
  import opened Entities
  import opened Collections
  import ConversationService
  import MessageService

  /** `OrderBy(m => m.CreatedAt)` on entities. */
  function CreatedBefore(a: Message, b: Message): bool
  {
    a.createdAt <= b.createdAt
  }

  lemma CreatedBeforeIsPreorder()
    ensures TotalPreorder(CreatedBefore)
  {
  }

  /** GetMessagesByConversationIdAsync: Unauthorized for a caller with no row in the
      conversation; otherwise exactly the live messages of the conversation, each as often as
      stored, ordered by CreatedAt. */
  function GetMessagesByConversationId(s: Store, cid: int, uid: string): (r: Result<seq<Message>>)
    ensures r.Err? <==> !ConversationService.IsUserParticipant(s, cid, uid)
    ensures r.Err? ==> r.error == Unauthorized
    ensures r.Ok? ==> SortedBy(r.value, CreatedBefore)
    ensures r.Ok? ==> forall m :: multiset(r.value)[m] == if m.conversationId == cid && !m.isDeleted then multiset(s.messages)[m] else 0
  {
    if !ConversationService.IsUserParticipant(s, cid, uid) then Err(Unauthorized)
    else
      var live := MessageService.LiveMessagesOf(s.messages, cid);
      CreatedBeforeIsPreorder();
      SortBySorted(live, CreatedBefore);
      FilterMultiset(s.messages, (m: Message) => m.conversationId == cid && !m.isDeleted);
      Ok(SortBy(live, CreatedBefore))
  }

  /** GetUserConversationsWithLastMessageAsync: the same listing as the conversation service's,
      one item per participant row of the user, with the conversation's latest live message. */
  function GetUserConversationsWithLastMessage(s: Store, uid: string): (r: seq<ConversationWithLastMessage>)
    ensures |r| == |ConversationService.RowsOfUser(s, uid)|
    ensures forall i :: 0 <= i < |r| ==>
      var cp := ConversationService.RowsOfUser(s, uid)[i];
      && r[i].conversation == FindConversation(s.conversations, cp.conversationId)
      && (r[i].lastMessage.None? <==>
           (r[i].conversation.None? || forall m :: m in s.messages ==> m.conversationId != cp.conversationId || m.isDeleted))
      && (r[i].lastMessage.Some? ==>
           var last := r[i].lastMessage.value;
           && last in s.messages && last.conversationId == cp.conversationId && !last.isDeleted
           && forall m :: m in s.messages && m.conversationId == cp.conversationId && !m.isDeleted ==> m.createdAt <= last.createdAt)
  {
    ConversationService.GetUserConversationsWithLastMessage(s, uid)
  }
}
