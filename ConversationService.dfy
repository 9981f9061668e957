/** The conversation service of the chat: membership checks, the conversation listing with each
    conversation's last message, the conversation and participant queries with their error
    order, the partner list, conversation creation and the user directory. The queries are
    functions of the store; creation changes the store and is a method of `ChatDatabase`. */
module ConversationService {
  import opened Common
  import opened Entities
  import opened Collections
  import opened MessageMapping

  // ---- Membership ----

  /** Some row of `rows` is exactly (cid, uid). */
  function HasRow(rows: seq<ConversationParticipant>, cid: int, uid: string): (b: bool)
    ensures b <==> exists i :: 0 <= i < |rows| && rows[i].conversationId == cid && rows[i].userId == Some(uid)
  {
    if rows == [] then false
    else if rows[0].conversationId == cid && rows[0].userId == Some(uid) then true
    else
      var b := HasRow(rows[1..], cid, uid);
      assert forall i :: 1 <= i < |rows| ==> rows[i] == rows[1..][i - 1];
      b
  }

  /** IsUserParticipantAsync: a row (conversationId, userId) exists; LeftAt is not looked at. */
  function IsUserParticipant(s: Store, cid: int, uid: string): bool
  {
    HasRow(s.participants, cid, uid)
  }

  /** Membership holds exactly when there is such a row, whether or not the user has left. */
  lemma ParticipantIffRow(s: Store, cid: int, uid: string)
    ensures IsUserParticipant(s, cid, uid) <==>
      exists cp :: cp in s.participants && cp.conversationId == cid && cp.userId == Some(uid)
  {
    if IsUserParticipant(s, cid, uid) {
      var i :| 0 <= i < |s.participants| && s.participants[i].conversationId == cid && s.participants[i].userId == Some(uid);
      assert s.participants[i] in s.participants;
    }
  }

  /** Leaving a conversation (setting LeftAt) does not end membership. */
  lemma LeftParticipantStillMember(s: Store, i: nat, when: int)
    requires i < |s.participants| && s.participants[i].userId.Some?
    ensures var cp := s.participants[i];
      IsUserParticipant(s.(participants := s.participants[i := cp.(leftAt := Some(when))]), cp.conversationId, cp.userId.value)
  {
    var cp := s.participants[i];
    var t := s.participants[i := cp.(leftAt := Some(when))];
    assert t[i].conversationId == cp.conversationId && t[i].userId == cp.userId;
  }

  /** The User navigation of a row. */
  function UserOf(s: Store, cp: ConversationParticipant): Option<ApplicationUser>
  {
    if cp.userId.None? then None else FindUser(s.users, cp.userId.value)
  }

  // ---- Conversation listing ----

  /** `Messages.Where(!IsDeleted).OrderByDescending(CreatedAt).FirstOrDefault()` over the
      messages of conversation `cid`: a live message with the latest time, the first such. */
  function LastNonDeleted(ms: seq<Message>, cid: int): (r: Option<Message>)
    ensures r.None? <==> forall m :: m in ms ==> m.conversationId != cid || m.isDeleted
    ensures r.Some? ==> r.value in ms && r.value.conversationId == cid && !r.value.isDeleted
    ensures r.Some? ==> forall m :: m in ms && m.conversationId == cid && !m.isDeleted ==> m.createdAt <= r.value.createdAt
  {
    if ms == [] then None
    else
      var rest := LastNonDeleted(ms[1..], cid);
      assert forall m :: m in ms ==> m == ms[0] || m in ms[1..];
      if ms[0].conversationId == cid && !ms[0].isDeleted && (rest.None? || rest.value.createdAt <= ms[0].createdAt) then Some(ms[0])
      else rest
  }

  /** The item of the listing for one participant row. */
  function ListingItem(s: Store, cp: ConversationParticipant): ConversationWithLastMessage
  {
    var c := FindConversation(s.conversations, cp.conversationId);
    ConversationWithLastMessage(c, if c.Some? then LastNonDeleted(s.messages, cp.conversationId) else None)
  }

  /** The participant rows of user `uid`, in table order. */
  function RowsOfUser(s: Store, uid: string): (rows: seq<ConversationParticipant>)
    ensures forall cp :: cp in rows <==> cp in s.participants && cp.userId == Some(uid)
  {
    Filter(s.participants, (cp: ConversationParticipant) => cp.userId == Some(uid))
  }

  /** GetUserConversationsWithLastMessageAsync: one item per participant row of the user. The
      item holds the row's conversation and, when that conversation exists, its latest
      non-deleted message, or nothing when it has none. */
  function GetUserConversationsWithLastMessage(s: Store, uid: string): (r: seq<ConversationWithLastMessage>)
    ensures |r| == |RowsOfUser(s, uid)|
    ensures forall i :: 0 <= i < |r| ==>
      var cp := RowsOfUser(s, uid)[i];
      && cp.userId == Some(uid)
      && r[i].conversation == FindConversation(s.conversations, cp.conversationId)
      && (r[i].lastMessage.None? <==>
           (r[i].conversation.None? || forall m :: m in s.messages ==> m.conversationId != cp.conversationId || m.isDeleted))
      && (r[i].lastMessage.Some? ==>
           var last := r[i].lastMessage.value;
           && last in s.messages && last.conversationId == cp.conversationId && !last.isDeleted
           && forall m :: m in s.messages && m.conversationId == cp.conversationId && !m.isDeleted ==> m.createdAt <= last.createdAt)
  {
    var rows := RowsOfUser(s, uid);
    assert forall i :: 0 <= i < |rows| ==> rows[i] in rows;
    seq(|rows|, i requires 0 <= i < |rows| => ListingItem(s, rows[i]))
  }

  // ---- A conversation and its participants ----

  /** The participant projection of GetConversationByIdAsync. */
  function ConversationMemberDto(cp: ConversationParticipant, u: ApplicationUser): UserDTO
  {
    EmptyUserDTO.(
      userId := cp.userId,
      conversationId := Some(cp.conversationId),
      userName := u.userName,
      avatar := u.avatar,
      isAdmin := Some(cp.isAdmin),
      joinedAt := Some(cp.joinedAt))
  }

  /** The rows of conversation `cid` whose user exists. */
  function RowsWithUser(s: Store, cid: int): (rows: seq<ConversationParticipant>)
    ensures forall cp :: cp in rows <==> cp in s.participants && cp.conversationId == cid && UserOf(s, cp).Some?
  {
    Filter(s.participants, (cp: ConversationParticipant) => cp.conversationId == cid && UserOf(s, cp).Some?)
  }

  function ConversationMemberDtos(s: Store, rows: seq<ConversationParticipant>): (r: seq<UserDTO>)
    ensures |r| == |rows|
    ensures forall i :: 0 <= i < |rows| ==> UserOf(s, rows[i]).Some? ==> r[i] == ConversationMemberDto(rows[i], UserOf(s, rows[i]).value)
  {
    seq(|rows|, i requires 0 <= i < |rows| =>
      var u := UserOf(s, rows[i]);
      if u.Some? then ConversationMemberDto(rows[i], u.value) else EmptyUserDTO)
  }

  /** GetConversationByIdAsync: NotFound when the conversation does not exist, whoever asks;
      Unauthorized when it exists and the caller has no row in it; otherwise the conversation
      with the participants whose user exists, and only those. */
  function GetConversationById(s: Store, cid: int, uid: string): (r: Result<ConversationDto>)
    ensures FindConversation(s.conversations, cid).None? <==> r == Err(NotFound)
    ensures FindConversation(s.conversations, cid).Some? && !IsUserParticipant(s, cid, uid) <==> r == Err(Unauthorized)
    ensures r.Ok? ==>
      var c := FindConversation(s.conversations, cid).value;
      && r.value.conversationId == cid
      && r.value.createdAt == Some(c.createdAt) && r.value.updatedAt == c.updatedAt
      && r.value.title == c.title && r.value.conversationType == c.conversationType && r.value.isActive == c.isActive
    ensures r.Ok? ==> forall d :: d in r.value.participants ==>
      exists cp :: cp in s.participants && cp.conversationId == cid && UserOf(s, cp).Some? && d == ConversationMemberDto(cp, UserOf(s, cp).value)
    ensures r.Ok? ==> forall cp :: cp in s.participants && cp.conversationId == cid && UserOf(s, cp).Some? ==>
      ConversationMemberDto(cp, UserOf(s, cp).value) in r.value.participants
  {
    match FindConversation(s.conversations, cid)
    case None => Err(NotFound)
    case Some(c) =>
      if !IsUserParticipant(s, cid, uid) then Err(Unauthorized)
      else
        var rows := RowsWithUser(s, cid);
        var dtos := ConversationMemberDtos(s, rows);
        assert forall i :: 0 <= i < |rows| ==> rows[i] in rows;
        assert forall cp :: cp in rows ==> exists i :: 0 <= i < |rows| && rows[i] == cp;
        Ok(ConversationDto(c.conversationId, Some(c.createdAt), c.updatedAt, c.conversationType, c.title, c.isActive, dtos))
  }

  /** The participant projection of the participant and partner queries. */
  function MemberDto(s: Store, cp: ConversationParticipant): UserDTO
  {
    var u := UserOf(s, cp);
    EmptyUserDTO.(
      userId := cp.userId,
      userName := if u.Some? then u.value.userName else None,
      avatar := if u.Some? then u.value.avatar else None,
      lastActive := if u.Some? then u.value.lastActive else None,
      joinedAt := Some(cp.joinedAt),
      leftAt := cp.leftAt,
      role := Some(if cp.isAdmin then "admin" else "member"),
      isOnline := if u.Some? then Some(u.value.isActive) else None,
      conversationId := Some(cp.conversationId))
  }

  function MemberDtos(s: Store, rows: seq<ConversationParticipant>): (r: seq<UserDTO>)
    ensures |r| == |rows|
    ensures forall i :: 0 <= i < |rows| ==> r[i] == MemberDto(s, rows[i])
  {
    seq(|rows|, i requires 0 <= i < |rows| => MemberDto(s, rows[i]))
  }

  /** Every DTO of `MemberDtos` comes from a row, and every row has its DTO there. */
  lemma MemberDtosMembership(s: Store, rows: seq<ConversationParticipant>)
    ensures forall d :: d in MemberDtos(s, rows) ==> exists cp :: cp in rows && d == MemberDto(s, cp)
    ensures forall cp :: cp in rows ==> MemberDto(s, cp) in MemberDtos(s, rows)
  {
    var dtos := MemberDtos(s, rows);
    forall d | d in dtos ensures exists cp :: cp in rows && d == MemberDto(s, cp) {
      var i :| 0 <= i < |dtos| && dtos[i] == d;
      assert rows[i] in rows;
    }
    forall cp | cp in rows ensures MemberDto(s, cp) in dtos {
      var i :| 0 <= i < |rows| && rows[i] == cp;
      assert dtos[i] == MemberDto(s, cp);
    }
  }

  /** The rows of conversation `cid`, in table order. */
  function RowsOfConversation(s: Store, cid: int): (rows: seq<ConversationParticipant>)
    ensures forall cp :: cp in rows <==> cp in s.participants && cp.conversationId == cid
  {
    Filter(s.participants, (cp: ConversationParticipant) => cp.conversationId == cid)
  }

  /** GetConversationParticipantsAsync: Unauthorized for a caller with no row; otherwise one DTO
      per row of the conversation, in order, with role "admin" exactly for the admin rows and the
      name, avatar, last-active time and activity flag of the row's user (none without one). The
      caller's own row is among them, so the "no participants" NotFound never happens. */
  function GetConversationParticipants(s: Store, cid: int, uid: string): (r: Result<seq<UserDTO>>)
    ensures r.Err? <==> !IsUserParticipant(s, cid, uid)
    ensures r.Err? ==> r.error == Unauthorized
    ensures r.Ok? ==>
      var rows := RowsOfConversation(s, cid);
      && |r.value| == |rows|
      && (forall i :: 0 <= i < |rows| ==>
           && r.value[i].userId == rows[i].userId
           && r.value[i].conversationId == Some(cid)
           && r.value[i].joinedAt == Some(rows[i].joinedAt)
           && r.value[i].leftAt == rows[i].leftAt
           && (r.value[i].role == Some("admin") <==> rows[i].isAdmin)
           && (r.value[i].role == Some("member") <==> !rows[i].isAdmin))
    ensures r.Ok? ==>
      var rows := RowsOfConversation(s, cid);
      forall i :: 0 <= i < |rows| ==>
        var u := UserOf(s, rows[i]);
        && (u.Some? ==>
              && r.value[i].userName == u.value.userName && r.value[i].avatar == u.value.avatar
              && r.value[i].lastActive == u.value.lastActive && r.value[i].isOnline == Some(u.value.isActive))
        && (u.None? ==>
              r.value[i].userName.None? && r.value[i].avatar.None? && r.value[i].lastActive.None? && r.value[i].isOnline.None?)
    ensures r.Ok? ==> exists d :: d in r.value && d.userId == Some(uid)
  {
    if !IsUserParticipant(s, cid, uid) then Err(Unauthorized)
    else
      var rows := RowsOfConversation(s, cid);
      var participants := MemberDtos(s, rows);
      ParticipantIffRow(s, cid, uid);
      var cp :| cp in s.participants && cp.conversationId == cid && cp.userId == Some(uid);
      var k :| 0 <= k < |rows| && rows[k] == cp;
      assert participants[k].userId == Some(uid);
      if |participants| == 0 then Err(NotFound) else Ok(participants)
  }

  // ---- Conversation partners ----

  /** The rows of other users in conversations the caller belongs to. */
  function PartnerRows(s: Store, uid: string): (rows: seq<ConversationParticipant>)
    ensures forall cp :: cp in rows <==>
      cp in s.participants && IsUserParticipant(s, cp.conversationId, uid) && cp.userId != Some(uid)
  {
    Filter(s.participants, (cp: ConversationParticipant) => IsUserParticipant(s, cp.conversationId, uid) && cp.userId != Some(uid))
  }

  /** GetUserConversationPartnersAsync: without duplicates, the DTO of every row of another user
      in a conversation the caller belongs to; none of them is the caller. */
  function GetUserConversationPartners(s: Store, uid: string): (r: seq<UserDTO>)
    ensures NoDup(r)
    ensures forall d :: d in r ==>
      && d.userId != Some(uid)
      && d.conversationId.Some? && IsUserParticipant(s, d.conversationId.value, uid)
    ensures forall cp :: cp in s.participants && IsUserParticipant(s, cp.conversationId, uid) && cp.userId != Some(uid) ==>
      MemberDto(s, cp) in r
    ensures forall d :: d in r ==> exists cp :: cp in PartnerRows(s, uid) && d == MemberDto(s, cp)
  {
    var rows := PartnerRows(s, uid);
    MemberDtosMembership(s, rows);
    Distinct(MemberDtos(s, rows))
  }

  // ---- Creating a conversation ----

  /** User ids are a primary key. */
  ghost predicate UniqueUserIds(users: seq<ApplicationUser>)
  {
    forall i, j :: 0 <= i < j < |users| ==> users[i].id != users[j].id
  }

  /** The requested participant ids, in order. */
  function ParticipantIds(dto: ConversationDto): (ids: seq<Option<string>>)
    ensures |ids| == |dto.participants|
    ensures forall i :: 0 <= i < |ids| ==> ids[i] == dto.participants[i].userId
  {
    seq(|dto.participants|, i requires 0 <= i < |dto.participants| => dto.participants[i].userId)
  }

  /** The users whose id is among `ids` (`Users.Where(u => userIds.Contains(u.Id))`). */
  function ExistingUsers(users: seq<ApplicationUser>, ids: seq<Option<string>>): (r: seq<ApplicationUser>)
    ensures forall u :: u in r <==> u in users && Some(u.id) in ids
  {
    if users == [] then []
    else
      var rest := ExistingUsers(users[1..], ids);
      assert forall u :: u in users <==> u == users[0] || u in users[1..];
      if Some(users[0].id) in ids then [users[0]] + rest else rest
  }

  /** The validation of CreateConversationAsync: InvalidArgument without participants, NotFound
      when the number of users found differs from the number of ids given. */
  function CreationError(s: Store, dto: ConversationDto): (e: Option<ServiceError>)
    ensures |dto.participants| == 0 <==> e == Some(InvalidArgument)
    ensures e.Some? ==> e.value == InvalidArgument || e.value == NotFound
  {
    if |dto.participants| == 0 then Some(InvalidArgument)
    else
      var ids := ParticipantIds(dto);
      if |ExistingUsers(s.users, ids)| != |ids| then Some(NotFound) else None
  }

  /** The ids of the users found. */
  function FoundIds(users: seq<ApplicationUser>, ids: seq<Option<string>>): (found: set<Option<string>>)
    ensures forall x :: x in found <==> x in ids && exists u :: u in users && x == Some(u.id)
  {
    if users == [] then {}
    else
      var rest := FoundIds(users[1..], ids);
      assert forall u :: u in users <==> u == users[0] || u in users[1..];
      (if Some(users[0].id) in ids then {Some(users[0].id)} else {}) + rest
  }

  /** Dropping the first user keeps the ids unique, and no later user has the first one's id. */
  lemma UniqueUserIdsTail(users: seq<ApplicationUser>)
    requires UniqueUserIds(users) && users != []
    ensures UniqueUserIds(users[1..])
    ensures forall u :: u in users[1..] ==> u.id != users[0].id
  {
    var rest := users[1..];
    forall i, j | 0 <= i < j < |rest| ensures rest[i].id != rest[j].id {
      assert rest[i] == users[i + 1] && rest[j] == users[j + 1];
    }
    forall u | u in rest ensures u.id != users[0].id {
      var j :| 0 <= j < |rest| && rest[j] == u;
      assert users[j + 1] == u;
    }
  }

  /** With unique user ids, the number of users found is the number of distinct ids found. */
  lemma {:induction false} ExistingUsersCount(users: seq<ApplicationUser>, ids: seq<Option<string>>)
    requires UniqueUserIds(users)
    ensures |ExistingUsers(users, ids)| == |FoundIds(users, ids)|
  {
    if users != [] {
      UniqueUserIdsTail(users);
      ExistingUsersCount(users[1..], ids);
      assert Some(users[0].id) !in FoundIds(users[1..], ids);
    }
  }

  /** A subset has at most as many elements, and a subset with as many is the whole set. */
  lemma SubsetCard<T>(a: set<T>, b: set<T>)
    requires a <= b
    ensures |a| <= |b|
    ensures |a| == |b| ==> a == b
  {
    assert b == a + (b - a);
    assert a * (b - a) == {};
  }

  /** The ids are all present, all name existing users, and none is repeated. */
  ghost predicate ValidParticipantIds(s: Store, ids: seq<Option<string>>)
  {
    && NoDup(ids)
    && forall i :: 0 <= i < |ids| ==> ids[i].Some? && FindUser(s.users, ids[i].value).Some?
  }

  /** Validation passes only for valid ids. */
  lemma PassedCreationHasValidIds(s: Store, dto: ConversationDto)
    requires UniqueUserIds(s.users) && CreationError(s, dto).None?
    ensures ValidParticipantIds(s, ParticipantIds(dto))
  {
    var ids := ParticipantIds(dto);
    var found := FoundIds(s.users, ids);
    ExistingUsersCount(s.users, ids);
    ElementsCard(ids);
    assert found <= Elements(ids);
    SubsetCard(found, Elements(ids));
    forall i | 0 <= i < |ids| ensures ids[i].Some? && FindUser(s.users, ids[i].value).Some? {
      assert ids[i] in found;
      var u :| u in s.users && Some(u.id) in ids && Some(u.id) == ids[i];
    }
  }

  /** Validation passes for valid ids. */
  lemma ValidIdsPassCreation(s: Store, dto: ConversationDto)
    requires UniqueUserIds(s.users) && |dto.participants| > 0 && ValidParticipantIds(s, ParticipantIds(dto))
    ensures CreationError(s, dto).None?
  {
    var ids := ParticipantIds(dto);
    var found := FoundIds(s.users, ids);
    ExistingUsersCount(s.users, ids);
    ElementsCard(ids);
    forall x | x in Elements(ids) ensures x in found {
      var i :| 0 <= i < |ids| && ids[i] == x;
      var u := FindUser(s.users, ids[i].value).value;
      assert Some(u.id) == x;
    }
    assert found == Elements(ids);
  }

  /** Creation validation passes exactly when the ids are all present, all name existing users,
      and none is repeated: a duplicated id fails with NotFound although every user exists. */
  lemma CreationPassesIff(s: Store, dto: ConversationDto)
    requires UniqueUserIds(s.users) && |dto.participants| > 0
    ensures CreationError(s, dto).None? <==> ValidParticipantIds(s, ParticipantIds(dto))
  {
    if CreationError(s, dto).None? {
      PassedCreationHasValidIds(s, dto);
    }
    if ValidParticipantIds(s, ParticipantIds(dto)) {
      ValidIdsPassCreation(s, dto);
    }
  }

  /** Two requests for the same existing user fail with NotFound. */
  lemma DuplicateParticipantFails(s: Store, dto: ConversationDto, i: nat, j: nat)
    requires UniqueUserIds(s.users)
    requires i < j < |dto.participants| && dto.participants[i].userId == dto.participants[j].userId
    ensures CreationError(s, dto) == Some(NotFound)
  {
    CreationPassesIff(s, dto);
    var ids := ParticipantIds(dto);
    assert ids[i] == ids[j];
  }

  /** The DTO after `CreatedAt ??= now; UpdatedAt ??= now`. */
  function Stamped(dto: ConversationDto, now: int): (d: ConversationDto)
    ensures d.createdAt.Some? && d.updatedAt.Some?
    ensures dto.createdAt.Some? ==> d.createdAt == dto.createdAt
    ensures dto.createdAt.None? ==> d.createdAt == Some(now)
    ensures dto.updatedAt.Some? ==> d.updatedAt == dto.updatedAt
    ensures dto.updatedAt.None? ==> d.updatedAt == Some(now)
    ensures d.participants == dto.participants && d.title == dto.title && d.conversationType == dto.conversationType
  {
    dto.(createdAt := Some(dto.createdAt.GetOr(now)), updatedAt := Some(dto.updatedAt.GetOr(now)))
  }

  /** The conversation row inserted, with the key the identity column generates. */
  function NewConversation(dto: ConversationDto, now: int, id: int): Conversation
  {
    DtoToConversation(Stamped(dto, now)).(conversationId := id)
  }

  /** The participant rows inserted with it; relationship fix-up gives them the new key. */
  function NewParticipantRows(dto: ConversationDto, now: int, id: int): (rows: seq<ConversationParticipant>)
    ensures |rows| == |dto.participants|
    ensures forall i :: 0 <= i < |rows| ==> rows[i] == ParticipantRow(dto.participants[i], now).(conversationId := id)
  {
    var mapped := DtoToParticipants(Stamped(dto, now), now);
    seq(|mapped|, i requires 0 <= i < |mapped| => mapped[i].(conversationId := id))
  }

  /** The DTO returned: the new conversation mapped back, its participants with their users. */
  function CreatedDto(s: Store, c: Conversation, rows: seq<ConversationParticipant>): ConversationDto
  {
    ConversationToDto(c, seq(|rows|, i requires 0 <= i < |rows| => ParticipantToDto(rows[i], UserOf(s, rows[i]))))
  }

  /** A created conversation keeps supplied timestamps, takes the clock for missing ones, and
      gets a key no existing conversation has. */
  lemma NewConversationStamps(s: Store, dto: ConversationDto, now: int, id: int)
    requires forall c :: c in s.conversations ==> c.conversationId < id
    ensures var c := NewConversation(dto, now, id);
      && c.createdAt == (if dto.createdAt.Some? then dto.createdAt.value else now)
      && c.updatedAt == Some(if dto.updatedAt.Some? then dto.updatedAt.value else now)
      && FindConversation(s.conversations, id).None?
  {
  }

  /** The chat database: the store and the next key of the Conversations identity column. */
  class ChatDatabase {
    var store: Store
    var nextConversationId: int

    ghost predicate Valid()
      reads this
    {
      && UniqueUserIds(store.users)
      && nextConversationId > 0
      && forall c :: c in store.conversations ==> c.conversationId < nextConversationId
    }

    constructor (users: seq<ApplicationUser>)
      requires UniqueUserIds(users)
      ensures Valid() && store == Store(users, [], [], []) && nextConversationId == 1
    {
      store := Store(users, [], [], []);
      nextConversationId := 1;
    }

    /** CreateConversationAsync; `saveSucceeds` is the outcome of SaveChangesAsync. A failed
        validation or save leaves the store as it was; a success adds exactly one conversation
        and its participant rows. The DTO's Messages collection is not part of this model. */
    method CreateConversation(dto: ConversationDto, now: int, saveSucceeds: bool) returns (r: Result<ConversationDto>)
      requires Valid()
      modifies this
      ensures Valid()
      ensures CreationError(old(store), dto).Some? ==>
        r == Err(CreationError(old(store), dto).value) && store == old(store) && nextConversationId == old(nextConversationId)
      ensures CreationError(old(store), dto).None? && !saveSucceeds ==>
        r == Err(StoreFailure) && store == old(store) && nextConversationId == old(nextConversationId)
      ensures CreationError(old(store), dto).None? && saveSucceeds ==>
        var c := NewConversation(dto, now, old(nextConversationId));
        var rows := NewParticipantRows(dto, now, old(nextConversationId));
        && store == old(store).(conversations := old(store.conversations) + [c], participants := old(store.participants) + rows)
        && nextConversationId == old(nextConversationId) + 1
        && r == Ok(CreatedDto(old(store), c, rows))
    {
      var error := CreationError(store, dto);
      if error.Some? {
        return Err(error.value);
      }
      if !saveSucceeds {
        return Err(StoreFailure);
      }
      var id := nextConversationId;
      var c := NewConversation(dto, now, id);
      var rows := NewParticipantRows(dto, now, id);
      r := Ok(CreatedDto(store, c, rows));
      store := store.(conversations := store.conversations + [c], participants := store.participants + rows);
      nextConversationId := id + 1;
    }
  }

  // ---- The user directory ----

  /** The entry of GetAllUsersAsync for one user; `roles` is the role list the identity store
      reports, whose first element (or "User") becomes the role. */
  function DirectoryEntry(u: ApplicationUser, roles: map<string, seq<string>>): UserDTO
  {
    var rs := if u.id in roles then roles[u.id] else [];
    EmptyUserDTO.(
      userId := Some(u.id),
      userName := u.userName,
      avatar := u.avatar,
      lastActive := u.lastActive,
      role := Some(if |rs| > 0 then rs[0] else "User"),
      isOnline := Some(u.isActive))
  }

  /** Every user but the caller, in table order. */
  function OtherUsers(users: seq<ApplicationUser>, uid: string): (r: seq<ApplicationUser>)
    ensures forall u :: u in r <==> u in users && u.id != uid
  {
    Filter(users, (u: ApplicationUser) => u.id != uid)
  }

  /** The directory of GetAllUsersAsync: one entry per user other than the caller, in order. */
  function Directory(users: seq<ApplicationUser>, uid: string, roles: map<string, seq<string>>): (r: seq<UserDTO>)
    ensures |r| == |OtherUsers(users, uid)|
    ensures forall i :: 0 <= i < |r| ==> r[i] == DirectoryEntry(OtherUsers(users, uid)[i], roles)
  {
    var others := OtherUsers(users, uid);
    seq(|others|, i requires 0 <= i < |others| => DirectoryEntry(others[i], roles))
  }

  /** GetAllUsersAsync, which builds the directory entry by entry. */
  method GetAllUsers(s: Store, uid: string, roles: map<string, seq<string>>) returns (userDtos: seq<UserDTO>)
    ensures userDtos == Directory(s.users, uid, roles)
  {
    var users := OtherUsers(s.users, uid);
    userDtos := [];
    var i := 0;
    while i < |users|
      invariant 0 <= i <= |users|
      invariant |userDtos| == i
      invariant forall k :: 0 <= k < i ==> userDtos[k] == DirectoryEntry(users[k], roles)
    {
      var user := users[i];
      var rs := if user.id in roles then roles[user.id] else [];
      userDtos := userDtos + [EmptyUserDTO.(
        userId := Some(user.id),
        userName := user.userName,
        avatar := user.avatar,
        lastActive := user.lastActive,
        role := Some(if |rs| > 0 then rs[0] else "User"),
        isOnline := Some(user.isActive))];
      i := i + 1;
    }
  }

  /** The directory leaves out the caller, lists every other user, and gives each the first
      of its roles, or "User" when it has none. */
  lemma DirectoryExcludesOnlyCaller(users: seq<ApplicationUser>, uid: string, roles: map<string, seq<string>>)
    ensures forall d :: d in Directory(users, uid, roles) ==> d.userId.Some? && d.userId != Some(uid)
    ensures forall u :: u in users && u.id != uid ==> DirectoryEntry(u, roles) in Directory(users, uid, roles)
    ensures forall u :: u in users && (u.id !in roles || roles[u.id] == []) ==> DirectoryEntry(u, roles).role == Some("User")
    ensures forall u :: u in users && u.id in roles && roles[u.id] != [] ==> DirectoryEntry(u, roles).role == Some(roles[u.id][0])
  {
    var others := OtherUsers(users, uid);
    var entries := Directory(users, uid, roles);
    forall d | d in entries ensures d.userId.Some? && d.userId != Some(uid) {
      var k :| 0 <= k < |entries| && entries[k] == d;
      assert others[k] in others;
    }
    forall u | u in users && u.id != uid ensures DirectoryEntry(u, roles) in entries {
      var k :| 0 <= k < |others| && others[k] == u;
      assert entries[k] == DirectoryEntry(u, roles);
    }
  }
}
