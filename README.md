# SmileTime chat and clinic services — a Dafny model

This project models the core of the SmileTime.NET API back end. That core is
the real-time conversation system and three clinic services:

- **Presence hubs.** The listed hubs are `src/Infrastructure/Hubs/ChatHub.cs`
  and `Hubs/ChatHub.cs`. Each keeps an in-memory registry from user id to
  `ConnectedUser` and pushes SignalR events to connections. The first hub
  *evicts* a user's entry when a connection closes. The second *retains* the
  entry and only clears `IsOnline`. Each is a `ChatHub` class with fields
  `connectedUsers` (a `map`) and `outbox` (the `seq` of pushed events). Every
  method ensures that the new state equals a pure transition function of the
  old state, and the lemmas are stated about those functions.
- **Conversation store.** `ConversationService`, the chat `MessageService`
  and the legacy `MessageService` are modelled as functions over a `Store`
  value. A `Store` holds the users, conversations, participant rows and
  messages tables. Creating a conversation changes the store, so it is a
  method of the `ChatDatabase` class.
- **MessageMapping.** The mapping profile's conversions between entities and
  DTOs, with round-trip lemmas.
- **Clinic services.**
  - Carousels and dental appointments are classes over a `seq` of rows, with
    an identity counter.
  - Patient management is a class over the identity store: users, per-user
    roles, the known role names and the store's enumeration order.

Some general modelling choices:

- `DateTime.UtcNow` is the parameter `now`. Dates are `int`.
- Each database or Identity call that may fail is a `bool` parameter
  (`saveSucceeds`, `deleteSucceeds` …).
- Exceptions become `Result.Err` values of `ServiceError`: `KeyNotFound` is
  `NotFound`, `UnauthorizedAccess` is `Unauthorized`, `Argument` is
  `InvalidArgument`, `DbUpdate` is `StoreFailure`, and the carousel lookup's
  `InvalidOperation` is `NotFound`.
- C# `null` becomes `Option.None`.
- The model's `UserDTO` has an `IsAdmin` member. `UserDTO.cs` does not declare
  one, but the participant mapping reads it (`MessageMapping.cs:57`) and the
  reverse mapping writes it (`MessageMapping.cs:67`).
- `OrderBy` is a stable insertion sort (`Collections.SortBy`). It is proved
  sorted and a permutation of its input.

## Model

| member | source | states |
|---|---|---|
| Presence.ConnectRegistry | src/Infrastructure/Hubs/ChatHub.cs:36-50 | an anonymous connect changes nothing; otherwise the key set gains exactly the caller, every other entry is unchanged, and the caller's entry is online with the new connection id; a new entry takes the claim name (or "Anonymous") and `now`, while an existing entry keeps its name and connect time |
| Presence.ConnectEvents | src/Infrastructure/Hubs/ChatHub.cs:52-57 | a connect pushes exactly one UserConnected event with the id, the claim name and true to the other connections; an anonymous connection pushes nothing |
| Presence.ConnectKeepsKeys | src/Infrastructure/Hubs/ChatHub.cs:45-50 | a connect keeps the registry keyed by user id: every entry's UserId equals its key |
| Presence.LastConnectWins | src/Infrastructure/Hubs/ChatHub.cs:45-50 | after two connects of the same user, the entry is online and records the second connection id |
| Presence.OnlineSnapshot | src/Infrastructure/Hubs/ChatHub.cs:141-148 | the online set holds exactly the (id, name, true) items of the registered entries that are online |
| Presence.OfflineNotListed | Hubs/ChatHub.cs:98-102 | an entry whose IsOnline is false never appears in the online list |
| EvictingHub.Disconnect | src/Infrastructure/Hubs/ChatHub.cs:74-83 | a disconnect removes exactly the caller's key and leaves every other entry as it was |
| Presence.DisconnectEvents | src/Infrastructure/Hubs/ChatHub.cs:74-81 | in both hubs, one UserDisconnected event with the user id goes to the other connections iff the caller has an entry, and nothing otherwise |
| EvictingHub.PrivateEvents | src/Infrastructure/Hubs/ChatHub.cs:105-118 | nothing is pushed iff there is no sender id or the recipient is not registered; otherwise exactly two ReceivePrivateMessage events with the DTO go out, to the recipient's recorded connection and to the caller |
| EvictingHub.ChatHub.OnConnected | src/Infrastructure/Hubs/ChatHub.cs:28-61 | the registry becomes ConnectRegistry of the old one and the outbox grows by ConnectEvents; an anonymous caller changes nothing |
| EvictingHub.ChatHub.OnDisconnected | src/Infrastructure/Hubs/ChatHub.cs:69-86 | the registry becomes Disconnect of the old one and the outbox grows by DisconnectEvents |
| EvictingHub.ChatHub.SendMessage | src/Infrastructure/Hubs/ChatHub.cs:93-98 | exactly one ReceiveMessage broadcast to all clients is appended; the registry is unchanged |
| EvictingHub.ChatHub.SendPrivateMessage | src/Infrastructure/Hubs/ChatHub.cs:105-119 | the outbox grows by PrivateEvents; the registry is unchanged |
| EvictingHub.ChatHub.UserTyping | src/Infrastructure/Hubs/ChatHub.cs:127-130 | one UserTypingStatus event with the status goes to all clients; the registry is unchanged |
| EvictingHub.ChatHub.GetOnlineUsers | src/Infrastructure/Hubs/ChatHub.cs:139-153 | the caller receives OnlineUsers carrying OnlineSnapshot of the registry |
| EvictingHub.TransitionsKeepInvariant | src/Infrastructure/Hubs/ChatHub.cs:28-86 | connect and disconnect keep the registry keyed by user id and keep every entry online |
| EvictingHub.OnlineListIsWholeRegistry | src/Infrastructure/Hubs/ChatHub.cs:141-152 | because this hub never stores offline entries, the online set holds an item for every registered user and only for registered users |
| EvictingHub.DisconnectedUserUnreachable | src/Infrastructure/Hubs/ChatHub.cs:107-118 | after a user disconnects, a private message to them produces no event |
| EvictingHub.StaleDisconnectEvictsNewerConnection | src/Infrastructure/Hubs/ChatHub.cs:74-83 | as written: after connects from c1 and then c2 the entry records c2, yet closing c1 leaves the user with no entry, and a private message to them produces no event |
| EvictingHub.DisconnectIntended | src/Infrastructure/Hubs/ChatHub.cs:74-83 | corrected disconnect: every other user's entry is kept, no kept entry changes, nothing is added, and the caller's entry is removed iff it records the closing connection |
| EvictingHub.IntendedDisconnectKeepsNewerConnection | src/Infrastructure/Hubs/ChatHub.cs:74-83 | with the corrected disconnect, closing the older connection keeps private messages flowing to the newer one, and closing the newer one removes the entry |
| RetainingHub.Disconnect | Hubs/ChatHub.cs:53-57 | a disconnect keeps every key; only the caller's entry changes, and only its IsOnline becomes false |
| RetainingHub.PrivatePayload | Hubs/ChatHub.cs:75-82 | the payload carries the sender id, the text and the time; the sender name is the sender's registered username, or none when the sender is not registered |
| RetainingHub.PrivateEvents | Hubs/ChatHub.cs:67-88 | nothing is pushed without a sender id or when the recipient is unregistered; otherwise exactly two events go out, one to the recipient's recorded connection and one to the caller; IsOnline is not consulted |
| RetainingHub.ChatHub.OnConnected | Hubs/ChatHub.cs:14-48 | the registry becomes ConnectRegistry of the old one and the outbox grows by ConnectEvents |
| RetainingHub.ChatHub.OnDisconnected | Hubs/ChatHub.cs:50-59 | the registry becomes Disconnect of the old one and the outbox grows by DisconnectEvents |
| RetainingHub.ChatHub.SendMessage | Hubs/ChatHub.cs:61-66 | exactly one ReceiveMessage broadcast is appended; the registry is unchanged |
| RetainingHub.ChatHub.SendPrivateMessage | Hubs/ChatHub.cs:67-88 | the outbox grows by PrivateEvents; the registry is unchanged |
| RetainingHub.ChatHub.UserTyping | Hubs/ChatHub.cs:90-93 | one UserTypingStatus event with the user id and flag goes to all clients; the registry is unchanged |
| RetainingHub.ChatHub.GetOnlineUsers | Hubs/ChatHub.cs:96-103 | the caller receives OnlineUsers carrying OnlineSnapshot of the registry |
| RetainingHub.DisconnectKeepsKeys | Hubs/ChatHub.cs:53-57 | a disconnect keeps the registry keyed by user id |
| RetainingHub.DisconnectedUserHiddenButRetained | Hubs/ChatHub.cs:53-102 | after a disconnect the user is still registered but no longer in the online list |
| RetainingHub.ReconnectAfterDisconnect | Hubs/ChatHub.cs:31-36 | a reconnect after a disconnect makes the user online again with the new connection id, keeping the original name and connect time |
| RetainingHub.OfflineRecipientStillPushed | Hubs/ChatHub.cs:73-86 | as written: after a user connects and disconnects, their entry is offline, yet a private message to them is still pushed to the closed connection and echoed to the caller |
| RetainingHub.PrivateEventsIntended | Hubs/ChatHub.cs:73-86 | corrected relay: nothing is pushed iff there is no sender, the recipient is unknown, or the recipient is offline; otherwise the same two events as the code pushes |
| RetainingHub.IntendedSkipsOfflineRecipient | Hubs/ChatHub.cs:73-86 | with the corrected relay, a private message to a disconnected user produces no event, and one to an online user reaches their connection |
| MessageMapping.DtoToMessageDefaults | src/Aplication/Mappings/MessageMapping.cs:33-40 | a message built from a DTO is not deleted; a missing type becomes "text", a missing sender or content becomes "", and the times are copied |
| MessageMapping.MessageRoundTrip | src/Aplication/Mappings/MessageMapping.cs:23-40 | mapping a message to its DTO and back gives the same message with IsDeleted cleared |
| MessageMapping.MessageDtoRoundTrip | src/Aplication/Mappings/MessageMapping.cs:23-40 | a DTO built from a message, with or without a sender, is reproduced by mapping it to the entity and its Sender and back |
| MessageMapping.DtoToSender | src/Aplication/Mappings/MessageMapping.cs:39 | the entity's Sender is present iff the DTO has a sender, and then has the sender DTO's user id |
| MessageMapping.UserToDtoDefaults | src/Aplication/Mappings/MessageMapping.cs:12-15 | a user's DTO copies the id; a missing name or avatar becomes "" |
| MessageMapping.DtoToUserId | src/Aplication/Mappings/MessageMapping.cs:17-20 | a user built from a DTO has the DTO's user id, or "" when it has none |
| MessageMapping.UserRoundTrip | src/Aplication/Mappings/MessageMapping.cs:12-20 | user → DTO → user keeps the id and last-active time, and turns a missing name or avatar into "" |
| MessageMapping.UserDtoNormalises | src/Aplication/Mappings/MessageMapping.cs:12-20 | user → DTO → user → DTO gives the first DTO again |
| MessageMapping.ParticipantRowsDefaults | src/Aplication/Mappings/MessageMapping.cs:52-61 | one row per participant DTO, with its user id and LeftAt, LastRead `now`, IsAdmin false when missing, ConversationId 0 when missing and JoinedAt `now` when missing |
| MessageMapping.ConversationRoundTrip | src/Aplication/Mappings/MessageMapping.cs:49-52 | Conversation to ConversationDto and back gives the conversation again, and the DTO carries the given participant DTOs |
| MessageMapping.ParticipantToDtoFields | src/Aplication/Mappings/MessageMapping.cs:63-70 | a participant's DTO copies user id, IsAdmin, join and leave times and conversation id, and takes name and avatar from the loaded user, none without one |
| MessageMapping.ParticipantRowRoundTrip | src/Aplication/Mappings/MessageMapping.cs:52-70 | a participant row mapped to its UserDTO and back is the same row with LastRead set to the clock |
| Entities.FindConversation | src/Aplication/services/chat/ConversationService.cs:97 | returns the conversation with the given id, or none iff no such row exists |
| ConversationService.HasRow | src/Aplication/services/chat/ConversationService.cs:118-119 | true iff some participant row links that conversation and that user |
| ConversationService.ParticipantIffRow | src/Aplication/services/chat/ConversationService.cs:116-120 | the participant check is true iff such a row exists |
| ConversationService.LeftParticipantStillMember | src/Aplication/services/chat/ConversationService.cs:116-120 | a row with LeftAt set still counts as membership, because the check ignores LeftAt |
| ConversationService.LastNonDeleted | src/Aplication/services/chat/ConversationService.cs:49-52 | none iff the conversation has no undeleted message; otherwise an undeleted message of that conversation whose CreatedAt is at least every other such message's |
| ConversationService.RowsOfUser | src/Aplication/services/chat/ConversationService.cs:44-45 | exactly the participant rows of the user, in store order |
| ConversationService.GetUserConversationsWithLastMessage | src/Aplication/services/chat/ConversationService.cs:42-56 | one item per participant row of the user, in order: that row's conversation, and a last message that is none iff the conversation is missing or has no undeleted message, and otherwise an undeleted message of it with the greatest CreatedAt |
| ConversationService.RowsWithUser | src/Aplication/services/chat/ConversationService.cs:84-85 | exactly the rows of the conversation whose user exists |
| ConversationService.ConversationMemberDtos | src/Aplication/services/chat/ConversationService.cs:84-94 | one DTO per row, in order; where the row's user exists, the DTO is built from the row and that user |
| ConversationService.GetConversationById | src/Aplication/services/chat/ConversationService.cs:71-106 | NotFound iff the conversation is absent; Unauthorized iff it exists and the caller has no row; otherwise the DTO copies the conversation's fields and lists exactly the participants whose user exists |
| ConversationService.RowsOfConversation | src/Aplication/services/chat/ConversationService.cs:140-141 | exactly the rows of the conversation, in store order |
| ConversationService.GetConversationParticipants | src/Aplication/services/chat/ConversationService.cs:135-161 | Unauthorized iff the caller is not a participant, and no other error; otherwise one DTO per row of the conversation, in order, with its user id, conversation id, join and leave times, role "admin" iff IsAdmin and "member" iff not, and the name, avatar, last-active time and IsActive flag of the row's user (all none when the row has no user); the caller is in the list, so the empty-list KeyNotFound branch cannot fire |
| ConversationService.PartnerRows | src/Aplication/services/chat/ConversationService.cs:173-175 | exactly the rows of other users in conversations the caller belongs to |
| ConversationService.GetUserConversationPartners | src/Aplication/services/chat/ConversationService.cs:171-193 | the list has no duplicates; no entry is the caller, and each entry's conversation has the caller as a participant; the list holds exactly the DTOs of the other users' rows in the caller's conversations |
| ConversationService.ParticipantIds | src/Aplication/services/chat/ConversationService.cs:219 | the user ids of the participant DTOs, in order |
| ConversationService.ExistingUsers | src/Aplication/services/chat/ConversationService.cs:220-222 | exactly the stored users whose id is among the requested ids |
| ConversationService.CreationError | src/Aplication/services/chat/ConversationService.cs:213-227 | InvalidArgument iff there are no participants; the only other error is NotFound |
| ConversationService.ExistingUsersCount | src/Aplication/services/chat/ConversationService.cs:219-224 | with unique user ids in the store, the number of users found equals the number of distinct requested ids that match a stored user |
| ConversationService.PassedCreationHasValidIds | src/Aplication/services/chat/ConversationService.cs:219-227 | if validation passes, the ids are non-empty, all exist and are pairwise distinct |
| ConversationService.ValidIdsPassCreation | src/Aplication/services/chat/ConversationService.cs:219-227 | non-empty, existing, distinct ids pass validation |
| ConversationService.CreationPassesIff | src/Aplication/services/chat/ConversationService.cs:213-227 | validation passes iff the participant ids are non-empty, all exist and are distinct |
| ConversationService.DuplicateParticipantFails | src/Aplication/services/chat/ConversationService.cs:219-227 | listing one existing user twice is rejected with NotFound |
| ConversationService.Stamped | src/Aplication/services/chat/ConversationService.cs:230-231 | CreatedAt and UpdatedAt are kept when set and become `now` when unset; participants, title and type are kept |
| ConversationService.NewParticipantRows | src/Aplication/services/chat/ConversationService.cs:233 | one row per participant DTO, each pointing at the new conversation id |
| ConversationService.NewConversationStamps | src/Aplication/services/chat/ConversationService.cs:230-240 | the created conversation carries the stamped dates, and its new id is not used by any stored conversation |
| ConversationService.ChatDatabase.CreateConversation | src/Aplication/services/chat/ConversationService.cs:208-246 | a validation error, or a failed save reported as StoreFailure, leaves the store and the id counter unchanged; a success appends exactly one conversation with the next id and its participant rows, and returns its DTO; the DTO's Messages are not modelled (see Left out) |
| ConversationService.Directory | src/Aplication/services/chat/ConversationService.cs:299-317 | one entry per user other than the caller, in store order |
| ConversationService.GetAllUsers | src/Aplication/services/chat/ConversationService.cs:296-321 | the loop builds exactly Directory of the store |
| ConversationService.DirectoryExcludesOnlyCaller | src/Aplication/services/chat/ConversationService.cs:299-301 | no entry is the caller; every other stored user has an entry; an entry's role is the user's first role, or "User" when the user has none |
| MessageService.ProjectMessage | src/Aplication/services/chat/MessageService.cs:35-49 | the DTO copies id, conversation, sender id, content, type and both times, and always carries a sender summary |
| MessageService.ProjectionMapsBack | src/Aplication/services/chat/MessageService.cs:37-43 | mapping a projected DTO back gives the message, undeleted |
| MessageService.ProjectAll | src/Aplication/services/chat/MessageService.cs:35 | one DTO per message, in order, each its projection |
| MessageService.DtoCreatedBeforeIsPreorder | src/Aplication/services/chat/MessageService.cs:64 | ordering by CreatedAt is a total preorder |
| MessageService.LiveMessagesOf | src/Aplication/services/chat/MessageService.cs:33-34 | exactly the undeleted messages of the conversation |
| MessageService.LiveMessagesFrom | src/Aplication/services/chat/MessageService.cs:74 | exactly the undeleted messages of the sender |
| MessageService.ProjectSorted | src/Aplication/services/chat/MessageService.cs:35-65 | the result is a permutation of the projections, sorted by CreatedAt, and holds exactly the projections of the given messages |
| MessageService.GetMessagesByConversationId | src/Aplication/services/chat/MessageService.cs:22-66 | Unauthorized iff the caller is not a participant, and no other error; otherwise a permutation of the projections of the conversation's undeleted messages, sorted by CreatedAt |
| MessageService.GetMessagesByUserId | src/Aplication/services/chat/MessageService.cs:68-106 | a permutation of the projections of the undeleted messages the user sent, sorted by CreatedAt |
| MessageService.ListedMessagesAreStored | src/Aplication/services/chat/MessageService.cs:33-43 | every listed DTO maps back to a stored, undeleted message of that conversation, and is that message's projection |
| LegacyMessageService.CreatedBeforeIsPreorder | src/Aplication/services/MessageService.cs:36 | ordering messages by CreatedAt is a total preorder |
| LegacyMessageService.GetMessagesByConversationId | src/Aplication/services/MessageService.cs:20-38 | Unauthorized iff the caller is not a participant, and no other error; otherwise the conversation's undeleted messages, each as often as stored, sorted by CreatedAt |
| LegacyMessageService.GetUserConversationsWithLastMessage | src/Aplication/services/MessageService.cs:40-55 | one item per participant row of the user, with that row's conversation and an undeleted message of it with the greatest CreatedAt, or none iff there is no such message |
| CarouselService.FindCarousel | src/Aplication/services/CarouselService.cs:33-34 | none iff no row has the id; otherwise a stored row with that id |
| CarouselService.IdAtLeastIsPreorder | src/Aplication/services/CarouselService.cs:19 | ordering carousels by id is a total preorder |
| CarouselService.Removed | src/Aplication/services/CarouselService.cs:60-68 | exactly the rows whose id differs |
| CarouselService.ToggleChangesOnlyTarget | src/Aplication/services/CarouselService.cs:78 | toggling changes no field but Activo, and flips it exactly in the rows with the id |
| CarouselService.ToggleTwiceRestores | src/Aplication/services/CarouselService.cs:71-81 | toggling twice restores the table |
| CarouselService.ToggleKeepsKeys | src/Aplication/services/CarouselService.cs:73-78 | toggling keeps the ids unique and leaves every other id's lookup unchanged |
| CarouselService.UpdateReplacesTarget | src/Aplication/services/CarouselService.cs:47-55 | with unique ids, an update of a stored id keeps the ids unique, makes the id find the update, and leaves every other row as it was |
| CarouselService.DeleteRemovesOnlyTarget | src/Aplication/services/CarouselService.cs:60-68 | after a delete the id is not found, and every row with another id is kept as often as it was |
| CarouselService.CarouselTable.GetAllCarousels | src/Aplication/services/CarouselService.cs:16-21 | a permutation of the table, sorted by id descending |
| CarouselService.CarouselTable.GetActiveCarousels | src/Aplication/services/CarouselService.cs:23-29 | exactly the active rows, each as often as stored, sorted by id descending |
| CarouselService.CarouselTable.GetCarouselById | src/Aplication/services/CarouselService.cs:31-36 | a stored row with the id, or NotFound iff there is none |
| CarouselService.CarouselTable.CreateCarousel | src/Aplication/services/CarouselService.cs:38-43 | appends the carousel with the next identity value and returns it; ids stay unique |
| CarouselService.CarouselTable.UpdateCarousel | src/Aplication/services/CarouselService.cs:45-56 | none and no change iff the id is absent; otherwise the row is replaced and the update returned |
| CarouselService.CarouselTable.DeleteCarousel | src/Aplication/services/CarouselService.cs:58-69 | false and no change iff the id is absent; otherwise the row is removed |
| CarouselService.CarouselTable.ToggleCarouselStatus | src/Aplication/services/CarouselService.cs:71-82 | false and no change iff the id is absent; otherwise only its IsActive flips |
| DentalAppointmentService.FindAppointment | src/Aplication/services/dentist/DentalAppointmentService.cs:60 | none iff no row has the id; otherwise a stored row with that id |
| DentalAppointmentService.NewAppointmentFields | src/Aplication/services/dentist/DentalAppointmentService.cs:40-50 | a new appointment takes the caller as dentist and the status "Pending", copies the DTO's patient, date, time, duration and type, and turns missing notes into "" |
| DentalAppointmentService.EditedKeepsOwnership | src/Aplication/services/dentist/DentalAppointmentService.cs:64-68 | an edit takes date, time, duration, type and notes ("" when missing) from the DTO and keeps id, patient, dentist and status |
| DentalAppointmentService.EditedRowsTouchOnlyTarget | src/Aplication/services/dentist/DentalAppointmentService.cs:60-71 | with unique ids, editing keeps every id, leaves rows with other ids as they were, and makes the id find the edited row |
| DentalAppointmentService.Removed | src/Aplication/services/dentist/DentalAppointmentService.cs:82 | exactly the rows whose id differs |
| DentalAppointmentService.ScheduleOrderIsPreorder | src/Aplication/services/dentist/DentalAppointmentService.cs:102-103 | date descending, then time ascending, is a total preorder |
| DentalAppointmentService.Schedule | src/Aplication/services/dentist/DentalAppointmentService.cs:99-104 | exactly the selected rows, each as often as stored, sorted by date descending then time |
| DentalAppointmentService.AppointmentTable.CreateAppointment | src/Aplication/services/dentist/DentalAppointmentService.cs:36-56 | Unauthorized and no change when the caller id is missing or empty; otherwise appends and returns the new appointment with the next id |
| DentalAppointmentService.AppointmentTable.UpdateAppointment | src/Aplication/services/dentist/DentalAppointmentService.cs:58-74 | NotFound and no change when the id is absent; otherwise the rows with that id are edited and the edited row is returned |
| DentalAppointmentService.AppointmentTable.DeleteAppointment | src/Aplication/services/dentist/DentalAppointmentService.cs:76-85 | false and no change iff the id is absent; otherwise the row is removed |
| DentalAppointmentService.AppointmentTable.GetAppointmentById | src/Aplication/services/dentist/DentalAppointmentService.cs:87-95 | NotFound iff the id is absent; otherwise a stored row with that id |
| DentalAppointmentService.AppointmentTable.GetAppointmentsByDentistId | src/Aplication/services/dentist/DentalAppointmentService.cs:97-105 | exactly the dentist's appointments, each as often as stored, in schedule order |
| DentalAppointmentService.AppointmentTable.GetAppointmentsByPatientId | src/Aplication/services/dentist/DentalAppointmentService.cs:107-115 | exactly the patient's appointments, each as often as stored, in schedule order |
| DentalAppointmentService.DeleteRemovesOnlyTarget | src/Aplication/services/dentist/DentalAppointmentService.cs:78-84 | after a delete the id is not found, and every row with another id is kept as often as it was |
| Text.ContainsIgnoreCaseSpec | src/Aplication/services/dentist/PacientManagementServiceImpl.cs:152-153 | case-insensitive Contains holds iff the term occurs, up to ASCII case, at some position of the text |
| PacientManagement.MatchesTermSpec | src/Aplication/services/dentist/PacientManagementServiceImpl.cs:151-154 | a patient matches iff the term occurs, ignoring case, in the full name or the user name, a missing one never matching |
| PacientManagement.ToPacientModels | src/Aplication/services/dentist/PacientManagementServiceImpl.cs:155-162 | one model per user, in order, each the user's projection |
| PacientManagement.ProjectionKeepsSubsequence | src/Aplication/services/dentist/PacientManagementServiceImpl.cs:155-162 | projecting a subsequence of users gives a subsequence of the projected models |
| PacientManagement.PacientIds | src/Aplication/services/dentist/PacientManagementServiceImpl.cs:41 | exactly the ids in the enumeration order whose user exists and holds the "User" role |
| PacientManagement.PacientIdsNoDup | src/Aplication/services/dentist/PacientManagementServiceImpl.cs:41 | when the store's enumeration has no repeated id, neither has the list of patient ids |
| PacientManagement.IdentityStore.GetPacientById | src/Aplication/services/dentist/PacientManagementServiceImpl.cs:25-31 | the user iff it exists and holds the "User" role; none otherwise |
| PacientManagement.IdentityStore.GetAllPacients | src/Aplication/services/dentist/PacientManagementServiceImpl.cs:39-42 | exactly the stored users holding the "User" role, each once, in the store's enumeration order |
| PacientManagement.IdentityStore.Matching | src/Aplication/services/dentist/PacientManagementServiceImpl.cs:149-154 | exactly the patients that match the term, as a subsequence of all patients |
| PacientManagement.IdentityStore.SearchPacientsByName | src/Aplication/services/dentist/PacientManagementServiceImpl.cs:147-163 | the models of exactly the matching patients, a subsequence of the full patient list |
| PacientManagement.IdentityStore.UpdatePacient | src/Aplication/services/dentist/PacientManagementServiceImpl.cs:51-62 | true iff the user is a patient and the update succeeds; then only the user name, email and phone are replaced; otherwise nothing changes |
| PacientManagement.IdentityStore.DeletePacient | src/Aplication/services/dentist/PacientManagementServiceImpl.cs:69-77 | true iff the user is a patient and the delete succeeds; then the user, their roles and their place in the order are removed; otherwise nothing changes |
| PacientManagement.IdentityStore.AssignPacientRole | src/Aplication/services/dentist/PacientManagementServiceImpl.cs:86-101 | false and no change for an unknown user; otherwise the "User" role is registered, the result is true when the user already holds it, and else the user gains it iff the add succeeds, which is then the result |
| PacientManagement.IdentityStore.RemovePacientRole | src/Aplication/services/dentist/PacientManagementServiceImpl.cs:133-139 | true iff the user exists, holds the "User" role and the removal succeeds; then only that role is removed from the user; otherwise nothing changes |

## Left out

- Concurrency of the hub registry: each model method is one atomic step, and there are no interleavings between its lookup and its update.
- SignalR delivery: pushes are values appended to `outbox`. Whether a push to a closed connection fails is not modelled; the push is recorded either way.
- Logging in both hubs.
- EvictingHub.ChatHub and RetainingHub.ChatHub model the code as written. The corrected functions stand beside them, and the classes do not use them.
- Presence.OnlineSnapshot: the online list is a set, so the order of the dictionary's values and repeated items are not modelled.
- UserTyping and SendMessage: the arguments typed `Object` (`userId` of UserTyping, `message` of SendMessage at src/Infrastructure/Hubs/ChatHub.cs:93 and Hubs/ChatHub.cs:61) are modelled as strings.
- A null recipient id: `TryGetValue` throws `ArgumentNullException` for it (src/Infrastructure/Hubs/ChatHub.cs:113, Hubs/ChatHub.cs:73). The model's recipient id is a string and cannot be null.
- PrivateMessageDTO in the first hub is passed through unchanged, so its fields are not modelled.
- Conversation `Type` and `Title` are `Option<string>`, which is how the DTO sees them.
- MessageMapping.MessageRoundTrip: the model's `Message` has no `Sender` navigation. The Sender that the reverse map builds from `MessageDTO.Sender` (`MessageMapping.cs:39`) is the separate function `DtoToSender`, so this lemma is about the stored columns and MessageDtoRoundTrip covers the sender.
- Attachments and message statuses in the DTOs: their element types are not part of this model.
- StringLength and other data-annotation validation.
- Pagination parameters of the chat MessageService are left out; the model returns the whole ordered list.
- CreateMessage is left out; it is not among the modelled operations.
- LINQ `OrderBy` ties: SQL leaves the order of equal keys unspecified. The model uses a stable sort, so it proves sortedness and a permutation, but no particular order among ties.
- ConversationService.LastNonDeleted: when several undeleted messages share the greatest CreatedAt, the model picks the first in store order. The database may pick any of them.
- A participant row whose conversation row is missing gives Conversation none. The foreign-key constraint makes that case impossible in the database.
- Missing `Sender`/`User` navigations become none fields in the DTOs rather than null-reference failures.
- Identity columns: new conversation, carousel and appointment ids come from a `nextId` counter. A caller-supplied non-zero id is not modelled.
- ConversationService.ChatDatabase.CreateConversation: the `Messages` collection of the request DTO (`ConversationDto.cs:17`) is not modelled. The mapping profile carries those messages into the new conversation, the save inserts them with it, and the returned DTO lists them. The model's DTO has no messages field, so for a request that carries messages it states neither the inserted message rows nor the returned messages. Their keys, conversation ids and sender navigations depend on Entity Framework's key generation and relationship fix-up, which are not part of this model.
- ConversationService.ChatDatabase.CreateConversation: the in-place stamping of the caller's DTO is not modelled; the stamped copy is returned instead.
- Save failures of the carousel and appointment tables are not modelled; their SaveChanges always succeeds in the model.
- PacientManagement.IdentityStore.AssignPacientRole: a failure to create the missing "User" role is not modelled; role creation always succeeds.
- The identity store's enumeration order is the explicit `order` field.
- OrdinalIgnoreCase folds ASCII letters only.
- The appointment time ordering is ordinal, not the database collation.
- GetUserDentists and GetUserPatients are one Identity role query per user, so they are not modelled.
- CreatePacientFromUser needs Identity's id and password generation, so it is not modelled.
- Time is an `int` parameter `now`; calendar arithmetic is not modelled.

## Findings

| source | as written | input that shows it | evidently intended | confidence | as-written member | corrected member |
|---|---|---|---|---|---|---|
| src/Infrastructure/Hubs/ChatHub.cs:74-83 | on disconnect the entry keyed by the user id is removed, whichever connection it records | user u connects from c1, then from c2, then c1 closes: u has no entry while c2 is open, so private messages to u are dropped | remove the entry only when it records the connection that closed | medium; not executed | EvictingHub.StaleDisconnectEvictsNewerConnection | EvictingHub.DisconnectIntended |
| Hubs/ChatHub.cs:73-86 | the recipient lookup does not check IsOnline, and disconnected entries are kept | user u connects from c1 and disconnects; then a private message to u is pushed to the closed c1 and echoed to the sender | skip recipients whose entry is offline | medium; not executed | RetainingHub.OfflineRecipientStillPushed | RetainingHub.PrivateEventsIntended |
