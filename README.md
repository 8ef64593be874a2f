# Zap2 chat: a verified model

Zap2 is a chat application. Its backend is Django REST Framework plus Django Channels; its client is a React single-page app. This project models the logic of both halves in Dafny and proves what each piece promises.

**Backend** (`backend/chat/`):
- `ChatModels`: the database as a `Store` of maps keyed by id, held by a `Database` class. It covers the uniqueness rules, message ordering, the cascade and set-null delete rules, and the profile-creation receiver.
- `ChannelLayers`: the channel layer as a map from group name to channel names, plus a log of group sends.
- `Consumers`: the WebSocket consumer, namely connect, disconnect, receive, save and the room-access check.
- `Serializers`: field cleaning, message validation, create and update, the last-message summary, the unread count, the user update and the size validators.
- `Permissions`: the owner-or-read-only permission.
- `Views`: room visibility, room creation, invitations, the message list with its read-marker side effect, message creation, the username check and login.

**Client** (`frontend/src/`):
- `ChatReducer`: the reducer over the chat state, every action, and the reaction-toggle decision.
- `ApiClient`: the WebSocket service. It covers the listener table, the bounded reconnect counter, `disconnect`, the send helpers, the URL choice of `request` and the username check.
- `Reactions`: grouping reactions by emoji. It is written once, as a loop proved against a functional definition, and used by the reactions display and both reactions dialogs.
- `MessageList`, `MessageView` and `ChatArea`: run classification, date and unread chips, delete and edit visibility, the bubble layout, truncation, the first unread index and the dialog mode.
- `MediaGrid`, `ImageViewer` and `MediaPreview`: the media layout by count, the cyclic viewer and the file-size bands.
- `MessageComposer` and `LegacyComposer`: the current and older message boxes.
- `Sidebar`: the room search and room creation.
- `RoomDetails`: the group-info dialog.
- `ProfileDialog` and `LegacyProfileDialog`: the current and older profile dialogs.
- `Authentication`: the sign-in and sign-up page.
- `Common` and `DialogModes`: shared helpers, including JavaScript's white space and `trim`, Python's `strip` (applied by every DRF text field), UTF-16 lengths as JavaScript's `length` counts them, `filter`, `findIndex` and `includes`.

**How it is modelled:**
- A component whose state React updates is a class, with one field per `useState`.
- An awaited handler is split into a `Begin` step and a `Finish` step. The `Finish` step takes the outcome of the call as a parameter.
- A button disabled while a call is pending becomes a guard in the step it triggers.
- The network, the clock, the file system and libraries are parameters:
  - `now` is a parameter; timestamps are integers.
  - `day(timestamp)` is the date key.
  - Django's `authenticate` and yup's email test are parameters.
  - Thrown errors are a `SaveOutcome`.

## Model

| member | source | states |
|---|---|---|
| Common.Trim | frontend/src/components/message_input/index.tsx:55-57 | `trim` yields an infix of the input that neither starts nor ends with white space |
| Common.BlankIffAllWhitespace | frontend/src/components/message_input/index.tsx:51 | a string trims to nothing exactly when every character is white space |
| Common.NatToStringInjective | backend/chat/consumers.py:30 | distinct room ids give distinct group names (their decimal renderings differ) |
| Common.ToLower | frontend/src/components/sidebar.tsx:136 | lower-casing keeps the length and maps each ASCII capital to its small letter; other characters stay as they are (see Left out) |
| Common.TrimStartCutsWhitespace | frontend/src/components/message_input/index.tsx:55-57 | everything cut from the front by `trim` is white space |
| Common.TrimEndCutsWhitespace | frontend/src/components/message_input/index.tsx:55-57 | everything cut from the back by `trim` is white space |
| Common.TrimmedEmptyIff | frontend/src/components/message_input/index.tsx:51 | cutting a white-space class from both ends leaves nothing exactly when every character is in that class |
| Common.Strip | backend/chat/models.py:44 | Python `strip`, which the text fields apply: an infix of the input that neither starts nor ends with Python white space |
| Common.StripEmptyIff | backend/chat/models.py:44 | a submitted value strips to nothing exactly when every character is Python white space |
| Common.StripPadded | backend/chat/models.py:30 | a value that neither starts nor ends with white space, padded with white space on either side, strips back to itself |
| Common.Utf16Length | frontend/src/components/message/index.tsx:57 | `length` in UTF-16 code units: between the character count and twice it, equal to it exactly when no character lies beyond U+FFFF |
| Common.PrefixWithin | frontend/src/components/message/index.tsx:60 | the longest run of whole characters from the start whose UTF-16 length is within the limit; the whole string when it fits |
| Common.FilterCounts | frontend/src/pages/chat.tsx:288-290 | `filter` keeps every kept element exactly as many times as it occurs and drops every other one entirely |
| Common.FindIndex | frontend/src/pages/chat.tsx:168 | `findIndex`: -1 exactly when no element satisfies the test, otherwise the first index whose element does |
| ChatModels.EmptyStore | backend/chat/models.py:10-61 | the empty database satisfies every schema invariant: fresh keys, intact foreign keys, unique (user, room) memberships, unique room names and usernames, one profile per user |
| ChatModels.MembershipOf | backend/chat/models.py:19-25 | finds a membership row exactly when the user is a member of the room, and the row found links that user to that room |
| ChatModels.AddMember | backend/chat/models.py:19-33 | afterwards the user is a member; an existing member leaves the store unchanged; otherwise exactly one row read up to `now` is added under a fresh key |
| ChatModels.AddMemberValid | backend/chat/models.py:24-25 | adding an existing user to an existing room keeps every schema invariant, in particular the uniqueness of (user, room) |
| ChatModels.MarkRead | backend/chat/models.py:22 | only the read marker of the one membership row changes; its user, its room and every other row stay as they were |
| ChatModels.MarkReadValid | backend/chat/models.py:19-25 | moving a read marker keeps every schema invariant |
| ChatModels.MarkReadKeepsMembers | backend/chat/models.py:19-25 | moving a read marker neither adds nor removes a member of any room |
| ChatModels.CreateUser | backend/chat/models.py:68-74 | a taken username stores nothing and yields no key; otherwise the new user gets a fresh key, is no superuser, and gets exactly one empty profile, and no other table changes |
| ChatModels.CreateUserValid | backend/chat/models.py:68-74 | creating a user keeps every schema invariant, so every user still has exactly one profile; the new key was not in use |
| ChatModels.WithMessage | backend/chat/models.py:41-46 | a new message row is stored under a key not in use before, and every other table and every other message row is unchanged |
| ChatModels.WithMessageRefs | backend/chat/models.py:42-46 | a message whose room, author and reply target exist leaves every foreign key naming an existing row |
| ChatModels.WithMessageValid | backend/chat/models.py:41-46 | adding such a message keeps every schema invariant, fresh keys included |
| ChatModels.Unlinked | backend/chat/models.py:46 | a reply to a deleted message loses its `reply_to`; every other field of the message is unchanged |
| ChatModels.DeleteMessages | backend/chat/models.py:46-61 | exactly the deleted messages disappear; replies to them stay with `reply_to` emptied; exactly the media rows attached to them go (CASCADE); nothing else changes |
| ChatModels.DeleteMessagesValid | backend/chat/models.py:46-61 | deleting messages leaves no dangling `reply_to` or media link |
| ChatModels.DeleteMessage | backend/chat/models.py:46-61 | the message goes, all others stay; replies to it lose `reply_to`; exactly its media rows go; users, rooms and memberships are untouched |
| ChatModels.DeleteMessageValid | backend/chat/models.py:46-61 | deleting one message keeps every schema invariant |
| ChatModels.RoomMessageIds | backend/chat/models.py:42 | the keys of exactly the messages of the room (`room.messages`) |
| ChatModels.DeleteRoom | backend/chat/models.py:21-46 | the room, exactly its memberships and exactly its messages are deleted (CASCADE); surviving messages lose a `reply_to` into the room (SET_NULL); media rows attached to its messages go, all others stay unchanged; surviving memberships, users, profiles and the key counter are unchanged |
| ChatModels.DeleteRoomRefs | backend/chat/models.py:21-61 | when every foreign key names an existing row, it still does after a room is deleted (cascades and SET_NULL included) |
| ChatModels.DeleteRoomValid | backend/chat/models.py:21-42 | deleting a room keeps every schema invariant |
| ChatModels.Disowned | backend/chat/models.py:32 | a room owned by the deleted user keeps its name and privacy and loses its owner (SET_NULL) |
| ChatModels.UserMessageIds | backend/chat/models.py:43 | the keys of exactly the messages the user wrote |
| ChatModels.DeleteUser | backend/chat/models.py:11-46 | the user, their profile, exactly their memberships and exactly their messages are deleted (CASCADE); surviving messages lose a `reply_to` to theirs (SET_NULL); media rows attached to their messages go, all others stay unchanged; surviving memberships and the key counter are unchanged; every room stays, disowned when they owned it (SET_NULL) |
| ChatModels.DeleteUserRefs | backend/chat/models.py:11-46 | when every foreign key names an existing row, it still does after a user is deleted (cascades and SET_NULL included) |
| ChatModels.DeleteUserValid | backend/chat/models.py:11-43 | deleting a user keeps every schema invariant, including unique room names |
| ChatModels.ReplaceMessageValid | backend/chat/models.py:40-46 | replacing a stored message by one whose room, author and reply target exist keeps every schema invariant |
| ChatModels.ReplaceMessageRefs | backend/chat/models.py:40-46 | replacing a stored message by one with existing references keeps every foreign key pointing at an existing row |
| ChatModels.EarliestExists | backend/chat/models.py:48-50 | every non-empty set of messages has an earliest one under the timestamp ordering (ties by key) |
| ChatModels.Ordered | backend/chat/models.py:48-50 | lists exactly the given messages, each once, in strictly ascending timestamp order (ties by key) |
| ChatModels.LastMessage | backend/chat/models.py:42-50 | `room.messages.last()`: none exactly when the room has no message; otherwise a message of the room later than every other message of the room |
| ChatModels.Database.constructor | backend/chat/models.py:10-61 | the shared database starts with the given rows |
| ChannelLayers.Added | backend/chat/consumers.py:30 | after `group_add` the channel is in the group, the group exists, and every other group is unchanged |
| ChannelLayers.Discarded | backend/chat/consumers.py:36 | after `group_discard` the channel is out of the group, an emptied group is removed, an unknown group changes nothing, and every other group is unchanged |
| ChannelLayers.Subscribed | backend/chat/consumers.py:29-30 | after joining a set of groups the channel is in each of them and every group outside the set is unchanged |
| ChannelLayers.Unsubscribed | backend/chat/consumers.py:35-36 | after leaving a set of groups the channel is in none of them and every group outside the set is unchanged |
| ChannelLayers.SubscribedNothing | backend/chat/consumers.py:29-30 | joining no group changes nothing |
| ChannelLayers.SubscribeStep | backend/chat/consumers.py:29-30 | one more `group_add` extends the joined set by that group |
| ChannelLayers.UnsubscribeStep | backend/chat/consumers.py:35-36 | one more `group_discard` extends the left set by that group |
| ChannelLayers.UnsubscribeUndoesSubscribe | backend/chat/consumers.py:28-36 | leaving the groups just joined restores the layer exactly, when the channel was in no group and no group was empty |
| ChannelLayers.UnsubscribeAbsent | backend/chat/consumers.py:33-36 | leaving groups the channel never joined changes nothing |
| ChannelLayers.Layer.constructor | backend/chat/consumers.py:30 | the layer starts with no group and no message sent |
| ChannelLayers.Layer.GroupAdd | backend/chat/consumers.py:30 | the groups become `Added` of the old groups; nothing is sent |
| ChannelLayers.Layer.GroupDiscard | backend/chat/consumers.py:36 | the groups become `Discarded` of the old groups; nothing is sent |
| ChannelLayers.Layer.GroupSend | backend/chat/consumers.py:53-59 | exactly one event is appended to the log; the groups are unchanged |
| Consumers.GroupName | backend/chat/consumers.py:30-54 | the group of a room is `chat_` followed by the room's key |
| Consumers.GroupNameInjective | backend/chat/consumers.py:30-54 | two rooms never share a group name |
| Consumers.GroupNames | backend/chat/consumers.py:29-30 | every listed room's group is among the names |
| Consumers.GroupNamesAdd | backend/chat/consumers.py:29-30 | one more room adds exactly its group name |
| Consumers.UserChatRoomsIgnoreMembership | backend/chat/consumers.py:65-67 | as written, the channel of a user joins the group of a private room the user is not a member of |
| Consumers.SaveMessage | backend/chat/consumers.py:74-88 | nothing is stored exactly when the room is missing or a truthy `reply_to_id` names no message of that room; otherwise one message with a fresh key, the sender, the content, `now` and the reply target (only when truthy) is added and nothing else changes |
| Consumers.SaveMessageValid | backend/chat/consumers.py:74-88 | saving a message from an existing user keeps every schema invariant, including that a reply targets an existing message |
| Consumers.SaveMessageIgnoresMembership | backend/chat/consumers.py:76-79 | a user who is not a member can still post to any existing room |
| Consumers.CheckRoomAccess | backend/chat/consumers.py:91-100 | a missing room is refused, a public room is open to everyone, a private room exactly to its members |
| Consumers.JoinStep | backend/chat/consumers.py:29-30 | one loop iteration of `connect` extends the joined rooms by one room |
| Consumers.LeaveStep | backend/chat/consumers.py:35-36 | one loop iteration of `disconnect` extends the left rooms by one room |
| Consumers.JoinAll | backend/chat/consumers.py:29-30 | after the loop the channel has joined the group of every room and nothing was sent |
| Consumers.LeaveAll | backend/chat/consumers.py:35-36 | after the loop the channel has left the group of every room and nothing was sent |
| Consumers.UserChatConsumer.constructor | backend/chat/consumers.py:12 | a consumer starts anonymous, neither accepted nor closed |
| Consumers.UserChatConsumer.Connect | backend/chat/consumers.py:14-31 | an anonymous connection is closed and joins nothing; an authenticated one is accepted and joins the group of every room; nothing is sent |
| Consumers.UserChatConsumer.Disconnect | backend/chat/consumers.py:33-36 | the channel leaves the group of every room; nothing is sent |
| Consumers.UserChatConsumer.Receive | backend/chat/consumers.py:39-59 | an anonymous sender changes nothing; otherwise the store becomes `SaveMessage`'s, and exactly one `chat.message` event for the room's group is sent when and only when a message was saved |
| Consumers.ConnectThenDisconnect | backend/chat/consumers.py:14-36 | connecting and then disconnecting, with no room created or deleted in between, leaves the groups exactly as they were |
| Consumers.UserChatRooms | backend/chat/consumers.py:65-67 | as written: every room in the store, whoever the user is |
| Serializers.ValidateAvatarImg | backend/chat/serializers.py:16-19 | an avatar passes, unchanged, exactly when it is at most 5 MiB; otherwise the `avatar_img` field is refused |
| Serializers.ValidateFile | backend/chat/serializers.py:78-81 | a media file passes, unchanged, exactly when it is at most 10 MiB; otherwise the `file` field is refused |
| Serializers.CleanContent | backend/chat/models.py:44 | a text field strips a sent value and leaves an absent one absent |
| Serializers.ValidateMessage | backend/chat/serializers.py:96-102 | a message is refused exactly when its content is absent or only white space (it is stripped first) and its media ids are absent or empty |
| Serializers.LinkMedia | backend/chat/serializers.py:118-142 | exactly the listed media rows that are not yet attached get attached to the message; every other media row and every other table is unchanged |
| Serializers.LinkMediaKeepsLinks | backend/chat/serializers.py:119-141 | a media row already attached to a message keeps that message |
| Serializers.LinkMediaValid | backend/chat/serializers.py:118-120 | attaching media to an existing message keeps every schema invariant |
| Serializers.CreateMessage | backend/chat/serializers.py:105-123 | refused (on `reply_to_id`) exactly when a truthy reply target is missing; otherwise one message from the requester with the next key, the stripped content (empty when absent), the time and the reply target (only when truthy) is added; the media table becomes that of linking the listed ids to it, or stays; users, rooms, memberships and profiles are unchanged |
| Serializers.CreateAcceptsCrossRoomReply | backend/chat/serializers.py:109-112 | a reply to a message of another room is accepted and recorded |
| Serializers.InsertMessage | backend/chat/serializers.py:116 | the message row gets the next key and only the message table and the counter change |
| Serializers.InsertMessageValid | backend/chat/serializers.py:116 | inserting a message from an existing user into an existing room, with an existing or no reply target, keeps every schema invariant |
| Serializers.CreateMessageValid | backend/chat/serializers.py:105-123 | a successful create keeps every schema invariant |
| Serializers.UpdateMessage | backend/chat/serializers.py:125-144 | a sent room that does not exist is refused first, then the message validation, then a truthy missing reply target; it is accepted exactly when none applies; then only the message changes: room when sent, stripped content when sent, reply target replaced when truthy, cleared when absent or null, kept when 0; the media table becomes that of linking the listed ids, or stays |
| Serializers.UpdateMessageValid | backend/chat/serializers.py:125-144 | an accepted update keeps every schema invariant |
| Serializers.ContentOnlyEditClearsReply | backend/chat/serializers.py:126-136 | an edit that sends only new, not blank content clears the message's reply link |
| Serializers.SummaryText | backend/chat/serializers.py:170-177 | a message with media is previewed with the camera prefix and its content, or `Media` when it has none; without media the content itself |
| Serializers.SummaryTextShape | backend/chat/serializers.py:170-177 | a media preview starts with the camera prefix, and every preview ends with the whole non-empty content |
| Serializers.GetLastMessage | backend/chat/serializers.py:165-179 | none exactly when the room has no messages; otherwise the author's username, the preview and the time of a message of the room later than all its others |
| Serializers.UnreadIds | backend/chat/serializers.py:189 | only messages of the room written by someone else after the read marker |
| Serializers.GetUnreadCount | backend/chat/serializers.py:181-191 | 0 for an anonymous user and for a non-member; for a member, the number of messages of the room by others later than the member's read marker; never more than the room's messages |
| Serializers.SubsetCard | backend/chat/serializers.py:189 | a subset is never larger than its superset, so the unread count is bounded by the room's size |
| Serializers.MarkReadClearsUnread | backend/chat/serializers.py:181-191 | marking a room read no earlier than its latest message leaves the member with nothing unread in it |
| Serializers.UpdateUserAsWritten | backend/chat/serializers.py:30-62 | as written: a non-superuser sending `is_superuser` is refused; a validated request that carries no profile field raises an exception (`pop` without a default) |
| Serializers.ValidateUserPatch | backend/chat/serializers.py:22-27 | accepted exactly when a sent username, once stripped, is non-empty, at most 150 characters and no other user's, a sent bio is at most 128 characters once stripped and a sent avatar is at most 5 MiB; an accepted patch is the stripped one |
| Serializers.PaddedUsernameIsTaken | backend/chat/serializers.py:22-27 | another user's name padded with white space is stripped and refused as taken |
| Serializers.UpdateUserFields | backend/chat/serializers.py:36-60 | the username changes when sent; the profile, when sent with a bio or an avatar, gets the new bio (when sent) and the new or cropped avatar (when sent); otherwise the profile and all other tables are unchanged |
| Serializers.UpdateUser | backend/chat/serializers.py:30-62 | corrected: succeeds exactly when validation passes and no non-superuser sends `is_superuser`; the same users keep their keys; the username is the one sent or the old one; the superuser flag is never written; without profile fields the profiles are unchanged |
| Serializers.UpdateUserAgreesWithProfile | backend/chat/serializers.py:39-58 | whenever the request carries a profile field, the as-written and corrected updates agree |
| Serializers.RenameOnlyFailsAsWritten | backend/chat/serializers.py:39 | a request that only renames the user to a free name fails as written and succeeds corrected |
| Serializers.UpdateUserValid | backend/chat/serializers.py:30-62 | a successful update keeps every schema invariant, in particular unique usernames |
| Permissions.HasObjectPermission | backend/chat/permissions.py:6-11 | a read-only method is always allowed; any other method exactly when the requester is logged in and owns the object |
| Permissions.OwnerlessIsReadOnly | backend/chat/permissions.py:9-11 | an object without an owner (its owner was deleted) can be read by anyone and changed by no one |
| Views.CheckUsername | backend/chat/views.py:37-41 | answers 200 exactly when some user has the username, 404 otherwise |
| Views.LoginStatus | backend/chat/views.py:86-101 | a request missing the username or the password field fails with a server error; otherwise 200 exactly when the credentials authenticate, 401 when they do not |
| Views.RoomQueryset | backend/chat/views.py:117-119 | exactly the public rooms and the rooms the user is a member of, each once |
| Views.WithRoom | backend/chat/views.py:123 | the saved room row gets the next key and the requester as owner; nothing else changes |
| Views.WithRoomValid | backend/chat/views.py:123 | saving a room with an acceptable, unused name and an existing owner keeps every schema invariant, in particular unique room names |
| Views.CreateRoom | backend/chat/views.py:122-124 | the new room is owned by the requester, who is a member of it; users, messages and media are unchanged |
| Views.CreateRoomValid | backend/chat/views.py:122-124 | creating a room keeps every schema invariant |
| Views.CreatorSeesRoom | backend/chat/views.py:117-124 | the creator of a room, even a private one, finds it in their room list |
| Views.InviteDecide | backend/chat/views.py:126-141 | a room the requester cannot see gives 404, a requester who is not its owner 403, a missing username 400, an unknown username 404, a member 200; only the owner's invitation of an existing non-member adds a member |
| Views.ChatRoomViewSet.constructor | backend/chat/views.py:112-115 | the endpoint works on the given database |
| Views.ChatRoomViewSet.Create | backend/chat/views.py:121-124 | anonymous: 403 and no change; a stripped name the serializer rejects: 400 and no change; otherwise 201, the store of `CreateRoom` under the stripped name, and the room is in the creator's list; the schema invariants hold afterwards |
| Views.JoinAndMark | backend/chat/views.py:175-193 | in a public room the reader ends a member whose marker is `now`; one membership with the next key is added exactly when they were not a member; no other membership row changes |
| Views.ChatRoomViewSet.Invite | backend/chat/views.py:126-141 | answers the status `InviteDecide` chooses without writing, or adds the invited user with 200; the schema invariants hold afterwards |
| Views.MessageQueryset | backend/chat/views.py:150-156 | exactly the messages of the queried room (all messages without a query), in ascending timestamp order |
| Views.ListMarker | backend/chat/views.py:175-193 | an unknown room, or a private room the reader is not in, changes nothing; otherwise the reader is a member whose read marker is `now`; a membership with the next key appears exactly when a public room is joined; no other membership row changes; rooms, messages, users, profiles and media are untouched |
| Views.ListMarkerValid | backend/chat/views.py:175-193 | the read-marker side effect keeps every schema invariant |
| Views.ListNeverJoinsPrivate | backend/chat/views.py:184-191 | listing a private room never makes the reader a member of it |
| Views.MessageViewSet.constructor | backend/chat/views.py:144-148 | the endpoint works on the given database and channel layer |
| Views.MessageViewSet.List | backend/chat/views.py:147 | anonymous: 403 and no change; otherwise 200, the read marker updated for a room query, and the ordered filtered messages of the updated store (also lines 173-195) |
| Views.MessageViewSet.Create | backend/chat/views.py:147-171 | 201 exactly when the requester is logged in, the write validates, the room exists and the reply target exists; then the message is stored with the requester as author and one `chat.message` event goes to the room's group; any other answer changes nothing and sends nothing |
| Views.RoomNameAcceptable | backend/chat/models.py:30 | a room name is acceptable exactly when it is non-empty, at most 255 characters and not another room's |
| Views.BlankRoomNameRefused | backend/chat/models.py:30 | a name of white space only is stripped to nothing and refused |
| Views.PaddedRoomNameRefused | backend/chat/models.py:30 | an existing room's name padded with white space is stripped and refused as taken |
| ApiClient.PlanRequest | frontend/src/api/index.ts:27-38 | an endpoint starting with `http` is used as it is, any other is appended to the API base; the JSON content type is set exactly when the body is not form data |
| ApiClient.PlannedUrlIsAbsolute | frontend/src/api/index.ts:13-28 | every request URL starts with `http` |
| ApiClient.ReadResponse | frontend/src/api/index.ts:46-59 | a 500 answer throws; a `Content-Length` of `0` yields the status alone; any other answer yields its status with a body |
| ApiClient.UserExistsAsWrittenNeverTrue | frontend/src/api/index.ts:234-237 | as written, the username check never reports a taken name, whatever the database holds, because the server answers only 200 or 404 |
| ApiClient.UserExistsMatchesStore | frontend/src/api/index.ts:234-237 | corrected (200 means taken), the check reports exactly the usernames some user has |
| ApiClient.Registered | frontend/src/api/index.ts:396-401 | `on` stores the callback only for an event with no entry; an event that has one keeps it |
| ApiClient.UnregisteredAsWritten | frontend/src/api/index.ts:403-408 | as written, `off` keeps the key and leaves `undefined` under it |
| ApiClient.Unregistered | frontend/src/api/index.ts:403-408 | corrected, `off` removes exactly that event's entry and keeps all others |
| ApiClient.Dispatch | frontend/src/api/index.ts:410-415 | no key: nothing is called; a stored callback: exactly it is called; a key holding `undefined`: `undefined` is called |
| ApiClient.FirstRegistrationWins | frontend/src/api/index.ts:396-401 | after two registrations for one event, only the first callback is called |
| ApiClient.OffThenOnAsWrittenFails | frontend/src/api/index.ts:396-415 | as written, after on, off and on again, the event calls `undefined` |
| ApiClient.OffThenOnRegisters | frontend/src/api/index.ts:396-415 | corrected, an unregistered event calls nothing, and after on, off and on again the new callback is called |
| ApiClient.CorrectedTableNeverCallsUndefined | frontend/src/api/index.ts:396-415 | a table built only by `on` and the corrected `off` never holds `undefined`, so `emit` never calls it |
| ApiClient.WebSocketService.constructor | frontend/src/api/index.ts:322-329 | no socket, no attempts, reconnecting armed, no listeners |
| ApiClient.WebSocketService.On | frontend/src/api/index.ts:396-401 | the listeners become `Registered` of the old ones; nothing else changes |
| ApiClient.WebSocketService.Off | frontend/src/api/index.ts:403-408 | the listeners become the corrected `Unregistered` of the old ones; nothing else changes |
| ApiClient.WebSocketService.Emit | frontend/src/api/index.ts:410-415 | the outcome is `Dispatch` on the listeners, and only an invoked callback is logged |
| ApiClient.WebSocketService.Connect | frontend/src/api/index.ts:331-364 | a new connecting socket replaces the old one and reconnecting is armed again; the attempt counter is not reset |
| ApiClient.WebSocketService.HandleReconnect | frontend/src/api/index.ts:366-374 | below five attempts, the counter grows by one and a retry is scheduled after 1000 ms times the new count; at five, nothing happens |
| ApiClient.WebSocketService.HandleOpen | frontend/src/api/index.ts:341-345 | the socket is open, the counter is reset and the `connect` listener is dispatched |
| ApiClient.WebSocketService.HandleClose | frontend/src/api/index.ts:352-358 | the `disconnect` listener is dispatched, and exactly one retry is scheduled when reconnecting is armed and attempts remain |
| ApiClient.WebSocketService.Send | frontend/src/api/index.ts:376-394 | a frame goes out exactly when the socket is open; nothing else changes |
| ApiClient.WebSocketService.Disconnect | frontend/src/api/index.ts:417-424 | reconnecting is disarmed, the socket dropped and every listener forgotten |
| ApiClient.CloseRepeatedly | frontend/src/api/index.ts:352-374 | however many times the socket closes after an open, at most five retries are scheduled, one per attempt |
| ChatReducer.ReduceSelectRoom | frontend/src/pages/chat.tsx:143-150 | the chosen room becomes current with an empty message list, no next page and no more pages; rooms, user and typing lists are untouched |
| ChatReducer.ReduceAddRoom | frontend/src/pages/chat.tsx:156-163 | a room whose id is listed leaves the state as it is; a new one is appended; either way the room is listed afterwards |
| ChatReducer.AddRoomIdempotent | frontend/src/pages/chat.tsx:156-163 | adding the same room twice is the same as adding it once |
| ChatReducer.ReduceSendMessage | frontend/src/pages/chat.tsx:193-224 | the message's room gets it as its preview and one more unread unless it is open; only the open room's message list grows, by that message at the end; nothing else changes |
| ChatReducer.WithoutMessage | frontend/src/pages/chat.tsx:288-290 | no message with the id remains; every other message stays, in order and as often as it was listed |
| ChatReducer.WithoutUser | frontend/src/pages/chat.tsx:355 | the stopped user is gone; every other typing user stays, in order and as often as listed |
| ChatReducer.ReduceDeleteMessage | frontend/src/pages/chat.tsx:268-292 | the message is removed; its room gets the summary the event carries with one unread less, or no preview and the same count when none is carried; other rooms are untouched |
| ChatReducer.SendThenDeleteRestoresMessages | frontend/src/pages/chat.tsx:193-224 | deleting a message just received in the open room, whose id was new, gives back the earlier message list (also lines 268-292) |
| ChatReducer.FindMessage | frontend/src/pages/chat.tsx:168 | `findIndex`: -1 exactly when no message has the id, otherwise the first index with it |
| ChatReducer.ReduceEditMessage | frontend/src/pages/chat.tsx:164-192 | the first message with the edited id is replaced and an unlisted id leaves the list as it is; the room preview changes exactly when the index is the last one |
| ChatReducer.EditReplacesOnlyTarget | frontend/src/pages/chat.tsx:164-192 | an edit of a listed message puts the new version in the list and leaves every message with another id where it was |
| ChatReducer.ReduceResetUnread | frontend/src/pages/chat.tsx:225-234 | the listed room with the id gets 0 unread and all others are unchanged; the open room's copy gets 0 whatever its id |
| ChatReducer.ReduceUpdateRoom | frontend/src/pages/chat.tsx:257-267 | every listed room with the id is replaced, and the open room when it has the id; nothing else changes |
| ChatReducer.FindReaction | frontend/src/pages/chat.tsx:300-303 | -1 exactly when no reaction has the user and emoji, otherwise the first index that has both |
| ChatReducer.ToggleReaction | frontend/src/pages/chat.tsx:296-313 | the first reaction by the same user with the same emoji is cut out; without one the new reaction is appended |
| ChatReducer.ToggleTwiceRestores | frontend/src/pages/chat.tsx:296-313 | the same new reaction event applied twice gives back the original reactions |
| ChatReducer.ReduceAddReaction | frontend/src/pages/chat.tsx:293-323 | exactly the messages with the reaction's message id get their reactions toggled; nothing else changes |
| ChatReducer.AddReactionTwiceRestores | frontend/src/pages/chat.tsx:293-323 | a reaction event delivered twice, for a reaction not yet held, leaves the messages as they were |
| ChatReducer.FindReactionId | frontend/src/pages/chat.tsx:328-330 | -1 exactly when no reaction has the id, otherwise the first index with it |
| ChatReducer.RemoveReaction | frontend/src/pages/chat.tsx:328-331 | the first reaction with the id is cut out; when there is none, `splice(-1, 1)` drops the last reaction; always one fewer unless the list is empty |
| ChatReducer.RemoveUndoesAppend | frontend/src/pages/chat.tsx:293-344 | removing by the id of a reaction just appended, whose id was new, gives back the list before |
| ChatReducer.ReduceDeleteReaction | frontend/src/pages/chat.tsx:324-344 | exactly the target message loses that reaction; nothing else changes |
| ChatReducer.ReduceTyping | frontend/src/pages/chat.tsx:345-365 | a typing notice lists the user in the room once (appended if new); a stop notice removes every occurrence and keeps every other user, in order, as often as listed; other rooms are untouched |
| ChatReducer.TypingThenStopRestores | frontend/src/pages/chat.tsx:345-365 | typing and then stopping gives back the room's list for a user who was not in it |
| ChatReducer.ReduceInitialMessages | frontend/src/pages/chat.tsx:235-241 | the first page is stored reversed (oldest first), with its next link and more flag |
| ChatReducer.ReducePrependMessages | frontend/src/pages/chat.tsx:242-248 | an older page goes, reversed, in front of the list; the next link and more flag are replaced |
| ChatReducer.PagesAccumulate | frontend/src/pages/chat.tsx:235-248 | a first page followed by an older page lists the reversed concatenation of the pages as the server sent them |
| ChatReducer.Reduce | frontend/src/pages/chat.tsx:129-371 | logout and error reset to the initial state; the registration and login start actions leave the state as it is; the other actions are stated by the per-case functions |
| ChatReducer.ReduceFrames | frontend/src/pages/chat.tsx:129-371 | only the sign-in actions and the resets change who is signed in; only typing notices and the resets change the typing lists |
| ChatReducer.ToggleRequest | frontend/src/pages/chat.tsx:682-709 | no reaction yet: add the emoji; the user's reaction with the same emoji: remove that reaction; with another emoji: update that reaction to the new emoji |
| Reactions.UsersOf | frontend/src/components/message/reactions_display.tsx:40 | the users of the reactions, one per reaction, in order |
| Reactions.Emojis | frontend/src/components/message/reactions_display.tsx:29-48 | each emoji used appears exactly once, and nothing else does; the order is that of first use, the order the accumulator gains its keys |
| Reactions.Grouped | frontend/src/components/message/reactions_display.tsx:29-48 | the reference grouping: one group per distinct emoji, holding how many reacted with it, who (in order) and whether the viewer did |
| Reactions.FindGroup | frontend/src/components/message/reactions_display.tsx:31 | -1 exactly when no group has the emoji, otherwise a group that has it |
| Reactions.AddToGroups | frontend/src/components/message/reactions_display.tsx:30-44 | one step of the `reduce`: a missing group is created empty and appended, then the reaction is counted into the emoji's group |
| Reactions.WithEmojiSnoc | frontend/src/components/message/reactions_display.tsx:39-40 | one more reaction adds itself, and its user, to the reactions of its emoji only |
| Reactions.ReactedBySnoc | frontend/src/components/message/reactions_display.tsx:41-43 | one more reaction sets the viewer's mark on its emoji exactly when it is the viewer's |
| Reactions.GroupOfSnoc | frontend/src/components/message/reactions_display.tsx:30-44 | one more reaction changes the reference group of its emoji by one count, one user and possibly the viewer's mark, and no other group |
| Reactions.GroupOfUnused | frontend/src/components/message/reactions_display.tsx:31-38 | the reference group of an emoji not used yet is the empty entry the accumulator creates |
| Reactions.GroupStep | frontend/src/components/message/reactions_display.tsx:29-48 | the reference grouping of a list with one more reaction is one `reduce` step applied to the grouping of the list |
| Reactions.GroupReactions | frontend/src/components/message/reactions_display.tsx:29-49 | the `reduce` loop produces exactly the reference grouping |
| Reactions.TotalUpdate | frontend/src/components/message/reactions_display.tsx:39 | replacing one group changes the total count by the difference of the two counts |
| Reactions.CountsSumToLength | frontend/src/components/message/reactions_display.tsx:29-49 | the group counts add up to the number of reactions |
| Reactions.EveryReactionListed | frontend/src/components/dialog/reactions_dialog.tsx:33-52 | every reacting user is listed under the emoji they used, and a reaction of the viewer marks that group |
| Reactions.NoGroupsIffNoReactions | frontend/src/components/message/reactions_display.tsx:53 | there is no group exactly when there is no reaction, so nothing is drawn for a message without reactions |
| Reactions.Visible | frontend/src/components/message/reactions_display.tsx:18-50 | the chips shown are the first groups, at most six, and all of them when there are six or fewer |
| Reactions.HiddenCount | frontend/src/components/message/reactions_display.tsx:51 | the "+n" chip count is positive exactly when there are more than six groups |
| Reactions.VisiblePlusHidden | frontend/src/components/message/reactions_display.tsx:50-51 | shown chips and the hidden count together account for every group |
| Reactions.PeopleLabel | frontend/src/components/dialog/reactions_dialog.tsx:113 | `person` exactly for a count of one, `people` otherwise |
| Reactions.HeaderCountsDistinctEmojis | frontend/src/components/dialog/reactions_dialog.tsx:81 | the dialog header's count equals the number of distinct emojis used |
| Reactions.DistinctCard | frontend/src/components/dialog/reactions_dialog.tsx:81 | a list without repeats has as many distinct elements as entries |
| MessageList.SequenceTypeAt | frontend/src/components/message_list.tsx:421-442 | a message is `middle` exactly when it continues the previous message and the next continues it, `last` when only the previous joins it, `first` when only the next does, `single` when neither (same author, same day) |
| MessageList.RunsChain | frontend/src/components/message_list.tsx:426-442 | a message opens or continues a run exactly when the next message continues or closes it |
| MessageList.ShowDate | frontend/src/components/message_list.tsx:444-446 | the date chip goes on the first message and exactly where the day differs from the previous message's |
| MessageList.DateChipOpensRun | frontend/src/components/message_list.tsx:435-446 | a message under a date chip starts a run or stands alone |
| MessageList.IsFirstUnread | frontend/src/components/message_list.tsx:421 | the unread chip goes exactly above the message at the first unread index |
| MessageList.AtMostOneUnreadChip | frontend/src/components/message_list.tsx:421 | at most one message carries the unread chip |
| MessageList.CanDeleteMessage | frontend/src/components/message_list.tsx:398-406 | the Delete item shows exactly for the group's owner, an admin, a superuser or the author of the message the menu is open on |
| MessageList.ShowEditItem | frontend/src/components/message_list.tsx:562-563 | the Edit item shows exactly for a superuser or the message's author |
| MessageList.ShowReactionsItem | frontend/src/components/message_list.tsx:574 | the Reactions item shows exactly for a message with at least one reaction |
| MessageList.EditerCanDelete | frontend/src/components/message_list.tsx:398-406 | whoever sees Edit on a message also sees Delete (also lines 562-563) |
| MessageList.FindUserReaction | frontend/src/components/message_list.tsx:320-322 | -1 exactly when the viewer has no reaction, otherwise the index of the viewer's first one |
| MessageList.UserReaction | frontend/src/components/message_list.tsx:320-322 | none exactly when the viewer has not reacted, otherwise the viewer's first reaction, of whatever emoji |
| MessageList.PickerKeepsOneReaction | frontend/src/components/message_list.tsx:317-328 | through the picker a viewer who already reacted never adds a second reaction: the same emoji removes the reaction, another replaces it; a viewer who has not reacted adds one |
| MessageView.IsOwnMessage | frontend/src/components/message/index.tsx:48 | a message is the viewer's own exactly when its author's id is the viewer's |
| MessageView.ShowAvatar | frontend/src/components/message/index.tsx:49 | the avatar shows exactly on someone else's single or last message |
| MessageView.ShowUsername | frontend/src/components/message/index.tsx:50-51 | the name shows exactly on someone else's single or first message |
| MessageView.NeedsPadding | frontend/src/components/message/index.tsx:52-53 | the padding shows exactly on someone else's middle messages and on every first message, one's own included |
| MessageView.AvatarEndsRunNameStartsIt | frontend/src/components/message/index.tsx:48-53 | in someone else's messages the avatar shows exactly where the next message does not continue the run, the name exactly where the previous one does not |
| MessageView.AvatarOrPadding | frontend/src/components/message/index.tsx:49-53 | someone else's message shows exactly one of avatar and padding |
| MessageView.DisplayContent | frontend/src/components/message/index.tsx:54-60 | content within 1000 UTF-16 units, or expanded, is shown whole without dots; longer collapsed content shows the longest start of whole characters within 1000 units, followed by dots |
| MessageView.TruncationIsPrefix | frontend/src/components/message/index.tsx:54-60 | the shown text is always a prefix of the content, and the dots appear exactly when something was cut (also line 384) |
| MessageView.SingleUnitTextCutAtLimit | frontend/src/components/message/index.tsx:54-60 | text of one-unit characters longer than 1000 is cut after exactly 1000 characters |
| MessageView.BorderRadius | frontend/src/components/message/index.tsx:114-136 | a single or last bubble has exactly one sharp corner, bottom right for one's own and bottom left for someone else's; every other bubble is round |
| MessageView.BorderRadiusMirrors | frontend/src/components/message/index.tsx:114-136 | one's own bubbles mirror everyone else's |
| MessageView.HasContent | frontend/src/components/message/index.tsx:138 | a message has content exactly when some character of it is not white space |
| MessageView.ChipRequest | frontend/src/components/message/index.tsx:70-75 | a reaction chip makes the same request as picking its emoji in the picker, using the viewer's first reaction |
| MessageView.ChipTogglesItsEmoji | frontend/src/components/message/index.tsx:70-75 | a chip only ever adds or switches to its own emoji |
| ChatArea.FirstUnreadIndex | frontend/src/components/chat_area.tsx:67-70 | none without an open room or without unread messages; otherwise the message count minus the unread count, clamped at 0 |
| ChatArea.UnreadChipMarksTail | frontend/src/components/chat_area.tsx:67-70 | below the unread chip are exactly the unread messages, or all loaded messages when fewer are loaded |
| ChatArea.IsConnected | frontend/src/components/chat_area.tsx:66 | the pane counts as connected exactly in the `Connected` status |
| ChatArea.RoomDialogMode | frontend/src/components/chat_area.tsx:198 | the room dialog opens in edit mode exactly for the room's owner, in view mode otherwise |
| MediaGrid.LayoutFor | frontend/src/components/message/media_grid.tsx:13-181 | one item: a single tile; two: side by side; three: one tall tile beside two stacked; none or four and more: the grid |
| MediaGrid.Tiles | frontend/src/components/message/media_grid.tsx:15-230 | at most four tiles are drawn, tile i opens viewer index i, only the first of three spans two rows, and only the fourth tile carries a badge, exactly when there are more than four items, showing how many are hidden |
| MediaGrid.TilesCoverMedia | frontend/src/components/message/media_grid.tsx:181-230 | no tile opens an index past the media list, and the tiles plus the badge account for every item |
| ImageViewer.Previous | frontend/src/components/message/image_viewer.tsx:16-19 | one back, wrapping from the first image to the last |
| ImageViewer.Next | frontend/src/components/message/image_viewer.tsx:21-24 | one on, wrapping from the last image to the first |
| ImageViewer.NavigationIsCyclic | frontend/src/components/message/image_viewer.tsx:16-24 | within a non-empty list both moves stay in range and undo each other |
| ImageViewer.StepsWrapOnce | frontend/src/components/message/image_viewer.tsx:21-24 | k forward steps, k at most the length, land at i + k modulo the length, so a full round comes back to the start |
| ImageViewer.DownloadName | frontend/src/components/message/image_viewer.tsx:29 | the download name is `image_` followed by the one-based position |
| ImageViewer.DownloadNamesDistinct | frontend/src/components/message/image_viewer.tsx:29 | different positions download under different names |
| ImageViewer.Highlighted | frontend/src/components/message/image_viewer.tsx:201-212 | a thumbnail is highlighted exactly when it is the current image |
| ImageViewer.OneThumbnailHighlighted | frontend/src/components/message/image_viewer.tsx:201-212 | exactly one thumbnail is highlighted when the current index is in range |
| MediaPreview.UnitFor | frontend/src/components/message_input/media_preview.tsx:6-15 | every size falls in exactly one band: bytes below 1024, KB below 1024², MB below 1024³, GB above |
| MediaPreview.Tenths | frontend/src/components/message_input/media_preview.tsx:10-14 | `toFixed(1)` of size over scale, in tenths: the nearest tenth, halves rounded up |
| MediaPreview.FormatFileSize | frontend/src/components/message_input/media_preview.tsx:6-15 | bytes are written whole with `B`; the other bands are written with one decimal of the size in that unit, followed by `KB`, `MB` or `GB` |
| MediaPreview.BandFiguresInRange | frontend/src/components/message_input/media_preview.tsx:6-15 | the KB and MB figures lie between 1.0 and 1024.0, the GB figure is at least 1.0 |
| MediaPreview.JustBelowMegabyte | frontend/src/components/message_input/media_preview.tsx:9-10 | one byte below a megabyte is shown as `1024.0KB`, since rounding happens after the band is chosen |
| MediaPreview.Preview | frontend/src/components/message_input/media_preview.tsx:48-77 | nothing is drawn without files; otherwise the header counts the files and the list scrolls exactly when there are more than four |
| ImageViewer.PositionLabel | frontend/src/components/message/image_viewer.tsx:77 | the header is the one-based position's digits, " of ", then the count's digits |
| ImageViewer.PositionLabelsDistinct | frontend/src/components/message/image_viewer.tsx:77 | different positions or counts never give the same header |
| MessageComposer.MediaOnly | frontend/src/components/message_input/index.tsx:121-123 | only images and videos are kept, each dropped image or video as often as it was dropped, in order |
| MessageComposer.WithoutFile | frontend/src/components/message_input/index.tsx:88-90 | no file with the removed one's handle remains; every other file stays, in order and as often as it was listed |
| MessageComposer.RemoveDropsOnlyThat | frontend/src/components/message_input/index.tsx:88-90 | with distinct files, removing the file at a position cuts out exactly that position |
| MessageComposer.Composer.constructor | frontend/src/components/message_input/index.tsx:27-32 | the box starts with no text, no files, no pending send, not editing and not highlighted |
| MessageComposer.Composer.BeginSend | frontend/src/components/message_input/index.tsx:50-58 | a pending send, or blank text without files, sends nothing; otherwise the send becomes pending and the trimmed text is sent, with the files, or as an edit without them; nothing is sent with both blank text and no files |
| MessageComposer.Composer.FinishSend | frontend/src/components/message_input/index.tsx:59-65 | after success text and files are cleared, after failure both stay; the pending flag drops either way |
| MessageComposer.Composer.KeyPress | frontend/src/components/message_input/index.tsx:73-78 | Enter without Shift makes the call `BeginSend` makes, when the guard allows; any other key, or a refused guard, sends nothing; text, files, edit mode and the drag flag are unchanged |
| MessageComposer.Composer.SelectFiles | frontend/src/components/message_input/index.tsx:80-86 | picked files go after those already attached |
| MessageComposer.Composer.RemoveFile | frontend/src/components/message_input/index.tsx:88-90 | the files become `WithoutFile` of the old files; nothing else changes |
| MessageComposer.Composer.DragHover | frontend/src/components/message_input/index.tsx:100-113 | entering or dragging over highlights the box, leaving removes the highlight |
| MessageComposer.Composer.Drop | frontend/src/components/message_input/index.tsx:116-126 | the highlight goes; when not editing the dropped images and videos are appended, when editing nothing is attached |
| MessageComposer.Composer.AddEmoji | frontend/src/components/message_input/index.tsx:128-130 | the emoji is appended to the text |
| MessageComposer.Composer.EditChanged | frontend/src/components/message_input/index.tsx:37-40 | editing exactly when a message is being edited, whose content then replaces the text; leaving edit mode keeps the text |
| MessageComposer.Composer.CancelEdit | frontend/src/components/message_input/index.tsx:68-71 | the text is cleared and edit mode left |
| MessageComposer.NoDoubleSend | frontend/src/components/message_input/index.tsx:51 | while a send is pending a second one is refused |
| LegacyComposer.Composer.constructor | frontend/src/components/message_input.tsx:19-20 | the box starts empty with no pending send |
| LegacyComposer.Composer.BeginSend | frontend/src/components/message_input.tsx:34-38 | a pending send or blank text sends nothing; otherwise the send becomes pending and the trimmed text goes out, which is never empty and neither starts nor ends with white space |
| LegacyComposer.Composer.FinishSend | frontend/src/components/message_input.tsx:39-44 | after success the text is cleared, after failure it stays; the pending flag drops either way |
| LegacyComposer.Composer.KeyPress | frontend/src/components/message_input.tsx:47-52 | Enter without Shift sends the trimmed text exactly when the guard allows; any other key sends nothing; the text is unchanged |
| LegacyComposer.Composer.AddEmoji | frontend/src/components/message_input.tsx:54-56 | the emoji is appended to the text |
| Sidebar.FilteredRooms | frontend/src/components/sidebar.tsx:135-137 | the rooms whose name, under ASCII lower-casing, contains the lower-cased term, in the room list's order and as often as listed |
| Sidebar.ContainsEmpty | frontend/src/components/sidebar.tsx:136 | every name contains the empty term |
| Sidebar.EmptySearchKeepsAll | frontend/src/components/sidebar.tsx:135-137 | an empty search shows the room list unchanged |
| Sidebar.SearchIgnoresCase | frontend/src/components/sidebar.tsx:135-137 | terms that differ only in the case of ASCII letters show the same rooms |
| Sidebar.ExactNameIsFound | frontend/src/components/sidebar.tsx:135-137 | a room is always found by its own name |
| Sidebar.RoomCreator.constructor | frontend/src/components/sidebar.tsx:116-118 | the modal starts closed, with no name and nothing pending |
| Sidebar.RoomCreator.Open | frontend/src/components/sidebar.tsx:293 | the modal opens; name and pending flag are kept |
| Sidebar.RoomCreator.Close | frontend/src/components/sidebar.tsx:351-369 | the modal closes; name and pending flag are kept |
| Sidebar.RoomCreator.TypeName | frontend/src/components/sidebar.tsx:365 | the typed value becomes the name |
| Sidebar.RoomCreator.BeginCreate | frontend/src/components/sidebar.tsx:121-125 | a blank name, or a creation already pending, sends nothing; otherwise the trimmed, non-empty name goes out and the creation is pending (also line 370) |
| Sidebar.RoomCreator.FinishCreate | frontend/src/components/sidebar.tsx:126-132 | success clears the name and closes the modal, failure leaves both; the pending flag drops either way |
| RoomDetails.NameCounterBands | frontend/src/components/dialog/chat_group_details_dialog.tsx:244-249 | the name counter is plain up to 80 characters, a warning from 81 to 99 and an error from 100 |
| RoomDetails.DescriptionCounterBands | frontend/src/components/dialog/chat_group_details_dialog.tsx:280-285 | the description counter is plain up to 130, a warning from 131 to 139 and an error from 140 |
| RoomDetails.AtMostOneOwnerStarred | frontend/src/components/dialog/chat_group_details_dialog.tsx:178 | among members with distinct usernames at most one is marked as the owner |
| RoomDetails.Dialog.constructor | frontend/src/components/dialog/chat_group_details_dialog.tsx:71-82 | the form starts empty, outside edit mode, with no avatar, error, success or pending save |
| RoomDetails.Dialog.Open | frontend/src/components/dialog/chat_group_details_dialog.tsx:88-101 | opening loads the room's name, privacy, description (empty when absent) and avatar (absent when empty), leaves edit mode and clears the chosen avatar, the error and the success flag |
| RoomDetails.Dialog.StartEditing | frontend/src/components/dialog/chat_group_details_dialog.tsx:577-599 | edit mode is entered only through the Edit Details button of an Edit-mode dialog; the form is unchanged |
| RoomDetails.Dialog.TypeName | frontend/src/components/dialog/chat_group_details_dialog.tsx:230-234 | input longer than 100 UTF-16 units is refused and shorter input is taken, so a name within the cap never exceeds it |
| RoomDetails.Dialog.TypeDescription | frontend/src/components/dialog/chat_group_details_dialog.tsx:264-268 | input longer than 140 UTF-16 units is refused and shorter input is taken, so a description within the cap never exceeds it |
| RoomDetails.Dialog.SetPrivate | frontend/src/components/dialog/chat_group_details_dialog.tsx:341 | the privacy switch changes only the form's privacy flag |
| RoomDetails.Dialog.ChooseAvatar | frontend/src/components/dialog/chat_group_details_dialog.tsx:150-153 | a picked image opens the crop editor without touching the avatar to upload |
| RoomDetails.Dialog.CropComplete | frontend/src/components/dialog/chat_group_details_dialog.tsx:155-163 | a finished crop becomes the avatar file, crop data and preview, and closes the editor |
| RoomDetails.Dialog.BeginSave | frontend/src/components/dialog/chat_group_details_dialog.tsx:125-131 | a blank name is refused with "Room name is required."; otherwise the untrimmed name, the description, avatar and crop are sent for this room and the error is cleared; the privacy flag is never sent; nothing is sent while a save is pending (also lines 589-595) |
| RoomDetails.Dialog.FinishSave | frontend/src/components/dialog/chat_group_details_dialog.tsx:131-141 | only a save that resolves to true leaves edit mode; success mirrors the result; a thrown error shows its message or "Failed to update room."; the pending flag drops either way |
| RoomDetails.Dialog.CancelAsWritten | frontend/src/components/dialog/chat_group_details_dialog.tsx:143-148 | as written: name, description and preview return to the room's and edit mode ends, but the cropped avatar file and crop stay chosen; disabled while saving (also lines 580-583) |
| RoomDetails.Dialog.Cancel | frontend/src/components/dialog/chat_group_details_dialog.tsx:143-148 | corrected: cancelling also drops the cropped avatar and crop data (also lines 580-583) |
| RoomDetails.CancelledAvatarIsStillSent | frontend/src/components/dialog/chat_group_details_dialog.tsx:125-148 | with the cancel as written, a cropped-then-cancelled avatar is uploaded by the next save while the preview shows the old avatar |
| RoomDetails.CancelledAvatarIsDropped | frontend/src/components/dialog/chat_group_details_dialog.tsx:125-148 | with the corrected cancel the next save uploads no avatar and no crop |
| ProfileDialog.AvatarVerdictFor | frontend/src/components/dialog/user_profile_dialog.tsx:107-122 | an avatar is accepted exactly when it is at most 5 MiB and of an image type; the size test comes first |
| ProfileDialog.LimitIsInclusive | frontend/src/components/dialog/user_profile_dialog.tsx:108-111 | a file of exactly 5 MiB passes the size test, one byte more does not |
| ProfileDialog.Actions | frontend/src/components/dialog/user_profile_dialog.tsx:447-488 | Cancel and Save show exactly while editing; otherwise Edit Profile appears only in Edit mode and Start Chat in every mode but DM |
| ProfileDialog.EditOnlyInEditMode | frontend/src/components/dialog/user_profile_dialog.tsx:468-488 | whenever Edit Profile is offered Start Chat is too, and a DM dialog offers neither |
| ProfileDialog.Dialog.constructor | frontend/src/components/dialog/user_profile_dialog.tsx:65-80 | the form starts from the user's username, bio (empty when absent) and avatar (absent when empty), outside edit mode, with nothing pending |
| ProfileDialog.Dialog.Open | frontend/src/components/dialog/user_profile_dialog.tsx:83-97 | opening reloads the user's values into the form and clears the chosen avatar, error, success, drop highlight and picked image |
| ProfileDialog.Dialog.StartEditing | frontend/src/components/dialog/user_profile_dialog.tsx:468-475 | edit mode is entered only through Edit Profile, which exists in Edit mode outside edit mode |
| ProfileDialog.Dialog.TypeUsername | frontend/src/components/dialog/user_profile_dialog.tsx:336 | typing replaces the username field and nothing else |
| ProfileDialog.Dialog.TypeBio | frontend/src/components/dialog/user_profile_dialog.tsx:359 | typing replaces the bio field and nothing else |
| ProfileDialog.Dialog.AvatarChange | frontend/src/components/dialog/user_profile_dialog.tsx:107-122 | a too-large file and a non-image each set their own error and open nothing; an accepted file opens the crop editor and clears the error; the older dialog in frontend/src/components/user_profile_dialog.tsx, lines 224-239, does the same |
| ProfileDialog.Dialog.CropComplete | frontend/src/components/dialog/user_profile_dialog.tsx:124-137 | the finished crop becomes the avatar, crop data and preview; the editor closes and the picked image is dropped |
| ProfileDialog.Dialog.CropEditorClose | frontend/src/components/dialog/user_profile_dialog.tsx:140-145 | closing the crop editor drops the picked image but keeps the avatar chosen before |
| ProfileDialog.Dialog.DragEnter | frontend/src/components/dialog/user_profile_dialog.tsx:157-166 | the drop highlight turns on only while editing and only for an image item |
| ProfileDialog.Dialog.DragOver | frontend/src/components/dialog/user_profile_dialog.tsx:175-181 | dragging over highlights only while editing |
| ProfileDialog.Dialog.DragLeave | frontend/src/components/dialog/user_profile_dialog.tsx:168-173 | leaving removes the highlight |
| ProfileDialog.Dialog.Drop | frontend/src/components/dialog/user_profile_dialog.tsx:183-196 | a drop clears the highlight; only while editing does its first file count: a non-image sets "Please drop a valid image file", an image goes through the avatar checks; the older dialog, lines 300-313, does the same |
| ProfileDialog.Dialog.BeginSave | frontend/src/components/dialog/user_profile_dialog.tsx:198-207 | a blank username is refused with "Username is required"; otherwise the trimmed username and bio, avatar and crop are sent and the error cleared; nothing is sent while a save is pending (also lines 458-460); the older dialog, lines 315-323, does the same |
| ProfileDialog.Dialog.FinishSave | frontend/src/components/dialog/user_profile_dialog.tsx:207-214 | any resolved update leaves edit mode and sets success to its result; a throw keeps edit mode and shows its message or "Failed to update profile"; the older dialog, lines 323-331, does the same |
| ProfileDialog.Dialog.Cancel | frontend/src/components/dialog/user_profile_dialog.tsx:217-225 | cancel restores the user's username, bio and avatar preview and clears the chosen avatar, error and highlight; disabled while saving (also lines 449-451); the older dialog, lines 334-342, does the same |
| ProfileDialog.EditThenCancelRestores | frontend/src/components/dialog/user_profile_dialog.tsx:217-225 | whatever was typed or cropped during an edit, cancelling returns the form to the user's own values with no avatar chosen |
| LegacyProfileDialog.Actions | frontend/src/components/user_profile_dialog.tsx:557-590 | Cancel and Save show exactly while editing; Edit Profile and Start Chat both show exactly outside edit mode |
| LegacyProfileDialog.SameAsEditMode | frontend/src/components/user_profile_dialog.tsx:557-590 | the older dialog offers the same buttons as the current one opened in Edit mode |
| Authentication.UsernameError | frontend/src/pages/authentication.tsx:100-104 | a registration username is accepted exactly when, once trimmed, it is a non-empty run of ASCII letters and digits; a blank one reports "Username is required" |
| Authentication.AcceptedUsernameHasNoInnerSpace | frontend/src/pages/authentication.tsx:100-104 | an accepted username, once trimmed, holds no white space at all |
| Authentication.EmailError | frontend/src/pages/authentication.tsx:105 | an email is accepted exactly when it is present and well-formed |
| Authentication.RegistrationValid | frontend/src/pages/authentication.tsx:99-107 | the registration form passes exactly when the trimmed username is a non-empty run of letters and digits, the email is given and well-formed and a password is given |
| Authentication.LoginValid | frontend/src/pages/authentication.tsx:109-112 | the login form passes exactly when both fields are non-empty |
| Authentication.SpaceUsernameOnlyLogsIn | frontend/src/pages/authentication.tsx:99-112 | a one-space username passes the login form and fails the registration form |
| Authentication.RegistrationIsStricter | frontend/src/pages/authentication.tsx:99-112 | any registration valid by its rules also satisfies the login form's rules |
| Authentication.AuthPage.constructor | frontend/src/pages/authentication.tsx:323-331 | the page opens in login mode with both forms empty, nothing pending, the password hidden and no username clash (also lines 351-356, 396-400) |
| Authentication.AuthPage.EditRegistration | frontend/src/pages/authentication.tsx:226-229 | editing the registration form changes only its values (also lines 258, 279) |
| Authentication.AuthPage.EditLogin | frontend/src/pages/authentication.tsx:137-159 | editing the login form changes only its values |
| Authentication.AuthPage.UsernameChecked | frontend/src/pages/authentication.tsx:336-349 | the debounced availability check sets the username-clash flag to its answer and nothing else |
| Authentication.AuthPage.TogglePassword | frontend/src/pages/authentication.tsx:174 | the eye button flips password visibility only (also line 296) |
| Authentication.AuthPage.BeginRegistration | frontend/src/pages/authentication.tsx:358-368 | nothing is sent while pending or with an invalid form; a taken username shows "Username already exists. Please choose another one." and sends nothing; otherwise the values as entered are sent (also line 307) |
| Authentication.AuthPage.FinishRegistration | frontend/src/pages/authentication.tsx:368-393 | only a successful sign-up clears the form, with "Sign up successful!"; a false result and a throw keep the values and show their own error texts; the pending flag drops |
| Authentication.AuthPage.BeginLogin | frontend/src/pages/authentication.tsx:402-404 | the login values are sent exactly when nothing is pending and both fields are present (also line 197) |
| Authentication.AuthPage.FinishLogin | frontend/src/pages/authentication.tsx:404-428 | success and failure show their sign-in texts, a throw shows the sign-up failure text; the form is never reset |
| Authentication.AuthPage.ChangeMode | frontend/src/pages/authentication.tsx:431-445 | a toggle to no mode or to the current one does nothing; any other switch empties both forms and clears the clash flag and password visibility |
| Authentication.TakenUsernameBlocksRetry | frontend/src/pages/authentication.tsx:358-366 | while the username is reported taken, repeated registration attempts send nothing |

## Left out

Backend:
- Real message delivery: the channel layer delivering group sends to sockets, `send`, and the async scheduling are left out. A group send is an entry in the layer's log.
- `Consumers.UserChatRooms` is modelled as written in backend/chat/consumers.py:65-67: it returns every room, and a lemma shows that a non-member joins a private room's group. The authors flag this in their own comment, so it is not listed as a finding.
- `receive` does not model parsing the JSON frame or a missing key raising `KeyError` (backend/chat/consumers.py:40-42). The model takes the parsed message and room id.
- The wire-shape mismatch between the client's typed frames and the server's bare messages is not reconciled. Each side is modelled as written.
- Image cropping (`crop_avatar_img`) is floating-point geometry on PIL images. The cropped file's name is a parameter.
- Django authentication, sessions, DRF routing and pagination are library behaviour. `authenticate` is a parameter, and login answers 200 or 401 from it.
- `.last()` on messages ordered by timestamp has ties broken by id, as the database's secondary order.
- Migrations are not modelled; routing tables (urls.py, routing.py) are not modelled either.
- ValidateUserPatch: Django's `UnicodeUsernameValidator` (word characters and `@.+-` only) is not modelled, so any character passes in a username. Stripping, the 150-character limit and uniqueness are modelled.
- ValidateUserPatch: DRF collects the error of every failing field; the model reports one field, the first in the order it checks. `UpdateMessage` does the same.
- Python's `len` counts code points, as Dafny's `|s|` does, so the backend's character limits need no UTF-16 counting.

Client transport:
- `fetch` and the CSRF cookie are left out. `request` is modelled only in its URL choice and its content-type rule. JSON encoding is left out.
- `Connect` does not model the old socket's asynchronous `onclose`. That handler can fire after `shouldReconnect` was re-armed.
- `setTimeout` is recorded as a delay in the `retries` log, and the real timer is not modelled.
- ApiClient.WebSocketService.HandleClose: states only how many retries it schedules. The delay of each retry is stated by `HandleReconnect`.

Client interface:
- Rendering, styling, focus, scrolling (the ResizeObserver code of message_list.tsx) are left out. The emoji picker and the preview-file dialog are left out too.
- `formatDate` is replaced by the `day` key. The locale text and the "Yesterday" computation are left out.
- ToLower: lowers ASCII capitals only. `toLowerCase` applies Unicode's full case mapping, which can also change the length of a string.
- FilteredRooms: inherits ToLower's ASCII-only lower-casing. Names or terms that differ only in the case of a non-ASCII letter do not match in the model.
- DisplayContent: when the 1000th code unit is the first half of a surrogate pair, `slice` keeps that lone half. The model keeps whole characters, so it drops the pair.
- The order of `Object.values` is modelled as insertion order. This holds because an emoji is never an integer-like key.
- ChatReducer.ReduceEditMessage: `EDIT_MESSAGE` writes into the existing message object in place. The model replaces the message by value, so aliasing of that object is not modelled.
- The send button of the message box is also disabled while disconnected (message_input/input_actions.tsx:96). Enter still sends then, so the model keeps the handler's own guard only.
- MessageComposer.Composer.DragHover: merges the enter and over handlers, which both set the highlight.

Dialogs and authentication:
- RoomDetails.Dialog.BeginSave: the privacy switch is never passed to `onUpdateRoom`, as written.
- The room name loaded when the room dialog opens may exceed 100 characters, because the backend allows 255. The cap holds only for what is typed.
- Loading members, the members list and the one-second success fade of the dialogs are left out.
- An absent `onUpdateProfile` handler throws. The model covers that case as `Threw`.
- The `DialogMode` enum in dialog/common.ts declares only `Edit` and `View`, yet `DM` and `CurrentUser` are used as modes. The model gives all four.
- Formik and yup are left out. Registration submits the values as entered (untrimmed), and the email test is a parameter.
- The 150 ms fade before a mode switch is collapsed into the switch. The 500 ms debounce of the username check is replaced by reporting the check's answer.
- `usernameExists` is false in practice, because of the username-check finding below. The login `catch` shows the sign-up failure text, as written.

## Findings

| source | as written | input that shows it | evidently intended | confidence | as-written member | corrected member |
|---|---|---|---|---|---|---|
| frontend/src/api/index.ts:234-237 | `checkIfUserExists` answers true only for HTTP status 302, but the username view answers 200 or 404 | any username that exists: the view answers 200 and the client reports false | true exactly when the server answers 200 | not executed | ApiClient.UserExistsAsWrittenNeverTrue | ApiClient.UserExistsMatchesStore |
| frontend/src/api/index.ts:403-408 | `off` stores `undefined` under the event instead of deleting the key, so a later `on` is ignored and `emit` calls `undefined` | `on("message", f)`, `off("message")`, `on("message", g)`, `emit("message", x)` | `off` removes the key, so the next `on` registers its callback | not executed | ApiClient.UnregisteredAsWritten, ApiClient.OffThenOnAsWrittenFails | ApiClient.Unregistered, ApiClient.OffThenOnRegisters, ApiClient.CorrectedTableNeverCallsUndefined |
| backend/chat/serializers.py:39 | `UserSerializer.update` pops `"profile"` with no default and raises `KeyError` when the request carries no profile | a patch that changes only the username; no routed request reaches `update` today, because `user/<str:username>/` maps to UserDetailView (backend/chat/views.py:44-52), a RetrieveAPIView | a user update without profile data leaves the profile as it is | not executed | Serializers.UpdateUserAsWritten, Serializers.RenameOnlyFailsAsWritten | Serializers.UpdateUser, Serializers.UpdateUserAgreesWithProfile |
| frontend/src/components/dialog/chat_group_details_dialog.tsx:143-148 | `handleCancel` restores the name, description and preview but keeps the cropped avatar file and crop data | crop a new avatar, press Cancel, then edit and save: the cancelled avatar is uploaded while the preview shows the old one | cancelling drops the cropped avatar too | not executed | RoomDetails.Dialog.CancelAsWritten, RoomDetails.CancelledAvatarIsStillSent | RoomDetails.Dialog.Cancel, RoomDetails.CancelledAvatarIsDropped |
