/** The serializers' logic: size validators, message validation, message
    creation and update with reply and media linking, the room summary fields
    (last message and unread count) and the user update. */
module Serializers {
  import opened Common
  import opened ChatModels

  /** What a serializer call produces: a value, a validation error naming the
      offending field, or an unhandled exception (a server error). */
  datatype Outcome<T> = Ok(value: T) | Invalid(field: string) | ServerError

  /** An uploaded file as the validators see it. */
  datatype Upload = Upload(name: string, size: nat)

  const AvatarMaxBytes: nat := 5 * 1024 * 1024
  const MediaMaxBytes: nat := 10 * 1024 * 1024

  /** `ProfileSerializer.validate_avatar_img`: at most 5 MiB passes, unchanged. */
  function ValidateAvatarImg(f: Upload): (r: Outcome<Upload>)
    ensures r.Ok? <==> f.size <= 5242880
    ensures r.Ok? ==> r.value == f
    ensures !r.Ok? ==> r == Invalid("avatar_img")
  {
    if f.size > AvatarMaxBytes then Invalid("avatar_img") else Ok(f)
  }

  /** `MessageMediaSerializer.validate_file`: at most 10 MiB passes, unchanged. */
  function ValidateFile(f: Upload): (r: Outcome<Upload>)
    ensures r.Ok? <==> f.size <= 10485760
    ensures r.Ok? ==> r.value == f
    ensures !r.Ok? ==> r == Invalid("file")
  {
    if f.size > MediaMaxBytes then Invalid("file") else Ok(f)
  }

  /** Python truthiness of an optional string and an optional list. */
  predicate TextGiven(s: Option<string>) {
    s.Some? && s.value != ""
  }

  predicate ListGiven(ids: Option<seq<Id>>) {
    ids.Some? && ids.value != []
  }

  /** A `reply_to_id` the code acts on: present and not zero. */
  predicate ReplyGiven(v: Option<nat>) {
    v.Some? && v.value != 0
  }

  /** The content as the serializer's text field cleans it: stripped of
      surrounding white space (`trim_whitespace`), so blank content becomes
      the empty string. */
  function CleanContent(content: Option<string>): (c: Option<string>)
    ensures c.None? <==> content.None?
    ensures c.Some? ==> c.value == Strip(content.value)
  {
    if content.Some? then Some(Strip(content.value)) else None
  }

  /** `MessageSerializer.validate` on the cleaned fields: a message needs
      content or media ids, and content made only of white space is no
      content. The check runs on every save, partial updates included. */
  function ValidateMessage(content: Option<string>, mediaIds: Option<seq<Id>>): (ok: bool)
    ensures !ok <==> (content.None? || forall k :: 0 <= k < |content.value| ==> IsPySpace(content.value[k]))
                     && (mediaIds.None? || mediaIds.value == [])
  {
    StripEmptyIff(if content.Some? then content.value else "");
    !(!TextGiven(CleanContent(content)) && !ListGiven(mediaIds))
  }

  /** The media rows attached to a message by a save: only rows listed in
      `ids` that are not yet attached to any message. */
  function LinkMedia(st: Store, ids: seq<Id>, message: Id): (r: Store)
    ensures r.media.Keys == st.media.Keys
    ensures forall f :: f in st.media ==>
      r.media[f] == (if f in ids && st.media[f].message.None? then st.media[f].(message := Some(message)) else st.media[f])
    ensures r == st.(media := r.media)
  {
    st.(media := map f | f in st.media ::
      if f in ids && st.media[f].message.None? then st.media[f].(message := Some(message)) else st.media[f])
  }

  /** A row already attached to a message keeps that message. */
  lemma LinkMediaKeepsLinks(st: Store, ids: seq<Id>, message: Id, f: Id)
    requires f in st.media && st.media[f].message.Some?
    ensures LinkMedia(st, ids, message).media[f] == st.media[f]
  {
  }

  lemma LinkMediaValid(st: Store, ids: seq<Id>, message: Id)
    requires Valid(st) && message in st.messages
    ensures Valid(LinkMedia(st, ids, message))
  {
    var r := LinkMedia(st, ids, message);
    assert RefsIntact(r);
  }

  /** The fields of a message write request: the room, the content, the
      optional reply target and the optional list of media ids. */
  datatype MessageWrite = MessageWrite(room: Id, content: Option<string>, replyToId: Option<nat>, mediaIds: Option<seq<Id>>)

  /** `MessageSerializer.create` on the cleaned write: a truthy `reply_to_id`
      must name an existing message, in any room; the new message belongs to
      `user` and carries the stripped content, and the listed unattached media
      rows are attached to it. */
  function CreateMessage(st: Store, user: Id, w: MessageWrite, now: int): (r: Outcome<(Store, Id)>)
    ensures r.Ok? || r == Invalid("reply_to_id")
    ensures r.Ok? <==> !ReplyGiven(w.replyToId) || w.replyToId.value in st.messages
    ensures r.Ok? ==>
      var (s, id) := r.value;
      id == st.nextId && id in s.messages
      && s.messages[id] == Message(w.room, user, if w.content.Some? then Strip(w.content.value) else "", now,
                                   if ReplyGiven(w.replyToId) then w.replyToId else None)
      && s.messages == st.messages[id := s.messages[id]]
      && s.media == (if ListGiven(w.mediaIds) then LinkMedia(st, w.mediaIds.value, id).media else st.media)
      && s == st.(messages := s.messages, media := s.media, nextId := st.nextId + 1)
  {
    if ReplyGiven(w.replyToId) && w.replyToId.value !in st.messages then Invalid("reply_to_id")
    else
      var id := st.nextId;
      var s := InsertMessage(st, user, w, now);
      Ok((if ListGiven(w.mediaIds) then LinkMedia(s, w.mediaIds.value, id) else s, id))
  }

  /** Unlike the websocket path, `create` accepts a reply to a message of
      another room. */
  lemma CreateAcceptsCrossRoomReply(st: Store, user: Id, w: MessageWrite, now: int)
    requires ReplyGiven(w.replyToId) && w.replyToId.value in st.messages
    requires st.messages[w.replyToId.value].room != w.room
    ensures CreateMessage(st, user, w, now).Ok?
    ensures CreateMessage(st, user, w, now).value.0.messages[st.nextId].replyTo == w.replyToId
  {
  }

  /** The store right after the message row is inserted, before media are
      attached. */
  function NewMessage(user: Id, w: MessageWrite, now: int): Message {
    Message(w.room, user, if w.content.Some? then Strip(w.content.value) else "", now,
            if ReplyGiven(w.replyToId) then w.replyToId else None)
  }

  function InsertMessage(st: Store, user: Id, w: MessageWrite, now: int): (s: Store)
    ensures st.nextId in s.messages
    ensures s == st.(messages := s.messages, nextId := st.nextId + 1)
  {
    WithMessage(st, NewMessage(user, w, now))
  }

  lemma InsertMessageValid(st: Store, user: Id, w: MessageWrite, now: int)
    requires Valid(st) && user in st.users && w.room in st.rooms
    requires !ReplyGiven(w.replyToId) || w.replyToId.value in st.messages
    ensures Valid(InsertMessage(st, user, w, now))
  {
    WithMessageValid(st, NewMessage(user, w, now));
  }

  lemma CreateMessageValid(st: Store, user: Id, w: MessageWrite, now: int)
    requires Valid(st) && user in st.users && w.room in st.rooms
    ensures CreateMessage(st, user, w, now).Ok? ==> Valid(CreateMessage(st, user, w, now).value.0)
  {
    var r := CreateMessage(st, user, w, now);
    if r.Ok? {
      var s := InsertMessage(st, user, w, now);
      InsertMessageValid(st, user, w, now);
      if ListGiven(w.mediaIds) {
        LinkMediaValid(s, w.mediaIds.value, st.nextId);
        assert r.value.0 == LinkMedia(s, w.mediaIds.value, st.nextId);
      } else {
        assert r.value.0 == s;
      }
    }
  }

  /** The fields of a partial update; `None` means the field was not sent
      (for `replyToId`, not sent or null). */
  datatype MessagePatch = MessagePatch(room: Option<Id>, content: Option<string>, replyToId: Option<nat>, mediaIds: Option<seq<Id>>)

  /** The reply target after an update: a truthy id replaces it, an absent
      or null id clears it, and an id of 0 leaves it as it was. */
  function PatchedReply(current: Option<Id>, replyToId: Option<nat>): Option<Id> {
    if ReplyGiven(replyToId) then replyToId
    else if replyToId.None? then None
    else current
  }

  /** `is_valid` followed by `MessageSerializer.update` on message `id`. The
      fields are checked first: `room` must name an existing room (a primary
      key field) and the content is stripped; then `validate` runs, then the
      reply target is looked up. */
  function UpdateMessage(st: Store, id: Id, p: MessagePatch): (r: Outcome<Store>)
    requires id in st.messages
    ensures p.room.Some? && p.room.value !in st.rooms ==> r == Invalid("room")
    ensures (p.room.None? || p.room.value in st.rooms) && !ValidateMessage(p.content, p.mediaIds)
      ==> r == Invalid("non_field_errors")
    ensures (p.room.None? || p.room.value in st.rooms) && ValidateMessage(p.content, p.mediaIds)
      && ReplyGiven(p.replyToId) && p.replyToId.value !in st.messages
      ==> r == Invalid("reply_to_id")
    ensures r.Ok? <==> (p.room.None? || p.room.value in st.rooms) && ValidateMessage(p.content, p.mediaIds)
                       && (!ReplyGiven(p.replyToId) || p.replyToId.value in st.messages)
    ensures r.Ok? ==>
      var prev := st.messages[id];
      var s := r.value;
      s.messages == st.messages[id := Message(
        if p.room.Some? then p.room.value else prev.room, prev.user,
        if p.content.Some? then Strip(p.content.value) else prev.content, prev.timestamp,
        PatchedReply(prev.replyTo, p.replyToId))]
      && s.media == (if ListGiven(p.mediaIds) then LinkMedia(st, p.mediaIds.value, id).media else st.media)
      && s == st.(messages := s.messages, media := s.media)
  {
    if p.room.Some? && p.room.value !in st.rooms then Invalid("room")
    else if !ValidateMessage(p.content, p.mediaIds) then Invalid("non_field_errors")
    else if ReplyGiven(p.replyToId) && p.replyToId.value !in st.messages then Invalid("reply_to_id")
    else
      var prev := st.messages[id];
      var m := Message(if p.room.Some? then p.room.value else prev.room, prev.user,
                       if p.content.Some? then Strip(p.content.value) else prev.content, prev.timestamp,
                       PatchedReply(prev.replyTo, p.replyToId));
      var s := st.(messages := st.messages[id := m]);
      Ok(if ListGiven(p.mediaIds) then LinkMedia(s, p.mediaIds.value, id) else s)
  }

  /** An accepted update keeps every schema invariant: the room and the reply
      target it sets exist, a kept reply target still does, and only
      unattached media rows are linked to the message. */
  lemma UpdateMessageValid(st: Store, id: Id, p: MessagePatch)
    requires Valid(st) && id in st.messages
    ensures UpdateMessage(st, id, p).Ok? ==> Valid(UpdateMessage(st, id, p).value)
  {
    var r := UpdateMessage(st, id, p);
    if r.Ok? {
      var prev := st.messages[id];
      var m := Message(if p.room.Some? then p.room.value else prev.room, prev.user,
                       if p.content.Some? then Strip(p.content.value) else prev.content, prev.timestamp,
                       PatchedReply(prev.replyTo, p.replyToId));
      var s := st.(messages := st.messages[id := m]);
      ReplaceMessageValid(st, id, m);
      if ListGiven(p.mediaIds) {
        LinkMediaValid(s, p.mediaIds.value, id);
      }
    }
  }

  /** An edit that only changes the content drops the message's reply link. */
  lemma ContentOnlyEditClearsReply(st: Store, id: Id, content: string)
    requires id in st.messages && Strip(content) != ""
    ensures UpdateMessage(st, id, MessagePatch(None, Some(content), None, None)).Ok?
    ensures UpdateMessage(st, id, MessagePatch(None, Some(content), None, None)).value.messages[id].replyTo == None
  {
    StripEmptyIff(content);
  }

  // ---------------------------------------------------------------------
  // Room summary fields

  /** True when some media row is attached to `message`. */
  predicate HasMedia(st: Store, message: Id) {
    exists f :: f in st.media && st.media[f].message == Some(message)
  }

  const CameraPrefix := "\U{1F4F7} "

  /** The preview text of a room's last message. */
  function SummaryText(content: string, hasMedia: bool): (r: string)
    ensures hasMedia && content != "" ==> r == CameraPrefix + content
    ensures hasMedia && content == "" ==> r == CameraPrefix + "Media"
    ensures !hasMedia ==> r == content
  {
    if hasMedia && content != "" then CameraPrefix + content
    else if hasMedia then CameraPrefix + "Media"
    else content
  }

  /** The preview of a message with media always starts with the camera
      prefix, and a preview never loses the content it shows. */
  lemma SummaryTextShape(content: string, hasMedia: bool)
    ensures hasMedia ==> StartsWith(SummaryText(content, hasMedia), CameraPrefix)
    ensures content != "" ==> SummaryText(content, hasMedia)[|SummaryText(content, hasMedia)| - |content|..] == content
  {
  }

  datatype LastMessageInfo = LastMessageInfo(username: string, message: string, timestamp: int)

  /** `ChatRoomSerializer.get_last_message`: None for a room without
      messages, otherwise the author, preview and time of its latest message. */
  function GetLastMessage(st: Store, room: Id): (r: Option<LastMessageInfo>)
    requires Valid(st)
    ensures r.None? <==> RoomMessageIds(st, room) == {}
    ensures r.Some? ==> exists k :: (k in st.messages && st.messages[k].room == room
      && (forall j :: j in st.messages && st.messages[j].room == room && j != k ==> Earlier(st.messages, j, k))
      && r.value == LastMessageInfo(st.users[st.messages[k].user].username,
                                    SummaryText(st.messages[k].content, HasMedia(st, k)),
                                    st.messages[k].timestamp))
  {
    match LastMessage(st, room)
    case None => None
    case Some(k) =>
      var m := st.messages[k];
      Some(LastMessageInfo(st.users[m.user].username, SummaryText(m.content, HasMedia(st, k)), m.timestamp))
  }

  /** The messages of `room` that `user` has not read: later than the read
      marker and written by someone else. */
  function UnreadIds(st: Store, user: Id, room: Id, lastRead: int): (ids: set<Id>)
    ensures ids <= RoomMessageIds(st, room)
    ensures forall k :: k in ids ==> st.messages[k].user != user && st.messages[k].timestamp > lastRead
  {
    set k | k in st.messages && st.messages[k].room == room && st.messages[k].timestamp > lastRead
                               && st.messages[k].user != user
  }

  /** `ChatRoomSerializer.get_unread_count`. */
  function GetUnreadCount(st: Store, requester: Requester, room: Id): (n: nat)
    requires UniqueMemberships(st.memberships)
    ensures requester.Anonymous? ==> n == 0
    ensures requester.Authenticated? && !IsMember(st, requester.id, room) ==> n == 0
    ensures requester.Authenticated? && IsMember(st, requester.id, room) ==>
      exists k :: MemberRow(st, k, requester.id, room) && n == |UnreadIds(st, requester.id, room, st.memberships[k].lastRead)|
    ensures n <= |RoomMessageIds(st, room)|
  {
    match requester
    case Anonymous => 0
    case Authenticated(u) =>
      match MembershipOf(st, u, room)
      case None => 0
      case Some(k) =>
        var ids := UnreadIds(st, u, room, st.memberships[k].lastRead);
        assert |ids| <= |RoomMessageIds(st, room)| by { SubsetCard(ids, RoomMessageIds(st, room)); }
        |ids|
  }

  lemma {:induction false} SubsetCard<T>(a: set<T>, b: set<T>)
    requires a <= b
    ensures |a| <= |b|
    decreases |a|
  {
    if a != {} {
      var x :| x in a;
      SubsetCard(a - {x}, b - {x});
    }
  }

  /** Marking a room read at a time no earlier than any of its messages
      leaves nothing unread in it. */
  lemma MarkReadClearsUnread(st: Store, k: Id, now: int)
    requires Valid(st) && k in st.memberships
    requires forall j :: j in st.messages && st.messages[j].room == st.memberships[k].room ==> st.messages[j].timestamp <= now
    ensures GetUnreadCount(MarkRead(st, k, now), Authenticated(st.memberships[k].user), st.memberships[k].room) == 0
  {
    var s := MarkRead(st, k, now);
    var u, room := st.memberships[k].user, st.memberships[k].room;
    MarkReadValid(st, k, now);
    assert MemberRow(s, k, u, room);
    assert UnreadIds(s, u, room, now) == {};
  }

  // ---------------------------------------------------------------------
  // The user update

  datatype ProfileData = ProfileData(bio: Option<string>, avatar: Option<Upload>)

  /** The parsed request of a user update: `profile` is None when the request
      carries no profile field at all; `cropRequested` is whether `crop_x` was
      sent. */
  datatype UserPatch = UserPatch(isSuperuser: Option<bool>, username: Option<string>, profile: Option<ProfileData>,
                                 cropRequested: bool)

  predicate ProfileGiven(p: ProfileData) {
    p.bio.Some? || p.avatar.Some?
  }

  /** The profile after an update with `data`: bio and avatar are replaced
      only when sent; a cropped avatar is stored under the name `cropped`. */
  function PatchedProfile(p: Profile, data: ProfileData, cropRequested: bool, cropped: string): Profile {
    Profile(if data.bio.Some? then data.bio.value else p.bio,
            if cropRequested && data.avatar.Some? then Some(cropped)
            else if data.avatar.Some? then Some(data.avatar.value.name)
            else p.avatar)
  }

  /** The longest username Django's user model stores. */
  const UsernameMaxLength := 150

  /** The patch as the fields clean it: the username and the bio stripped. */
  function CleanUserPatch(d: UserPatch): UserPatch {
    d.(username := CleanContent(d.username),
       profile := if d.profile.Some? then Some(d.profile.value.(bio := CleanContent(d.profile.value.bio))) else None)
  }

  /** Field validation that runs before `update`, on the stripped values: a
      blank, over-long or taken username, a bio over 128 characters or an
      oversized avatar is refused; otherwise the cleaned patch goes on. */
  function ValidateUserPatch(st: Store, id: Id, d: UserPatch): (r: Outcome<UserPatch>)
    ensures r.Ok? || r.Invalid?
    ensures r.Ok? ==> r.value == CleanUserPatch(d)
    ensures r.Ok? && r.value.username.Some? ==>
      var u := r.value.username.value;
      u != [] && !IsPySpace(u[0]) && !IsPySpace(u[|u| - 1]) && |u| <= UsernameMaxLength
      && forall k :: k in st.users && k != id ==> st.users[k].username != u
    ensures r.Ok? && r.value.profile.Some? && r.value.profile.value.bio.Some? ==>
      |r.value.profile.value.bio.value| <= BioMaxLength
    ensures r.Ok? && d.profile.Some? && d.profile.value.avatar.Some? ==> d.profile.value.avatar.value.size <= AvatarMaxBytes
    ensures r.Ok? <==>
      (d.username.Some? ==> var u := Strip(d.username.value);
         u != [] && |u| <= UsernameMaxLength && forall k :: k in st.users && k != id ==> st.users[k].username != u)
      && (d.profile.Some? && d.profile.value.bio.Some? ==> |Strip(d.profile.value.bio.value)| <= BioMaxLength)
      && (d.profile.Some? && d.profile.value.avatar.Some? ==> d.profile.value.avatar.value.size <= AvatarMaxBytes)
  {
    var c := CleanUserPatch(d);
    if c.username.Some? && (c.username.value == [] || |c.username.value| > UsernameMaxLength) then
      Invalid("username")
    else if c.username.Some? && exists k :: k in st.users && k != id && st.users[k].username == c.username.value then
      Invalid("username")
    else if c.profile.Some? && c.profile.value.bio.Some? && |c.profile.value.bio.value| > BioMaxLength then
      Invalid("bio")
    else if c.profile.Some? && c.profile.value.avatar.Some? && !ValidateAvatarImg(c.profile.value.avatar.value).Ok? then
      Invalid("avatar_img")
    else Ok(c)
  }

  /** A submitted username padded with white space is cleaned before the
      uniqueness test, so it cannot duplicate another user's name. */
  lemma PaddedUsernameIsTaken(st: Store, id: Id, other: Id, p: string, q: string, d: UserPatch)
    requires other in st.users && other != id
    requires var t := st.users[other].username; t != [] && !IsPySpace(t[0]) && !IsPySpace(t[|t| - 1])
    requires forall k :: 0 <= k < |p| ==> IsPySpace(p[k])
    requires forall k :: 0 <= k < |q| ==> IsPySpace(q[k])
    requires d.username == Some(p + st.users[other].username + q)
    ensures ValidateUserPatch(st, id, d).Invalid?
  {
    StripPadded(p, st.users[other].username, q);
  }

  /** `UserSerializer.update` as written: `validated_data.pop("profile")` has
      no default, so a request without any profile field raises KeyError. */
  function UpdateUserAsWritten(st: Store, id: Id, d: UserPatch, cropped: string): (r: Outcome<Store>)
    requires id in st.users && id in st.profiles
    ensures ValidateUserPatch(st, id, d).Ok? && d.isSuperuser.Some? && !st.users[id].isSuperuser ==> r == Invalid("is_superuser")
    ensures d.profile.None? && ValidateUserPatch(st, id, d).Ok? && !(d.isSuperuser.Some? && !st.users[id].isSuperuser)
      ==> r == ServerError
  {
    match ValidateUserPatch(st, id, d)
    case Invalid(f) => Invalid(f)
    case ServerError => ServerError
    case Ok(c) =>
      if c.isSuperuser.Some? && !st.users[id].isSuperuser then Invalid("is_superuser")
      else if c.profile.None? then ServerError
      else UpdateUserFields(st, id, c, cropped)
  }

  /** The assignments of `update` once the profile data is known. The
      `is_superuser` value itself is never written. */
  function UpdateUserFields(st: Store, id: Id, d: UserPatch, cropped: string): (r: Outcome<Store>)
    requires id in st.users && id in st.profiles
    ensures r.Ok?
    ensures r.value.users == st.users[id := st.users[id].(username := if d.username.Some? then d.username.value else st.users[id].username)]
    ensures d.profile.Some? && ProfileGiven(d.profile.value) ==>
      r.value.profiles == st.profiles[id := PatchedProfile(st.profiles[id], d.profile.value, d.cropRequested, cropped)]
    ensures !(d.profile.Some? && ProfileGiven(d.profile.value)) ==> r.value.profiles == st.profiles
    ensures r.value == st.(users := r.value.users, profiles := r.value.profiles)
  {
    var u := st.users[id];
    var s := st.(users := st.users[id := u.(username := if d.username.Some? then d.username.value else u.username)]);
    if d.profile.Some? && ProfileGiven(d.profile.value) then
      Ok(s.(profiles := st.profiles[id := PatchedProfile(st.profiles[id], d.profile.value, d.cropRequested, cropped)]))
    else Ok(s)
  }

  /** `UserSerializer.update` with the profile popped with a default of None:
      a request without profile fields updates the username only. */
  function UpdateUser(st: Store, id: Id, d: UserPatch, cropped: string): (r: Outcome<Store>)
    requires id in st.users && id in st.profiles
    ensures ValidateUserPatch(st, id, d).Ok? && d.isSuperuser.Some? && !st.users[id].isSuperuser ==> r == Invalid("is_superuser")
    ensures r.Ok? <==> ValidateUserPatch(st, id, d).Ok? && !(d.isSuperuser.Some? && !st.users[id].isSuperuser)
    ensures r.Ok? ==> r.value.users.Keys == st.users.Keys
    ensures r.Ok? ==> r.value.users[id].username == (if d.username.Some? then Strip(d.username.value) else st.users[id].username)
    ensures r.Ok? ==> r.value.users[id].isSuperuser == st.users[id].isSuperuser
    ensures r.Ok? && d.profile.None? ==> r.value.profiles == st.profiles
  {
    match ValidateUserPatch(st, id, d)
    case Invalid(f) => Invalid(f)
    case ServerError => ServerError
    case Ok(c) =>
      if c.isSuperuser.Some? && !st.users[id].isSuperuser then Invalid("is_superuser")
      else UpdateUserFields(st, id, c, cropped)
  }

  /** The two agree whenever the request carries profile fields; they differ
      on a request that only renames the user. */
  lemma UpdateUserAgreesWithProfile(st: Store, id: Id, d: UserPatch, cropped: string)
    requires id in st.users && id in st.profiles && d.profile.Some?
    ensures UpdateUserAsWritten(st, id, d, cropped) == UpdateUser(st, id, d, cropped)
  {
  }

  lemma RenameOnlyFailsAsWritten(st: Store, id: Id, name: string, cropped: string)
    requires id in st.users && id in st.profiles
    requires Strip(name) != [] && |Strip(name)| <= UsernameMaxLength
    requires forall k :: k in st.users && k != id ==> st.users[k].username != Strip(name)
    ensures UpdateUserAsWritten(st, id, UserPatch(None, Some(name), None, false), cropped) == ServerError
    ensures UpdateUser(st, id, UserPatch(None, Some(name), None, false), cropped).Ok?
  {
  }

  lemma UpdateUserValid(st: Store, id: Id, d: UserPatch, cropped: string)
    requires Valid(st) && id in st.users
    ensures UpdateUser(st, id, d, cropped).Ok? ==> Valid(UpdateUser(st, id, d, cropped).value)
  {
    var r := UpdateUser(st, id, d, cropped);
    if r.Ok? {
      var s := r.value;
      forall a, b | a in s.users && b in s.users && s.users[a].username == s.users[b].username
        ensures a == b
      {
        if a != id && b != id {
          assert st.users[a].username == st.users[b].username;
        }
      }
    }
  }
}
