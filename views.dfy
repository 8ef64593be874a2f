/** The REST endpoints: the username check and login, the room endpoints
    (visible rooms, creation, invitation) and the message endpoints (the
    filtered and ordered list with its read-marker side effect, and creation
    with its broadcast). */
module Views {
  import opened Common
  import opened ChatModels
  import opened ChannelLayers
  import opened Serializers
  import opened Permissions
  import Consumers

  const OK: nat := 200
  const CREATED: nat := 201
  const BAD_REQUEST: nat := 400
  const UNAUTHORIZED: nat := 401
  const FORBIDDEN: nat := 403
  const NOT_FOUND: nat := 404
  const SERVER_ERROR: nat := 500

  /** `CheckUsernameView.get`: 200 when the username is taken, 404 otherwise. */
  function CheckUsername(st: Store, username: string): (status: nat)
    ensures status == OK || status == NOT_FOUND
    ensures status == OK <==> exists k :: k in st.users && st.users[k].username == username
  {
    if UsernameTaken(st, username) then OK else NOT_FOUND
  }

  /** `UserLoginView.post`; `authenticated` is what `authenticate` returns
      for the submitted credentials. A request without a username or a
      password field fails with a KeyError. */
  function LoginStatus(username: Option<string>, password: Option<string>, authenticated: Option<Id>): (status: nat)
    ensures username.None? || password.None? ==> status == SERVER_ERROR
    ensures username.Some? && password.Some? ==> (status == OK <==> authenticated.Some?)
    ensures username.Some? && password.Some? && authenticated.None? ==> status == UNAUTHORIZED
  {
    if username.None? || password.None? then SERVER_ERROR
    else if authenticated.Some? then OK
    else UNAUTHORIZED
  }

  /** `ChatRoomViewSet.get_queryset`: the public rooms and the rooms `user`
      belongs to, each once. */
  function RoomQueryset(st: Store, user: Id): (rooms: set<Id>)
    ensures rooms <= st.rooms.Keys
    ensures forall r :: r in st.rooms && !st.rooms[r].isPrivate ==> r in rooms
    ensures forall r :: r in st.rooms && IsMember(st, user, r) ==> r in rooms
    ensures forall r :: r in rooms ==> !st.rooms[r].isPrivate || IsMember(st, user, r)
  {
    set r | r in st.rooms && (!st.rooms[r].isPrivate || IsMember(st, user, r))
  }

  predicate RoomNameTaken(st: Store, name: string) {
    exists k :: k in st.rooms && st.rooms[k].name == name
  }

  /** The name rules the room serializer enforces on the stripped name
      before saving: not blank, at most 255 characters, not used by another
      room. */
  predicate RoomNameAcceptable(st: Store, name: string) {
    name != [] && |name| <= RoomNameMaxLength && !RoomNameTaken(st, name)
  }

  /** A submitted name made only of white space is stripped to nothing and
      refused as blank. */
  lemma BlankRoomNameRefused(st: Store, name: string)
    requires forall k :: 0 <= k < |name| ==> IsPySpace(name[k])
    ensures !RoomNameAcceptable(st, Strip(name))
  {
    StripEmptyIff(name);
  }

  /** An existing room's name, padded with white space, is stripped back to
      that name and refused as taken. */
  lemma PaddedRoomNameRefused(st: Store, other: Id, p: string, q: string)
    requires other in st.rooms
    requires var t := st.rooms[other].name; t != [] && !IsPySpace(t[0]) && !IsPySpace(t[|t| - 1])
    requires forall k :: 0 <= k < |p| ==> IsPySpace(p[k])
    requires forall k :: 0 <= k < |q| ==> IsPySpace(q[k])
    ensures !RoomNameAcceptable(st, Strip(p + st.rooms[other].name + q))
  {
    StripPadded(p, st.rooms[other].name, q);
  }

  /** The room row the serializer saves, before the creator joins it. */
  function WithRoom(st: Store, owner: Id, name: string, isPrivate: bool): (r: (Store, Id))
    ensures r.1 == st.nextId && r.0.nextId == st.nextId + 1
    ensures r.0 == st.(rooms := st.rooms[r.1 := ChatRoom(name, isPrivate, Some(owner))], nextId := r.1 + 1)
  {
    var id := st.nextId;
    (st.(rooms := st.rooms[id := ChatRoom(name, isPrivate, Some(owner))], nextId := id + 1), id)
  }

  lemma WithRoomValid(st: Store, owner: Id, name: string, isPrivate: bool)
    requires Valid(st) && owner in st.users && RoomNameAcceptable(st, name)
    ensures Valid(WithRoom(st, owner, name, isPrivate).0)
  {
    var (s, id) := WithRoom(st, owner, name, isPrivate);
    assert id !in st.rooms;
    assert KeysFresh(s);
    assert RefsIntact(s);
    assert UniqueMemberships(s.memberships);
    assert forall k :: k in st.rooms ==> st.rooms[k].name != name;
    assert UniqueRoomNames(s.rooms);
    assert UniqueUsernames(s.users) && ProfilesMatchUsers(s);
  }

  /** `ChatRoomViewSet.perform_create`: the new room belongs to the requester,
      who also becomes its first member. */
  function CreateRoom(st: Store, owner: Id, name: string, isPrivate: bool, now: int): (r: (Store, Id))
    requires RoomNameAcceptable(st, name)
    ensures r.1 == st.nextId && r.1 in r.0.rooms
    ensures r.0.rooms == st.rooms[r.1 := ChatRoom(name, isPrivate, Some(owner))]
    ensures IsMember(r.0, owner, r.1)
    ensures r.0.users == st.users && r.0.messages == st.messages && r.0.media == st.media
  {
    var (s, id) := WithRoom(st, owner, name, isPrivate);
    (AddMember(s, owner, id, now), id)
  }

  lemma CreateRoomValid(st: Store, owner: Id, name: string, isPrivate: bool, now: int)
    requires Valid(st) && owner in st.users && RoomNameAcceptable(st, name)
    ensures Valid(CreateRoom(st, owner, name, isPrivate, now).0)
  {
    var (s, id) := WithRoom(st, owner, name, isPrivate);
    WithRoomValid(st, owner, name, isPrivate);
    AddMemberValid(s, owner, id, now);
  }

  /** The creator of a room, even a private one, sees it in the room list. */
  lemma CreatorSeesRoom(st: Store, owner: Id, name: string, isPrivate: bool, now: int)
    requires RoomNameAcceptable(st, name)
    ensures CreateRoom(st, owner, name, isPrivate, now).1 in RoomQueryset(CreateRoom(st, owner, name, isPrivate, now).0, owner)
  {
  }

  /** The outcome of `invite`, before any write: which status it answers
      and, for a successful invitation of a non-member, whom it adds. */
  datatype InviteDecision = Reply(status: nat) | Add(user: Id)

  function InviteDecide(st: Store, requester: Requester, room: Id, username: Option<string>): (d: InviteDecision)
    requires UniqueUsernames(st.users)
    ensures requester.Anonymous? ==> d == Reply(SERVER_ERROR)
    ensures requester.Authenticated? && room !in RoomQueryset(st, requester.id) ==> d == Reply(NOT_FOUND)
    ensures (requester.Authenticated? && room in RoomQueryset(st, requester.id)
      && !HasObjectPermission(POST, st.rooms[room].owner, requester)) ==> d == Reply(FORBIDDEN)
    ensures d.Add? ==>
      requester.Authenticated? && room in st.rooms && st.rooms[room].owner == Some(requester.id)
      && username.Some? && username.value != [] && d.user in st.users
      && st.users[d.user].username == username.value && !IsMember(st, d.user, room)
    ensures (requester.Authenticated? && room in RoomQueryset(st, requester.id)
      && HasObjectPermission(POST, st.rooms[room].owner, requester)) ==>
        (!TextGiven(username) ==> d == Reply(BAD_REQUEST))
        && (TextGiven(username) && !UsernameTaken(st, username.value) ==> d == Reply(NOT_FOUND))
        && (TextGiven(username) && UsernameTaken(st, username.value) ==> (d == Reply(OK) || d.Add?))
  {
    match requester
    case Anonymous => Reply(SERVER_ERROR)
    case Authenticated(u) =>
      if room !in RoomQueryset(st, u) then Reply(NOT_FOUND)
      else if !HasObjectPermission(POST, st.rooms[room].owner, requester) then Reply(FORBIDDEN)
      else if !TextGiven(username) then Reply(BAD_REQUEST)
      else if !UsernameTaken(st, username.value) then Reply(NOT_FOUND)
      else
        var v :| v in st.users && st.users[v].username == username.value;
        if IsMember(st, v, room) then Reply(OK) else Add(v)
  }

  class ChatRoomViewSet {
    const db: Database

    constructor(db: Database)
      ensures this.db == db
    {
      this.db := db;
    }

    /** `create`: anonymous requests are refused; the name field strips the
        submitted name, and a stripped name the serializer rejects gives 400;
        otherwise the room is created under the stripped name with the
        requester as owner and member. */
    method Create(requester: Requester, name: string, isPrivate: bool, now: int) returns (status: nat, room: Option<Id>)
      requires Valid(db.store) && (requester.Authenticated? ==> requester.id in db.store.users)
      modifies db
      ensures Valid(db.store)
      ensures requester.Anonymous? ==> status == FORBIDDEN && room.None? && db.store == old(db.store)
      ensures requester.Authenticated? && !RoomNameAcceptable(old(db.store), Strip(name)) ==>
        status == BAD_REQUEST && room.None? && db.store == old(db.store)
      ensures requester.Authenticated? && RoomNameAcceptable(old(db.store), Strip(name)) ==>
        status == CREATED && room == Some(old(db.store).nextId)
        && db.store == CreateRoom(old(db.store), requester.id, Strip(name), isPrivate, now).0
        && db.store.rooms[room.value].name == Strip(name)
        && room.value in RoomQueryset(db.store, requester.id)
    {
      if requester.Anonymous? {
        return FORBIDDEN, None;
      }
      var clean := Strip(name);
      if !RoomNameAcceptable(db.store, clean) {
        return BAD_REQUEST, None;
      }
      CreateRoomValid(db.store, requester.id, clean, isPrivate, now);
      CreatorSeesRoom(db.store, requester.id, clean, isPrivate, now);
      var (s, id) := CreateRoom(db.store, requester.id, clean, isPrivate, now);
      db.store := s;
      return CREATED, Some(id);
    }

    /** `invite`: only the owner of a room the requester can see may invite; a
        missing username gives 400, an unknown one 404, a current member 200
        with no change, and anyone else is added with 200. */
    method Invite(requester: Requester, room: Id, username: Option<string>, now: int) returns (status: nat)
      requires Valid(db.store)
      modifies db
      ensures Valid(db.store)
      ensures InviteDecide(old(db.store), requester, room, username).Reply? ==>
        status == InviteDecide(old(db.store), requester, room, username).status && db.store == old(db.store)
      ensures InviteDecide(old(db.store), requester, room, username).Add? ==>
        status == OK
        && db.store == AddMember(old(db.store), InviteDecide(old(db.store), requester, room, username).user, room, now)
        && IsMember(db.store, InviteDecide(old(db.store), requester, room, username).user, room)
    {
      var d := InviteDecide(db.store, requester, room, username);
      match d
      case Reply(s) =>
        status := s;
      case Add(v) =>
        AddMemberValid(db.store, v, room, now);
        db.store := AddMember(db.store, v, room, now);
        status := OK;
    }
  }

  /** `MessageViewSet.get_queryset`: the messages of `room` when the query
      names one, all messages otherwise, in timestamp order. */
  function MessageQueryset(st: Store, room: Option<Id>): (ids: seq<Id>)
    ensures forall i :: 0 <= i < |ids| ==> ids[i] in st.messages
    ensures forall k :: k in st.messages ==> (k in ids <==> room.None? || st.messages[k].room == room.value)
    ensures forall i, j :: 0 <= i < j < |ids| ==> Earlier(st.messages, ids[i], ids[j])
  {
    match room
    case None => Ordered(st.messages, st.messages.Keys)
    case Some(r) => Ordered(st.messages, RoomMessageIds(st, r))
  }

  /** The read-marker side effect of `list` for a room query. A public room
      gets a membership for the reader if it had none; a private room only
      updates an existing one; an unknown room changes nothing. */
  /** A public room's listing: join when not a member yet, then mark the
      membership read. */
  function JoinAndMark(st: Store, user: Id, room: Id, now: int): (r: Store)
    requires UniqueMemberships(st.memberships) && KeysBelow(st.memberships, st.nextId)
    ensures IsMember(r, user, room) && (exists k :: MemberRow(r, k, user, room) && r.memberships[k].lastRead == now)
    ensures var joins := !IsMember(st, user, room);
      r.memberships.Keys == st.memberships.Keys + (if joins then {st.nextId} else {})
      && r.nextId == st.nextId + (if joins then 1 else 0)
    ensures forall k :: k in st.memberships && !MemberRow(st, k, user, room) ==> r.memberships[k] == st.memberships[k]
    ensures r == st.(memberships := r.memberships, nextId := r.nextId)
  {
    var s := AddMember(st, user, room, now);
    var k := if IsMember(st, user, room) then MembershipOf(st, user, room).value else st.nextId;
    assert MemberRow(s, k, user, room);
    assert MemberRow(MarkRead(s, k, now), k, user, room);
    MarkRead(s, k, now)
  }

  function ListMarker(st: Store, user: Id, room: Id, now: int): (r: Store)
    requires UniqueMemberships(st.memberships) && KeysBelow(st.memberships, st.nextId)
    ensures room !in st.rooms ==> r == st
    ensures room in st.rooms && st.rooms[room].isPrivate && !IsMember(st, user, room) ==> r == st
    ensures room in st.rooms && (!st.rooms[room].isPrivate || IsMember(st, user, room)) ==>
      IsMember(r, user, room) && (exists k :: MemberRow(r, k, user, room) && r.memberships[k].lastRead == now)
    ensures var joins := room in st.rooms && !st.rooms[room].isPrivate && !IsMember(st, user, room);
      r.memberships.Keys == st.memberships.Keys + (if joins then {st.nextId} else {})
      && r.nextId == st.nextId + (if joins then 1 else 0)
    ensures forall k :: k in st.memberships && !MemberRow(st, k, user, room) ==> r.memberships[k] == st.memberships[k]
    ensures r.rooms == st.rooms && r.messages == st.messages && r.users == st.users
    ensures r.profiles == st.profiles && r.media == st.media
  {
    if room !in st.rooms then st
    else if !st.rooms[room].isPrivate then JoinAndMark(st, user, room, now)
    else
      match MembershipOf(st, user, room)
      case None => st
      case Some(k) =>
        MarkReadKeepsMembers(st, k, now, user, room);
        MarkRead(st, k, now)
  }

  lemma ListMarkerValid(st: Store, user: Id, room: Id, now: int)
    requires Valid(st) && user in st.users
    ensures Valid(ListMarker(st, user, room, now))
  {
    if room in st.rooms && !st.rooms[room].isPrivate {
      AddMemberValid(st, user, room, now);
      var s := AddMember(st, user, room, now);
      var k := if IsMember(st, user, room) then MembershipOf(st, user, room).value else st.nextId;
      assert ListMarker(st, user, room, now) == MarkRead(s, k, now);
      MarkReadValid(s, k, now);
    } else if room in st.rooms {
      match MembershipOf(st, user, room)
      case None =>
      case Some(k) => MarkReadValid(st, k, now);
    }
  }

  /** Listing never makes anyone a member of a private room they were not in. */
  lemma ListNeverJoinsPrivate(st: Store, user: Id, room: Id, now: int)
    requires UniqueMemberships(st.memberships) && KeysBelow(st.memberships, st.nextId)
    requires room in st.rooms && st.rooms[room].isPrivate
    ensures IsMember(ListMarker(st, user, room, now), user, room) == IsMember(st, user, room)
  {
  }

  class MessageViewSet {
    const db: Database
    const layer: Layer

    constructor(db: Database, layer: Layer)
      ensures this.db == db && this.layer == layer
    {
      this.db := db;
      this.layer := layer;
    }

    /** `list`: anonymous requests are refused; otherwise the read marker is
        updated for a truthy room query and the ordered, filtered messages are
        returned. */
    method List(requester: Requester, room: Option<Id>, now: int) returns (status: nat, ids: seq<Id>)
      requires Valid(db.store) && (requester.Authenticated? ==> requester.id in db.store.users)
      modifies db
      ensures Valid(db.store)
      ensures requester.Anonymous? ==> status == FORBIDDEN && ids == [] && db.store == old(db.store)
      ensures requester.Authenticated? ==>
        status == OK
        && db.store == (if room.Some? then ListMarker(old(db.store), requester.id, room.value, now) else old(db.store))
        && ids == MessageQueryset(db.store, room)
    {
      if requester.Anonymous? {
        return FORBIDDEN, [];
      }
      if room.Some? {
        ListMarkerValid(db.store, requester.id, room.value, now);
        db.store := ListMarker(db.store, requester.id, room.value, now);
      }
      return OK, MessageQueryset(db.store, room);
    }

    /** `create` with `perform_create`: the write is validated, stored with
        the requester as author and then broadcast, once, to the room's group. */
    method Create(requester: Requester, w: MessageWrite, now: int) returns (status: nat, id: Option<Id>)
      requires Valid(db.store) && (requester.Authenticated? ==> requester.id in db.store.users)
      modifies db, layer
      ensures Valid(db.store) && layer.groups == old(layer.groups)
      ensures status != CREATED ==> id.None? && db.store == old(db.store) && layer.sent == old(layer.sent)
      ensures requester.Anonymous? ==> status == FORBIDDEN
      ensures requester.Authenticated? && (!ValidateMessage(w.content, w.mediaIds) || w.room !in old(db.store).rooms)
        ==> status == BAD_REQUEST
      ensures status == CREATED <==>
        requester.Authenticated? && ValidateMessage(w.content, w.mediaIds) && w.room in old(db.store).rooms
        && CreateMessage(old(db.store), requester.id, w, now).Ok?
      ensures status == CREATED ==>
        var (s, m) := CreateMessage(old(db.store), requester.id, w, now).value;
        id == Some(m) && db.store == s && db.store.messages[m].user == requester.id
        && layer.sent == old(layer.sent) + [GroupEvent(Consumers.GroupName(w.room), Consumers.ChatMessageEvent, m)]
    {
      if requester.Anonymous? {
        return FORBIDDEN, None;
      }
      if !ValidateMessage(w.content, w.mediaIds) || w.room !in db.store.rooms {
        return BAD_REQUEST, None;
      }
      CreateMessageValid(db.store, requester.id, w, now);
      match CreateMessage(db.store, requester.id, w, now)
      case Ok((s, m)) =>
        db.store := s;
        layer.GroupSend(Consumers.GroupName(w.room), Consumers.ChatMessageEvent, m);
        return CREATED, Some(m);
      case Invalid(_) =>
        return BAD_REQUEST, None;
      case ServerError =>
        return SERVER_ERROR, None;
    }
  }
}
