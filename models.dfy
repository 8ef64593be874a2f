/** The relational model of the chat backend: users and their profiles, rooms,
    memberships, messages and media rows, held as maps keyed by primary key.
    One counter `nextId` hands out every new key, so a fresh key never clashes
    with an existing row of any table. */
module ChatModels {
  import opened Common

  type Id = nat

  datatype User = User(username: string, isSuperuser: bool)

  /** A profile is reached through its user (one-to-one), so profiles are keyed
      by the user's id. */
  datatype Profile = Profile(bio: string, avatar: Option<string>)

  datatype Membership = Membership(user: Id, room: Id, lastRead: int)

  datatype ChatRoom = ChatRoom(name: string, isPrivate: bool, owner: Option<Id>)

  datatype Message = Message(room: Id, user: Id, content: string, timestamp: int, replyTo: Option<Id>)

  datatype MessageMedia = MessageMedia(message: Option<Id>, file: string)

  datatype Store = Store(
    users: map<Id, User>,
    profiles: map<Id, Profile>,
    memberships: map<Id, Membership>,
    rooms: map<Id, ChatRoom>,
    messages: map<Id, Message>,
    media: map<Id, MessageMedia>,
    nextId: nat)

  /** The length limits of the schema: a room name holds at most 255
      characters and a bio at most 128. */
  const RoomNameMaxLength := 255
  const BioMaxLength := 128

  predicate KeysBelow<T>(m: map<Id, T>, n: nat) {
    forall k :: k in m ==> 0 < k < n
  }

  predicate KeysFresh(st: Store) {
    0 < st.nextId && KeysBelow(st.users, st.nextId) && KeysBelow(st.memberships, st.nextId)
    && KeysBelow(st.rooms, st.nextId) && KeysBelow(st.messages, st.nextId)
    && KeysBelow(st.media, st.nextId)
  }

  /** Every foreign key names an existing row; a nullable one may be empty. */
  predicate RefsIntact(st: Store) {
    (forall k :: k in st.memberships ==> st.memberships[k].user in st.users && st.memberships[k].room in st.rooms)
    && (forall k :: k in st.rooms ==> (st.rooms[k].owner.Some? ==> st.rooms[k].owner.value in st.users))
    && (forall k :: k in st.messages ==> st.messages[k].room in st.rooms && st.messages[k].user in st.users)
    && (forall k :: k in st.messages ==> (st.messages[k].replyTo.Some? ==> st.messages[k].replyTo.value in st.messages))
    && (forall k :: k in st.media ==> (st.media[k].message.Some? ==> st.media[k].message.value in st.messages))
  }

  /** The (user, room) pair of a membership is unique. */
  predicate UniqueMemberships(ms: map<Id, Membership>) {
    forall a, b :: (a in ms && b in ms && ms[a].user == ms[b].user && ms[a].room == ms[b].room) ==> a == b
  }

  predicate UniqueRoomNames(rooms: map<Id, ChatRoom>) {
    forall a, b :: a in rooms && b in rooms && rooms[a].name == rooms[b].name ==> a == b
  }

  predicate UniqueUsernames(users: map<Id, User>) {
    forall a, b :: a in users && b in users && users[a].username == users[b].username ==> a == b
  }

  /** Every user has exactly one profile, and every profile belongs to a user. */
  predicate ProfilesMatchUsers(st: Store) {
    st.profiles.Keys == st.users.Keys
  }

  predicate Valid(st: Store) {
    KeysFresh(st) && RefsIntact(st) && UniqueMemberships(st.memberships) && UniqueRoomNames(st.rooms)
    && UniqueUsernames(st.users) && ProfilesMatchUsers(st)
  }

  function EmptyStore(): (st: Store)
    ensures Valid(st)
  {
    Store(map[], map[], map[], map[], map[], map[], 1)
  }

  // ---------------------------------------------------------------------
  // Memberships

  predicate MemberRow(st: Store, k: Id, user: Id, room: Id) {
    k in st.memberships && st.memberships[k].user == user && st.memberships[k].room == room
  }

  /** `user in room.members.all()`. */
  predicate IsMember(st: Store, user: Id, room: Id) {
    exists k :: k in st.memberships && MemberRow(st, k, user, room)
  }

  /** The one membership row of `user` in `room`, if there is one. */
  function MembershipOf(st: Store, user: Id, room: Id): (r: Option<Id>)
    requires UniqueMemberships(st.memberships)
    ensures r.Some? <==> IsMember(st, user, room)
    ensures r.Some? ==> MemberRow(st, r.value, user, room)
  {
    if IsMember(st, user, room) then
      var k :| k in st.memberships && MemberRow(st, k, user, room); Some(k)
    else None
  }

  /** `room.members.add(user)`: inserts a membership row read up to `now`
      unless the user is already a member, in which case nothing changes. */
  function AddMember(st: Store, user: Id, room: Id, now: int): (r: Store)
    ensures IsMember(r, user, room)
    ensures IsMember(st, user, room) ==> r == st
    ensures !IsMember(st, user, room) ==>
      r.memberships == st.memberships[st.nextId := Membership(user, room, now)]
      && r == st.(memberships := r.memberships, nextId := st.nextId + 1)
  {
    if IsMember(st, user, room) then st
    else
      var r := st.(memberships := st.memberships[st.nextId := Membership(user, room, now)],
                   nextId := st.nextId + 1);
      assert MemberRow(r, st.nextId, user, room);
      r
  }

  /** Adding a member never duplicates a (user, room) pair nor breaks a key. */
  lemma AddMemberValid(st: Store, user: Id, room: Id, now: int)
    requires Valid(st) && user in st.users && room in st.rooms
    ensures Valid(AddMember(st, user, room, now))
  {
    var r := AddMember(st, user, room, now);
    if !IsMember(st, user, room) {
      KeysBelowAdd(st.memberships, st.nextId, Membership(user, room, now));
      forall a, b | a in r.memberships && b in r.memberships
        && r.memberships[a].user == r.memberships[b].user
        && r.memberships[a].room == r.memberships[b].room
        ensures a == b
      {
        if a == st.nextId && b != st.nextId {
          assert MemberRow(st, b, user, room);
        } else if b == st.nextId && a != st.nextId {
          assert MemberRow(st, a, user, room);
        }
      }
    }
  }

  /** Overwrites the read marker of one membership row, as
      `membership.last_read_timestamp = now; membership.save()` does. */
  function MarkRead(st: Store, k: Id, now: int): (r: Store)
    requires k in st.memberships
    ensures r.memberships.Keys == st.memberships.Keys
    ensures r.memberships[k].lastRead == now
    ensures r.memberships[k].user == st.memberships[k].user && r.memberships[k].room == st.memberships[k].room
    ensures forall j :: j in st.memberships && j != k ==> r.memberships[j] == st.memberships[j]
    ensures r == st.(memberships := r.memberships)
  {
    st.(memberships := st.memberships[k := st.memberships[k].(lastRead := now)])
  }

  lemma MarkReadValid(st: Store, k: Id, now: int)
    requires Valid(st) && k in st.memberships
    ensures Valid(MarkRead(st, k, now))
  {
    var r := MarkRead(st, k, now);
    assert forall j :: j in r.memberships ==>
      r.memberships[j].user == st.memberships[j].user && r.memberships[j].room == st.memberships[j].room;
    assert KeysFresh(r);
    assert RefsIntact(r);
    assert UniqueMemberships(r.memberships);
  }

  lemma MarkReadKeepsMembers(st: Store, k: Id, now: int, user: Id, room: Id)
    requires k in st.memberships
    ensures IsMember(MarkRead(st, k, now), user, room) <==> IsMember(st, user, room)
  {
    var r := MarkRead(st, k, now);
    assert forall j :: j in r.memberships ==>
      r.memberships[j].user == st.memberships[j].user && r.memberships[j].room == st.memberships[j].room;
    if IsMember(st, user, room) {
      var j :| j in st.memberships && MemberRow(st, j, user, room);
      assert MemberRow(r, j, user, room);
    }
    if IsMember(r, user, room) {
      var j :| j in r.memberships && MemberRow(r, j, user, room);
      assert MemberRow(st, j, user, room);
    }
  }

  // ---------------------------------------------------------------------
  // Users and the profile receiver

  predicate UsernameTaken(st: Store, username: string) {
    exists k :: k in st.users && st.users[k].username == username
  }

  /** `User.objects.create_user(...)` followed by the `post_save` receiver that
      creates the user's profile. A taken username violates the unique
      constraint and nothing is stored. */
  function CreateUser(st: Store, username: string): (r: (Store, Option<Id>))
    ensures UsernameTaken(st, username) <==> r.1.None?
    ensures r.1.None? ==> r.0 == st
    ensures r.1.Some? ==>
      var id := r.1.value;
      r.0.users == st.users[id := User(username, false)]
      && id in r.0.profiles && r.0.profiles[id] == Profile("", None)
      && r.0.profiles == st.profiles[id := Profile("", None)]
      && r.0.memberships == st.memberships && r.0.rooms == st.rooms
      && r.0.messages == st.messages && r.0.media == st.media
  {
    if UsernameTaken(st, username) then (st, None)
    else
      var id := st.nextId;
      (st.(users := st.users[id := User(username, false)],
           profiles := st.profiles[id := Profile("", None)],
           nextId := id + 1), Some(id))
  }

  /** A new user gets a fresh key and exactly one profile, so every user still
      has exactly one profile afterwards. */
  lemma CreateUserValid(st: Store, username: string)
    requires Valid(st)
    ensures Valid(CreateUser(st, username).0)
    ensures CreateUser(st, username).1.Some? ==> CreateUser(st, username).1.value !in st.users
  {
    var (r, id) := CreateUser(st, username);
    if id.Some? {
      KeysBelowAdd(st.users, st.nextId, User(username, false));
      assert id.value !in st.users;
      assert forall k :: k in st.users ==> st.users[k].username != username;
    }
  }

  // ---------------------------------------------------------------------
  // Message rows

  /** The store with `m` added under the next fresh id. */
  function WithMessage(st: Store, m: Message): (r: Store)
    ensures r.messages.Keys == st.messages.Keys + {st.nextId} && r.messages[st.nextId] == m
    ensures forall k :: k in st.messages ==> k in r.messages && (k != st.nextId ==> r.messages[k] == st.messages[k])
    ensures r.nextId == st.nextId + 1
    ensures r.users == st.users && r.profiles == st.profiles && r.memberships == st.memberships
    ensures r.rooms == st.rooms && r.media == st.media
  {
    st.(messages := st.messages[st.nextId := m], nextId := st.nextId + 1)
  }

  /** A message whose room, author and reply target exist keeps every
      reference intact. */
  lemma WithMessageRefs(st: Store, m: Message)
    requires RefsIntact(st) && m.room in st.rooms && m.user in st.users
    requires m.replyTo.Some? ==> m.replyTo.value in st.messages
    ensures RefsIntact(WithMessage(st, m))
  {
  }

  lemma WithMessageValid(st: Store, m: Message)
    requires Valid(st) && m.room in st.rooms && m.user in st.users
    requires m.replyTo.Some? ==> m.replyTo.value in st.messages
    ensures Valid(WithMessage(st, m))
  {
    WithMessageRefs(st, m);
    KeysBelowAdd(st.messages, st.nextId, m);
  }

  /** Rewriting an existing message with a room, an author and a reply
      target that exist keeps every schema invariant. */
  lemma ReplaceMessageValid(st: Store, id: Id, m: Message)
    requires Valid(st) && id in st.messages && m.room in st.rooms && m.user in st.users
    requires m.replyTo.Some? ==> m.replyTo.value in st.messages
    ensures Valid(st.(messages := st.messages[id := m]))
  {
    ReplaceMessageRefs(st, id, m);
    KeysBelowReplace(st.messages, st.nextId, id, m);
  }

  lemma ReplaceMessageRefs(st: Store, id: Id, m: Message)
    requires RefsIntact(st) && id in st.messages && m.room in st.rooms && m.user in st.users
    requires m.replyTo.Some? ==> m.replyTo.value in st.messages
    ensures RefsIntact(st.(messages := st.messages[id := m]))
  {
    var ms := st.messages[id := m];
    assert ms.Keys == st.messages.Keys;
    forall k | k in st.media && st.media[k].message.Some? ensures st.media[k].message.value in ms {
    }
    forall k | k in ms && ms[k].replyTo.Some? ensures ms[k].replyTo.value in ms {
    }
  }

  /** Rewriting a row under an existing key keeps every key below the
      counter. */
  lemma KeysBelowReplace<T>(rows: map<Id, T>, n: nat, k: Id, v: T)
    requires KeysBelow(rows, n) && k in rows
    ensures KeysBelow(rows[k := v], n)
  {
  }

  /** A row added under the next id keeps every key below the advanced
      counter. */
  lemma KeysBelowAdd<T>(rows: map<Id, T>, n: nat, v: T)
    requires 0 < n && KeysBelow(rows, n)
    ensures KeysBelow(rows[n := v], n + 1)
  {
  }

  // ---------------------------------------------------------------------
  // Delete rules

  /** A media row attached to one of the messages `gone`. */
  predicate AttachedTo(f: MessageMedia, gone: set<Id>) {
    f.message.Some? && f.message.value in gone
  }

  /** A reply to one of `gone` loses its `reply_to` (SET_NULL). */
  function Unlinked(m: Message, gone: set<Id>): (r: Message)
    ensures r.room == m.room && r.user == m.user && r.content == m.content && r.timestamp == m.timestamp
    ensures r.replyTo == if m.replyTo.Some? && m.replyTo.value in gone then None else m.replyTo
  {
    if m.replyTo.Some? && m.replyTo.value in gone then m.(replyTo := None) else m
  }

  /** Deleting the messages `gone`: their media rows go with them (CASCADE),
      replies to them stay, with `reply_to` emptied (SET_NULL). */
  function DeleteMessages(st: Store, gone: set<Id>): (r: Store)
    ensures r.messages.Keys == st.messages.Keys - gone
    ensures forall k :: k in r.messages ==> r.messages[k] == Unlinked(st.messages[k], gone)
    ensures forall f :: f in st.media ==> (f in r.media <==> !AttachedTo(st.media[f], gone))
    ensures forall f :: f in r.media ==> f in st.media && r.media[f] == st.media[f]
    ensures r == st.(messages := r.messages, media := r.media)
  {
    st.(messages := map k | k in st.messages && k !in gone :: Unlinked(st.messages[k], gone),
        media := map f | f in st.media && !AttachedTo(st.media[f], gone) :: st.media[f])
  }

  lemma DeleteMessagesValid(st: Store, gone: set<Id>)
    requires Valid(st)
    ensures Valid(DeleteMessages(st, gone))
  {
    var r := DeleteMessages(st, gone);
    assert RefsIntact(r);
  }

  /** Deleting one message. */
  function DeleteMessage(st: Store, m: Id): (r: Store)
    ensures m !in r.messages
    ensures forall k :: k in st.messages && k != m ==> k in r.messages
    ensures forall k :: k in r.messages ==>
      (k in st.messages && r.messages[k].replyTo == (if st.messages[k].replyTo == Some(m) then None else st.messages[k].replyTo))
    ensures forall f :: f in st.media ==> (f in r.media <==> st.media[f].message != Some(m))
    ensures r.users == st.users && r.rooms == st.rooms && r.memberships == st.memberships
  {
    DeleteMessages(st, {m})
  }

  lemma DeleteMessageValid(st: Store, m: Id)
    requires Valid(st)
    ensures Valid(DeleteMessage(st, m))
  {
    DeleteMessagesValid(st, {m});
  }

  function RoomMessageIds(st: Store, room: Id): (ids: set<Id>)
    ensures ids <= st.messages.Keys
    ensures forall k :: k in st.messages ==> (k in ids <==> st.messages[k].room == room)
  {
    set k | k in st.messages && st.messages[k].room == room
  }

  /** Deleting a room deletes its messages (with their media) and its
      memberships; replies from other rooms to deleted messages lose their
      `reply_to`. */
  function DeleteRoom(st: Store, room: Id): (r: Store)
    ensures r.rooms == st.rooms - {room}
    ensures forall k :: k in r.memberships <==> k in st.memberships && st.memberships[k].room != room
    ensures forall k :: k in r.memberships ==> r.memberships[k] == st.memberships[k]
    ensures forall k :: k in r.messages <==> k in st.messages && st.messages[k].room != room
    ensures forall k :: k in r.messages ==> r.messages[k] == Unlinked(st.messages[k], RoomMessageIds(st, room))
    ensures forall f :: f in st.media ==> (f in r.media <==> !AttachedTo(st.media[f], RoomMessageIds(st, room)))
    ensures forall f :: f in r.media ==> f in st.media && r.media[f] == st.media[f]
    ensures r.users == st.users && r.profiles == st.profiles && r.nextId == st.nextId
  {
    var s := DeleteMessages(st, RoomMessageIds(st, room));
    s.(rooms := st.rooms - {room},
       memberships := map k | k in st.memberships && st.memberships[k].room != room :: st.memberships[k])
  }

  lemma DeleteRoomRefs(st: Store, room: Id)
    requires RefsIntact(st)
    ensures RefsIntact(DeleteRoom(st, room))
  {
    var gone := RoomMessageIds(st, room);
    var r := DeleteRoom(st, room);
    assert r.messages == DeleteMessages(st, gone).messages;
    assert r.media == DeleteMessages(st, gone).media;
    forall k | k in r.messages
      ensures r.messages[k].room in r.rooms && r.messages[k].user in r.users
      ensures r.messages[k].replyTo.Some? ==> r.messages[k].replyTo.value in r.messages
    {
      assert r.messages[k] == Unlinked(st.messages[k], gone);
    }
    forall f | f in r.media
      ensures r.media[f].message.Some? ==> r.media[f].message.value in r.messages
    {
      assert !AttachedTo(st.media[f], gone);
    }
  }

  lemma DeleteRoomValid(st: Store, room: Id)
    requires Valid(st)
    ensures Valid(DeleteRoom(st, room))
  {
    var r := DeleteRoom(st, room);
    DeleteRoomRefs(st, room);
    assert KeysFresh(r);
    assert UniqueMemberships(r.memberships);
    assert UniqueRoomNames(r.rooms);
  }

  /** The owner field of a room after `user` is deleted (SET_NULL). */
  function Disowned(c: ChatRoom, user: Id): (r: ChatRoom)
    ensures r.name == c.name && r.isPrivate == c.isPrivate
    ensures r.owner == if c.owner == Some(user) then None else c.owner
  {
    if c.owner == Some(user) then c.(owner := None) else c
  }

  function UserMessageIds(st: Store, user: Id): (ids: set<Id>)
    ensures ids <= st.messages.Keys
    ensures forall k :: k in st.messages ==> (k in ids <==> st.messages[k].user == user)
  {
    set k | k in st.messages && st.messages[k].user == user
  }

  /** Deleting a user deletes their profile, memberships and messages
      (CASCADE); rooms they own stay, without an owner (SET_NULL). */
  function DeleteUser(st: Store, user: Id): (r: Store)
    ensures r.users == st.users - {user} && r.profiles == st.profiles - {user}
    ensures forall k :: k in r.memberships <==> k in st.memberships && st.memberships[k].user != user
    ensures forall k :: k in r.memberships ==> r.memberships[k] == st.memberships[k]
    ensures forall k :: k in r.messages <==> k in st.messages && st.messages[k].user != user
    ensures forall k :: k in r.messages ==> r.messages[k] == Unlinked(st.messages[k], UserMessageIds(st, user))
    ensures forall f :: f in st.media ==> (f in r.media <==> !AttachedTo(st.media[f], UserMessageIds(st, user)))
    ensures forall f :: f in r.media ==> f in st.media && r.media[f] == st.media[f]
    ensures r.rooms.Keys == st.rooms.Keys
    ensures forall k :: k in r.rooms ==> r.rooms[k] == Disowned(st.rooms[k], user)
    ensures r.nextId == st.nextId
  {
    var s := DeleteMessages(st, UserMessageIds(st, user));
    s.(users := st.users - {user},
       profiles := st.profiles - {user},
       memberships := map k | k in st.memberships && st.memberships[k].user != user :: st.memberships[k],
       rooms := map k | k in st.rooms :: Disowned(st.rooms[k], user))
  }

  lemma DeleteUserRefs(st: Store, user: Id)
    requires RefsIntact(st)
    ensures RefsIntact(DeleteUser(st, user))
  {
    var gone := UserMessageIds(st, user);
    var r := DeleteUser(st, user);
    assert r.messages == DeleteMessages(st, gone).messages;
    assert r.media == DeleteMessages(st, gone).media;
    forall k | k in r.messages
      ensures r.messages[k].room in r.rooms && r.messages[k].user in r.users
      ensures r.messages[k].replyTo.Some? ==> r.messages[k].replyTo.value in r.messages
    {
      assert r.messages[k] == Unlinked(st.messages[k], gone);
    }
    forall f | f in r.media
      ensures r.media[f].message.Some? ==> r.media[f].message.value in r.messages
    {
      assert !AttachedTo(st.media[f], gone);
    }
  }

  lemma DeleteUserValid(st: Store, user: Id)
    requires Valid(st)
    ensures Valid(DeleteUser(st, user))
  {
    var r := DeleteUser(st, user);
    DeleteUserRefs(st, user);
    assert KeysFresh(r);
    assert UniqueMemberships(r.memberships);
    forall a, b | a in r.rooms && b in r.rooms && r.rooms[a].name == r.rooms[b].name
      ensures a == b
    {
      assert st.rooms[a].name == st.rooms[b].name;
    }
    assert UniqueUsernames(r.users);
  }

  // ---------------------------------------------------------------------
  // Ordering

  /** Messages are ordered by ascending timestamp; rows with equal timestamps
      are taken in key order. */
  predicate Earlier(msgs: map<Id, Message>, a: Id, b: Id)
    requires a in msgs && b in msgs
  {
    msgs[a].timestamp < msgs[b].timestamp || (msgs[a].timestamp == msgs[b].timestamp && a < b)
  }

  predicate IsEarliest(msgs: map<Id, Message>, ids: set<Id>, m: Id)
    requires ids <= msgs.Keys
  {
    m in ids && forall j :: j in ids && j != m ==> Earlier(msgs, m, j)
  }

  /** Every non-empty set of messages has an earliest one. */
  lemma {:induction false} EarliestExists(msgs: map<Id, Message>, ids: set<Id>)
    requires ids <= msgs.Keys && ids != {}
    ensures exists m :: IsEarliest(msgs, ids, m)
    decreases |ids|
  {
    var x :| x in ids;
    if ids == {x} {
      assert IsEarliest(msgs, ids, x);
    } else {
      var rest := ids - {x};
      EarliestExists(msgs, rest);
      var m :| IsEarliest(msgs, rest, m);
      if Earlier(msgs, m, x) {
        assert IsEarliest(msgs, ids, m);
      } else {
        forall j | j in ids && j != x
          ensures Earlier(msgs, x, j)
        {
          if j != m {
            assert Earlier(msgs, m, j);
          }
        }
        assert IsEarliest(msgs, ids, x);
      }
    }
  }

  /** The messages `ids` in the model's ordering. */
  function Ordered(msgs: map<Id, Message>, ids: set<Id>): (r: seq<Id>)
    requires ids <= msgs.Keys
    ensures |r| == |ids|
    ensures forall i :: 0 <= i < |r| ==> r[i] in ids
    ensures forall k :: k in ids ==> k in r
    ensures forall i, j :: 0 <= i < j < |r| ==> Earlier(msgs, r[i], r[j])
    decreases |ids|
  {
    if ids == {} then []
    else
      EarliestExists(msgs, ids);
      var m :| m in ids && IsEarliest(msgs, ids, m);
      [m] + Ordered(msgs, ids - {m})
  }

  /** `room.messages.last()`: the latest message of the room, if any. */
  function LastMessage(st: Store, room: Id): (r: Option<Id>)
    ensures r.None? <==> RoomMessageIds(st, room) == {}
    ensures r.Some? ==> r.value in st.messages && st.messages[r.value].room == room
    ensures r.Some? ==> forall k :: k in st.messages && st.messages[k].room == room && k != r.value ==>
      Earlier(st.messages, k, r.value)
  {
    var o := Ordered(st.messages, RoomMessageIds(st, room));
    if o == [] then None
    else
      assert forall k :: k in RoomMessageIds(st, room) && k != o[|o| - 1] ==>
        exists i :: 0 <= i < |o| - 1 && o[i] == k;
      Some(o[|o| - 1])
  }

  // ---------------------------------------------------------------------
  // Requests and the shared database

  /** `request.user` / `scope["user"]`: an anonymous visitor or a logged-in
      user, named by key. */
  datatype Requester = Anonymous | Authenticated(id: Id)

  /** The database the views and consumers share; every operation that
      writes rows replaces `store`. */
  class Database {
    var store: Store

    constructor(initial: Store)
      ensures store == initial
    {
      store := initial;
    }
  }
}
