/** The websocket consumer: on connect it subscribes the connection's channel
    to the group of every room, on disconnect it unsubscribes it again, and on
    receipt of a frame it stores the message and broadcasts it to the room's
    group once. */
module Consumers {
  import opened Common
  import opened ChatModels
  import opened ChannelLayers

  /** `f"chat_{room_id}"`. */
  function GroupName(room: Id): (g: string)
    ensures |g| > 5 && g[..5] == "chat_"
  {
    "chat_" + NatToString(room)
  }

  /** Two rooms never share a group. */
  lemma GroupNameInjective(a: Id, b: Id)
    requires GroupName(a) == GroupName(b)
    ensures a == b
  {
    assert NatToString(a) == GroupName(a)[5..] == GroupName(b)[5..] == NatToString(b);
    NatToStringInjective(a, b);
  }

  function GroupNames(rooms: set<Id>): (names: set<string>)
    ensures forall r :: r in rooms ==> GroupName(r) in names
  {
    set r | r in rooms :: GroupName(r)
  }

  lemma GroupNamesAdd(rooms: set<Id>, r: Id)
    ensures GroupNames(rooms + {r}) == GroupNames(rooms) + {GroupName(r)}
  {
  }

  /** `get_user_chat_rooms`: as written it returns every room, whether or not
      the user is a member. */
  function UserChatRooms(st: Store, user: Requester): (rooms: set<Id>)
    ensures forall r :: r in rooms <==> r in st.rooms
  {
    st.rooms.Keys
  }

  /** Even a private room the user does not belong to is among the rooms whose
      group the user's channel joins. */
  lemma UserChatRoomsIgnoreMembership(st: Store, user: Id, room: Id)
    requires room in st.rooms && st.rooms[room].isPrivate && !IsMember(st, user, room)
    ensures GroupName(room) in GroupNames(UserChatRooms(st, Authenticated(user)))
  {
  }

  /** A `reply_to_id` the code acts on: present and not zero. */
  predicate Truthy(v: Option<nat>) {
    v.Some? && v.value != 0
  }

  /** `save_message`: stores a message from `user` in `room`, replying to
      `replyTo` when that is truthy. A missing room, or a reply target that is
      not a message of the same room, stores nothing and gives None. Neither
      membership nor content is checked. */
  function SaveMessage(st: Store, user: Id, room: Id, content: string, replyTo: Option<nat>, now: int)
    : (r: (Store, Option<Id>))
    ensures r.1.None? <==>
      room !in st.rooms
      || (Truthy(replyTo) && !(replyTo.value in st.messages && st.messages[replyTo.value].room == room))
    ensures r.1.None? ==> r.0 == st
    ensures r.1.Some? ==>
      r.1.value == st.nextId
      && r.0 == WithMessage(st, Message(room, user, content, now, if Truthy(replyTo) then replyTo else None))
  {
    if room !in st.rooms then (st, None)
    else if Truthy(replyTo) && !(replyTo.value in st.messages && st.messages[replyTo.value].room == room) then
      (st, None)
    else
      (WithMessage(st, Message(room, user, content, now, if Truthy(replyTo) then replyTo else None)), Some(st.nextId))
  }

  lemma SaveMessageValid(st: Store, user: Id, room: Id, content: string, replyTo: Option<nat>, now: int)
    requires Valid(st) && user in st.users
    ensures Valid(SaveMessage(st, user, room, content, replyTo, now).0)
  {
    var (r, saved) := SaveMessage(st, user, room, content, replyTo, now);
    if saved.Some? {
      WithMessageValid(st, Message(room, user, content, now, if Truthy(replyTo) then replyTo else None));
    }
  }

  /** The membership check is missing: any user can post to any existing
      room, private or not. */
  lemma SaveMessageIgnoresMembership(st: Store, user: Id, room: Id, content: string, now: int)
    requires room in st.rooms && !IsMember(st, user, room)
    ensures SaveMessage(st, user, room, content, None, now).1.Some?
  {
  }

  /** `check_room_access`: a missing room is refused, a public room is open to
      everyone, a private room only to its members. */
  function CheckRoomAccess(st: Store, user: Id, room: Id): (ok: bool)
    ensures room !in st.rooms ==> !ok
    ensures room in st.rooms && !st.rooms[room].isPrivate ==> ok
    ensures room in st.rooms && st.rooms[room].isPrivate ==> (ok <==> IsMember(st, user, room))
  {
    if room !in st.rooms then false
    else if st.rooms[room].isPrivate then IsMember(st, user, room)
    else true
  }

  /** The fields `receive` reads from a frame: `message`, `room_id` and the
      optional `reply_to_id`. */
  datatype Frame = Frame(message: string, roomId: Id, replyToId: Option<nat>)

  const ChatMessageEvent := "chat.message"

  lemma JoinStep(gs: Groups, done: set<Id>, r: Id, ch: string)
    ensures Added(Subscribed(gs, GroupNames(done), ch), GroupName(r), ch) == Subscribed(gs, GroupNames(done + {r}), ch)
  {
    SubscribeStep(gs, GroupNames(done), GroupName(r), ch);
    GroupNamesAdd(done, r);
  }

  lemma LeaveStep(gs: Groups, done: set<Id>, r: Id, ch: string)
    ensures Discarded(Unsubscribed(gs, GroupNames(done), ch), GroupName(r), ch) == Unsubscribed(gs, GroupNames(done + {r}), ch)
  {
    UnsubscribeStep(gs, GroupNames(done), GroupName(r), ch);
    GroupNamesAdd(done, r);
  }

  /** The loop of `connect`: one `group_add` per room. */
  method JoinAll(layer: Layer, rooms: set<Id>, ch: string)
    modifies layer
    ensures layer.groups == Subscribed(old(layer.groups), GroupNames(rooms), ch)
    ensures layer.sent == old(layer.sent)
  {
    var todo := rooms;
    ghost var done: set<Id> := {};
    assert GroupNames(done) == {};
    SubscribedNothing(layer.groups, ch);
    while todo != {}
      invariant todo + done == rooms && todo !! done
      invariant layer.groups == Subscribed(old(layer.groups), GroupNames(done), ch)
      invariant layer.sent == old(layer.sent)
      decreases todo
    {
      var r :| r in todo;
      layer.GroupAdd(GroupName(r), ch);
      JoinStep(old(layer.groups), done, r, ch);
      todo := todo - {r};
      done := done + {r};
    }
  }

  /** The loop of `disconnect`: one `group_discard` per room. */
  method LeaveAll(layer: Layer, rooms: set<Id>, ch: string)
    modifies layer
    ensures layer.groups == Unsubscribed(old(layer.groups), GroupNames(rooms), ch)
    ensures layer.sent == old(layer.sent)
  {
    var todo := rooms;
    ghost var done: set<Id> := {};
    while todo != {}
      invariant todo + done == rooms && todo !! done
      invariant layer.groups == Unsubscribed(old(layer.groups), GroupNames(done), ch)
      invariant layer.sent == old(layer.sent)
      decreases todo
    {
      var r :| r in todo;
      layer.GroupDiscard(GroupName(r), ch);
      LeaveStep(old(layer.groups), done, r, ch);
      todo := todo - {r};
      done := done + {r};
    }
  }

  class UserChatConsumer {
    const channelName: string
    const layer: Layer
    const db: Database
    var user: Requester
    var accepted: bool
    var closed: bool

    constructor(channelName: string, layer: Layer, db: Database)
      ensures this.channelName == channelName && this.layer == layer && this.db == db
      ensures user == Anonymous && !accepted && !closed
    {
      this.channelName := channelName;
      this.layer := layer;
      this.db := db;
      user := Anonymous;
      accepted := false;
      closed := false;
    }

    /** `connect`: an anonymous connection is closed and joins nothing; an
        authenticated one is accepted and joins the group of every room. */
    method Connect(scopeUser: Requester)
      modifies this, layer
      ensures user == scopeUser && layer.sent == old(layer.sent)
      ensures scopeUser.Anonymous? ==>
        closed && accepted == old(accepted) && layer.groups == old(layer.groups)
      ensures scopeUser.Authenticated? ==>
        accepted && closed == old(closed)
        && layer.groups == Subscribed(old(layer.groups), GroupNames(UserChatRooms(db.store, scopeUser)), channelName)
    {
      user := scopeUser;
      if user.Anonymous? {
        closed := true;
        return;
      }
      accepted := true;
      JoinAll(layer, UserChatRooms(db.store, user), channelName);
    }

    /** `disconnect`: the channel leaves the group of every room. */
    method Disconnect()
      modifies layer
      ensures layer.sent == old(layer.sent)
      ensures layer.groups == Unsubscribed(old(layer.groups), GroupNames(UserChatRooms(db.store, user)), channelName)
    {
      LeaveAll(layer, UserChatRooms(db.store, user), channelName);
    }

    /** `receive`: nothing happens for an anonymous user; otherwise the
        message is saved, and only a saved message is sent, once, to its
        room's group. */
    method Receive(frame: Frame, now: int)
      requires user.Authenticated? ==> user.id in db.store.users
      modifies db, layer
      ensures layer.groups == old(layer.groups)
      ensures user.Anonymous? ==> db.store == old(db.store) && layer.sent == old(layer.sent)
      ensures user.Authenticated? ==>
        var (st, saved) := SaveMessage(old(db.store), user.id, frame.roomId, frame.message, frame.replyToId, now);
        db.store == st
        && layer.sent == old(layer.sent)
           + (if saved.Some? then [GroupEvent(GroupName(frame.roomId), ChatMessageEvent, saved.value)] else [])
    {
      if user.Anonymous? {
        return;
      }
      var (st, saved) := SaveMessage(db.store, user.id, frame.roomId, frame.message, frame.replyToId, now);
      db.store := st;
      if saved.None? {
        return;
      }
      layer.GroupSend(GroupName(frame.roomId), ChatMessageEvent, saved.value);
    }
  }

  /** A connection that connects and then disconnects, with no room created
      or deleted in between, leaves the layer's groups as they were. */
  method ConnectThenDisconnect(c: UserChatConsumer, scopeUser: Requester)
    requires NoEmptyGroup(c.layer.groups) && InNoGroup(c.layer.groups, c.channelName)
    modifies c, c.layer
    ensures c.layer.groups == old(c.layer.groups)
  {
    c.Connect(scopeUser);
    c.Disconnect();
    if scopeUser.Authenticated? {
      UnsubscribeUndoesSubscribe(old(c.layer.groups), GroupNames(UserChatRooms(c.db.store, scopeUser)), c.channelName);
    } else {
      UnsubscribeAbsent(old(c.layer.groups), GroupNames(UserChatRooms(c.db.store, scopeUser)), c.channelName);
    }
  }
}
