/** The client's chat state and the reducer every server event and user
    action goes through (`chatReducer`), with the choice of request made when
    a reaction is toggled. */
module ChatReducer {
  import opened Common

  datatype ClientUser = ClientUser(id: int, username: string, isAdmin: bool)

  datatype Reaction = Reaction(id: int, user: ClientUser, emoji: string, message: int)

  datatype ClientMessage = ClientMessage(id: int, room: int, user: ClientUser, content: string,
                                         timestamp: string, reactions: seq<Reaction>)

  /** The preview a room shows in the sidebar. */
  datatype LastMessageSummary = LastMessageSummary(username: string, message: string, timestamp: string)

  datatype ClientRoom = ClientRoom(id: int, name: string, owner: Option<string>,
                                   lastMessage: Option<LastMessageSummary>, unreadCount: int)

  datatype ConnectionStatus = Connecting | Connected | Disconnected | ConnectionError

  datatype ChatState = ChatState(
    user: Option<ClientUser>,
    rooms: seq<ClientRoom>,
    currentRoom: Option<ClientRoom>,
    messages: seq<ClientMessage>,
    hasMoreMessages: bool,
    nextMessagesUrl: Option<string>,
    messagesLoading: bool,
    connectionStatus: ConnectionStatus,
    searchTerm: string,
    highlightedMessageId: Option<int>,
    typingUsers: map<int, seq<string>>)

  /** The summary a deletion event carries for the room's new last message. */
  datatype DeletedSummary = DeletedSummary(username: string, content: string, timestamp: string, room: int)

  datatype ChatAction =
    | RegistrationStart
    | LoginStart
    | RegistrationSuccess(user: ClientUser)
    | SetUser(user: ClientUser)
    | Logout
    | SelectRoom(room: ClientRoom)
    | SetInitialMessages(page: seq<ClientMessage>, next: Option<string>, hasMore: bool)
    | PrependMessages(page: seq<ClientMessage>, next: Option<string>, hasMore: bool)
    | AddRoom(room: ClientRoom)
    | SetRooms(rooms: seq<ClientRoom>)
    | UpdateRoom(room: ClientRoom)
    | ResetUnreadCount(roomId: int)
    | SetConnectionStatus(status: ConnectionStatus)
    | SetSearchTerm(term: string)
    | SetHighlightedMessage(highlighted: Option<int>)
    | SetMessagesLoading(loading: bool)
    | SendMessage(message: ClientMessage)
    | DeleteMessage(messageId: int, roomId: int, lastMessage: Option<DeletedSummary>)
    | EditMessage(message: ClientMessage)
    | AddMessageReaction(reaction: Reaction)
    | DeleteMessageReaction(target: ClientMessage, reactionId: int)
    | SetTypingStatus(roomId: int, typist: string, isTyping: bool)
    | Error

  const InitialState := ChatState(None, [], None, [], true, None, false, Connected, "", None, map[])

  /** `currentRoom?.id === room`. */
  predicate IsCurrent(s: ChatState, room: int) {
    s.currentRoom.Some? && s.currentRoom.value.id == room
  }

  function SummaryOf(m: ClientMessage): LastMessageSummary {
    LastMessageSummary(m.user.username, m.content, m.timestamp)
  }

  predicate HasRoom(rooms: seq<ClientRoom>, id: int) {
    exists i :: 0 <= i < |rooms| && rooms[i].id == id
  }

  /** Opening a room starts it with an empty message list and no next page. */
  function ReduceSelectRoom(s: ChatState, room: ClientRoom): (r: ChatState)
    ensures r.currentRoom == Some(room) && r.messages == [] && r.nextMessagesUrl.None? && !r.hasMoreMessages
    ensures r.rooms == s.rooms && r.user == s.user && r.typingUsers == s.typingUsers
  {
    s.(currentRoom := Some(room), messages := [], nextMessagesUrl := None, hasMoreMessages := false)
  }

  /** A room already listed (by id) leaves the state as it is; a new one is
      appended at the end. */
  function ReduceAddRoom(s: ChatState, room: ClientRoom): (r: ChatState)
    ensures HasRoom(s.rooms, room.id) ==> r == s
    ensures !HasRoom(s.rooms, room.id) ==> r == s.(rooms := s.rooms + [room])
    ensures HasRoom(r.rooms, room.id)
  {
    if HasRoom(s.rooms, room.id) then s
    else
      var rooms := s.rooms + [room];
      assert rooms[|s.rooms|].id == room.id;
      s.(rooms := rooms)
  }

  lemma AddRoomIdempotent(s: ChatState, room: ClientRoom)
    ensures ReduceAddRoom(ReduceAddRoom(s, room), room) == ReduceAddRoom(s, room)
  {
  }

  /** A new message updates its room's preview, counts as unread unless the
      room is open, and joins the message list only when the room is open. */
  function ReduceSendMessage(s: ChatState, m: ClientMessage): (r: ChatState)
    ensures |r.rooms| == |s.rooms|
    ensures forall i :: 0 <= i < |s.rooms| && s.rooms[i].id != m.room ==> r.rooms[i] == s.rooms[i]
    ensures forall i :: 0 <= i < |s.rooms| && s.rooms[i].id == m.room ==>
      r.rooms[i].id == m.room && r.rooms[i].lastMessage == Some(SummaryOf(m))
      && r.rooms[i].unreadCount == s.rooms[i].unreadCount + (if IsCurrent(s, m.room) then 0 else 1)
      && r.rooms[i].name == s.rooms[i].name && r.rooms[i].owner == s.rooms[i].owner
    ensures IsCurrent(s, m.room) ==> r.messages == s.messages + [m]
    ensures !IsCurrent(s, m.room) ==> r.messages == s.messages
    ensures r == s.(rooms := r.rooms, messages := r.messages)
  {
    var rooms := Map(s.rooms, (room: ClientRoom) =>
      if room.id == m.room then
        room.(lastMessage := Some(SummaryOf(m)),
              unreadCount := if IsCurrent(s, m.room) then room.unreadCount else room.unreadCount + 1)
      else room);
    s.(rooms := rooms, messages := if IsCurrent(s, m.room) then s.messages + [m] else s.messages)
  }

  /** The message list with every message of id `id` removed. */
  function WithoutMessage(ms: seq<ClientMessage>, id: int): (r: seq<ClientMessage>)
    ensures forall i :: 0 <= i < |r| ==> r[i].id != id
    ensures forall i :: 0 <= i < |ms| && ms[i].id != id ==> ms[i] in r
    ensures SubsequenceOf(r, ms)
    ensures (forall i :: 0 <= i < |ms| ==> ms[i].id != id) ==> r == ms
    ensures forall x :: multiset(r)[x] == if x.id != id then multiset(ms)[x] else 0
  {
    var keep := (m: ClientMessage) => m.id != id;
    FilterCounts(ms, keep);
    Filter(ms, keep)
  }

  /** A deletion removes the message from the list and gives its room the
      summary the event carries, or none; the unread count goes down by one
      only when a summary is given. */
  function ReduceDeleteMessage(s: ChatState, messageId: int, roomId: int, last: Option<DeletedSummary>): (r: ChatState)
    ensures r.messages == WithoutMessage(s.messages, messageId)
    ensures |r.rooms| == |s.rooms|
    ensures forall i :: 0 <= i < |s.rooms| && s.rooms[i].id != roomId ==> r.rooms[i] == s.rooms[i]
    ensures forall i :: 0 <= i < |s.rooms| && s.rooms[i].id == roomId ==>
      r.rooms[i].id == roomId
      && (last.None? ==> r.rooms[i].lastMessage.None? && r.rooms[i].unreadCount == s.rooms[i].unreadCount)
      && (last.Some? ==> r.rooms[i].lastMessage == Some(LastMessageSummary(last.value.username, last.value.content, last.value.timestamp))
                         && r.rooms[i].unreadCount == s.rooms[i].unreadCount - 1)
    ensures r == s.(rooms := r.rooms, messages := r.messages)
  {
    var rooms := Map(s.rooms, (room: ClientRoom) =>
      if room.id == roomId then
        match last
        case None => room.(lastMessage := None)
        case Some(d) => room.(lastMessage := Some(LastMessageSummary(d.username, d.content, d.timestamp)),
                              unreadCount := room.unreadCount - 1)
      else room);
    s.(rooms := rooms, messages := WithoutMessage(s.messages, messageId))
  }

  /** Deleting a message just received in the open room, whose id was not
      listed before, gives back the earlier message list. */
  lemma SendThenDeleteRestoresMessages(s: ChatState, m: ClientMessage, last: Option<DeletedSummary>)
    requires IsCurrent(s, m.room)
    requires forall i :: 0 <= i < |s.messages| ==> s.messages[i].id != m.id
    ensures ReduceDeleteMessage(ReduceSendMessage(s, m), m.id, m.room, last).messages == s.messages
  {
    var ms := s.messages + [m];
    assert WithoutMessage(ms, m.id) == WithoutMessage(s.messages, m.id) + WithoutMessage([m], m.id) by {
      FilterConcat(s.messages, [m], (x: ClientMessage) => x.id != m.id);
    }
  }

  /** The first index whose message has id `id`, or -1. */
  function FindMessage(ms: seq<ClientMessage>, id: int): (i: int)
    ensures -1 <= i < |ms|
    ensures i == -1 <==> forall k :: 0 <= k < |ms| ==> ms[k].id != id
    ensures 0 <= i ==> ms[i].id == id && forall k :: 0 <= k < i ==> ms[k].id != id
  {
    FindIndex(ms, (m: ClientMessage) => m.id == id)
  }

  /** An edit replaces the first message with the same id; writing at index
      -1 sets no element, so an edit of an unlisted message leaves the list as
      it is. The room preview changes only when the index is the last one,
      which also holds for an unlisted message in an empty list. */
  function ReduceEditMessage(s: ChatState, m: ClientMessage): (r: ChatState)
    ensures var i := FindMessage(s.messages, m.id);
      (i == -1 ==> r.messages == s.messages)
      && (0 <= i ==> r.messages == s.messages[i := m])
      && (i == |s.messages| - 1 ==> r.rooms == Map(s.rooms, (room: ClientRoom) =>
             if room.id == m.room then room.(lastMessage := Some(SummaryOf(m))) else room))
      && (i != |s.messages| - 1 ==> r.rooms == s.rooms)
    ensures |r.messages| == |s.messages|
    ensures r == s.(rooms := r.rooms, messages := r.messages)
  {
    var i := FindMessage(s.messages, m.id);
    var messages := if 0 <= i then s.messages[i := m] else s.messages;
    var rooms := if i == |s.messages| - 1 then
      Map(s.rooms, (room: ClientRoom) => if room.id == m.room then room.(lastMessage := Some(SummaryOf(m))) else room)
      else s.rooms;
    s.(rooms := rooms, messages := messages)
  }

  /** An edit of a listed message changes that message only. */
  lemma EditReplacesOnlyTarget(s: ChatState, m: ClientMessage, k: int)
    requires 0 <= k < |s.messages| && s.messages[k].id == m.id
    ensures var r := ReduceEditMessage(s, m);
      m in r.messages && forall j :: 0 <= j < |s.messages| && s.messages[j].id != m.id ==> r.messages[j] == s.messages[j]
  {
    var i := FindMessage(s.messages, m.id);
    assert 0 <= i && ReduceEditMessage(s, m).messages[i] == m;
  }

  /** Opening a room clears its unread count; the open room's copy is
      cleared whatever its id. */
  function ReduceResetUnread(s: ChatState, roomId: int): (r: ChatState)
    ensures |r.rooms| == |s.rooms|
    ensures forall i :: 0 <= i < |s.rooms| ==>
      r.rooms[i] == (if s.rooms[i].id == roomId then s.rooms[i].(unreadCount := 0) else s.rooms[i])
    ensures r.currentRoom == (if s.currentRoom.Some? then Some(s.currentRoom.value.(unreadCount := 0)) else None)
    ensures r == s.(rooms := r.rooms, currentRoom := r.currentRoom)
  {
    s.(rooms := Map(s.rooms, (room: ClientRoom) => if room.id == roomId then room.(unreadCount := 0) else room),
       currentRoom := if s.currentRoom.Some? then Some(s.currentRoom.value.(unreadCount := 0)) else None)
  }

  /** An updated room replaces every listed room with its id, and the open
      room when it is the same one. */
  function ReduceUpdateRoom(s: ChatState, room: ClientRoom): (r: ChatState)
    ensures |r.rooms| == |s.rooms|
    ensures forall i :: 0 <= i < |s.rooms| ==> r.rooms[i] == (if s.rooms[i].id == room.id then room else s.rooms[i])
    ensures r.currentRoom == (if IsCurrent(s, room.id) then Some(room) else s.currentRoom)
    ensures r == s.(rooms := r.rooms, currentRoom := r.currentRoom)
  {
    s.(rooms := Map(s.rooms, (x: ClientRoom) => if x.id == room.id then room else x),
       currentRoom := if IsCurrent(s, room.id) then Some(room) else s.currentRoom)
  }

  /** `findIndex` over reactions: same user id and same emoji. */
  function FindReaction(rs: seq<Reaction>, userId: int, emoji: string): (i: int)
    ensures -1 <= i < |rs|
    ensures i == -1 <==> forall k :: 0 <= k < |rs| ==> !(rs[k].user.id == userId && rs[k].emoji == emoji)
    ensures 0 <= i ==> rs[i].user.id == userId && rs[i].emoji == emoji
    ensures 0 <= i ==> forall k :: 0 <= k < i ==> !(rs[k].user.id == userId && rs[k].emoji == emoji)
  {
    FindIndex(rs, (x: Reaction) => x.user.id == userId && x.emoji == emoji)
  }

  /** A reaction event toggles: the first reaction by the same user with the
      same emoji is removed, and without one the new reaction is appended. */
  function ToggleReaction(rs: seq<Reaction>, x: Reaction): (r: seq<Reaction>)
    ensures FindReaction(rs, x.user.id, x.emoji) == -1 ==> r == rs + [x]
    ensures var i := FindReaction(rs, x.user.id, x.emoji); 0 <= i ==> r == rs[..i] + rs[i + 1..]
  {
    var i := FindReaction(rs, x.user.id, x.emoji);
    if i == -1 then rs + [x] else rs[..i] + rs[i + 1..]
  }

  /** Receiving the same new reaction twice gives back the original list. */
  lemma ToggleTwiceRestores(rs: seq<Reaction>, x: Reaction)
    requires FindReaction(rs, x.user.id, x.emoji) == -1
    ensures ToggleReaction(ToggleReaction(rs, x), x) == rs
  {
    var t := rs + [x];
    var j := FindReaction(t, x.user.id, x.emoji);
    assert t[|rs|] == x;
    assert j == |rs| by {
      assert forall k :: 0 <= k < |rs| ==> t[k] == rs[k];
    }
    assert t[..j] == rs;
  }

  function ReduceAddReaction(s: ChatState, x: Reaction): (r: ChatState)
    ensures |r.messages| == |s.messages|
    ensures forall i :: 0 <= i < |s.messages| ==>
      r.messages[i] == (if s.messages[i].id == x.message
                        then s.messages[i].(reactions := ToggleReaction(s.messages[i].reactions, x))
                        else s.messages[i])
    ensures r == s.(messages := r.messages)
  {
    s.(messages := Map(s.messages, (m: ClientMessage) =>
      if m.id == x.message then m.(reactions := ToggleReaction(m.reactions, x)) else m))
  }

  /** A reaction event delivered twice, for a reaction the messages did not
      hold, leaves the messages as they were. */
  lemma AddReactionTwiceRestores(s: ChatState, x: Reaction)
    requires forall i :: 0 <= i < |s.messages| && s.messages[i].id == x.message ==>
      FindReaction(s.messages[i].reactions, x.user.id, x.emoji) == -1
    ensures ReduceAddReaction(ReduceAddReaction(s, x), x) == s
  {
    var r := ReduceAddReaction(ReduceAddReaction(s, x), x);
    forall i | 0 <= i < |s.messages|
      ensures r.messages[i] == s.messages[i]
    {
      if s.messages[i].id == x.message {
        ToggleTwiceRestores(s.messages[i].reactions, x);
      }
    }
  }

  /** `findIndex` over reaction ids. */
  function FindReactionId(rs: seq<Reaction>, id: int): (i: int)
    ensures -1 <= i < |rs|
    ensures i == -1 <==> forall k :: 0 <= k < |rs| ==> rs[k].id != id
    ensures 0 <= i ==> rs[i].id == id && forall k :: 0 <= k < i ==> rs[k].id != id
  {
    FindIndex(rs, (x: Reaction) => x.id == id)
  }

  /** `splice(findIndex(...), 1)`: the first reaction with the id goes; when
      there is none the index is -1 and `splice` removes the last reaction. */
  function RemoveReaction(rs: seq<Reaction>, id: int): (r: seq<Reaction>)
    ensures rs == [] ==> r == []
    ensures rs != [] ==> |r| == |rs| - 1
    ensures var i := FindReactionId(rs, id); 0 <= i ==> r == rs[..i] + rs[i + 1..]
    ensures FindReactionId(rs, id) == -1 && rs != [] ==> r == rs[..|rs| - 1]
  {
    var i := FindReactionId(rs, id);
    if i == -1 then (if rs == [] then [] else rs[..|rs| - 1]) else rs[..i] + rs[i + 1..]
  }

  /** Removing a reaction by the id of one just appended, whose id was new,
      gives back the list before the append. */
  lemma RemoveUndoesAppend(rs: seq<Reaction>, x: Reaction)
    requires FindReactionId(rs, x.id) == -1
    ensures RemoveReaction(rs + [x], x.id) == rs
  {
    var t := rs + [x];
    assert t[|rs|] == x;
    assert forall k :: 0 <= k < |rs| ==> t[k] == rs[k];
    assert FindReactionId(t, x.id) == |rs|;
    assert t[..|rs|] == rs;
  }

  function ReduceDeleteReaction(s: ChatState, target: int, reactionId: int): (r: ChatState)
    ensures |r.messages| == |s.messages|
    ensures forall i :: 0 <= i < |s.messages| ==>
      r.messages[i] == (if s.messages[i].id == target
                        then s.messages[i].(reactions := RemoveReaction(s.messages[i].reactions, reactionId))
                        else s.messages[i])
    ensures r == s.(messages := r.messages)
  {
    s.(messages := Map(s.messages, (m: ClientMessage) =>
      if m.id == target then m.(reactions := RemoveReaction(m.reactions, reactionId)) else m))
  }

  function TypingIn(s: ChatState, room: int): seq<string> {
    if room in s.typingUsers then s.typingUsers[room] else []
  }

  function NotUser(user: string): string -> bool {
    (u: string) => u != user
  }

  /** A stop notice's list: every occurrence of `user` goes, the rest stay
      in order. */
  function WithoutUser(us: seq<string>, user: string): (r: seq<string>)
    ensures user !in r && SubsequenceOf(r, us)
    ensures forall i :: 0 <= i < |us| && us[i] != user ==> us[i] in r
    ensures forall u :: multiset(r)[u] == if u != user then multiset(us)[u] else 0
  {
    FilterCounts(us, NotUser(user));
    Filter(us, NotUser(user))
  }

  /** A typing notice adds the user to the room's list once; a stop notice
      removes every occurrence. Other rooms' lists stay as they are. */
  function ReduceTyping(s: ChatState, room: int, user: string, isTyping: bool): (r: ChatState)
    ensures room in r.typingUsers && r.typingUsers.Keys == s.typingUsers.Keys + {room}
    ensures forall k :: k in s.typingUsers && k != room ==> r.typingUsers[k] == s.typingUsers[k]
    ensures isTyping ==> (user in r.typingUsers[room]
      && (user in TypingIn(s, room) ==> r.typingUsers[room] == TypingIn(s, room))
      && (user !in TypingIn(s, room) ==> r.typingUsers[room] == TypingIn(s, room) + [user]))
    ensures !isTyping ==> (user !in r.typingUsers[room] && SubsequenceOf(r.typingUsers[room], TypingIn(s, room))
      && forall i :: 0 <= i < |TypingIn(s, room)| && TypingIn(s, room)[i] != user ==> TypingIn(s, room)[i] in r.typingUsers[room])
    ensures !isTyping ==> forall u :: multiset(r.typingUsers[room])[u] == if u != user then multiset(TypingIn(s, room))[u] else 0
    ensures r == s.(typingUsers := r.typingUsers)
  {
    var current := TypingIn(s, room);
    var next := if isTyping then (if user in current then current else current + [user])
                else WithoutUser(current, user);
    s.(typingUsers := s.typingUsers[room := next])
  }

  /** Typing and then stopping leaves a room's list as it was for a user
      who was not in it. */
  lemma TypingThenStopRestores(s: ChatState, room: int, user: string)
    requires user !in TypingIn(s, room)
    ensures TypingIn(ReduceTyping(ReduceTyping(s, room, user, true), room, user, false), room) == TypingIn(s, room)
  {
    var cur := TypingIn(s, room);
    FilterConcat(cur, [user], NotUser(user));
    assert Filter([user], NotUser(user)) == [];
  }

  /** The first page is stored oldest first; an earlier page goes in front. */
  function ReduceInitialMessages(s: ChatState, page: seq<ClientMessage>, next: Option<string>, hasMore: bool): (r: ChatState)
    ensures r.messages == Reverse(page) && r.nextMessagesUrl == next && r.hasMoreMessages == hasMore
    ensures r == s.(messages := r.messages, nextMessagesUrl := next, hasMoreMessages := hasMore)
  {
    s.(messages := Reverse(page), nextMessagesUrl := next, hasMoreMessages := hasMore)
  }

  function ReducePrependMessages(s: ChatState, page: seq<ClientMessage>, next: Option<string>, hasMore: bool): (r: ChatState)
    ensures r.messages == Reverse(page) + s.messages && r.nextMessagesUrl == next && r.hasMoreMessages == hasMore
    ensures r == s.(messages := r.messages, nextMessagesUrl := next, hasMoreMessages := hasMore)
  {
    s.(messages := Reverse(page) + s.messages, nextMessagesUrl := next, hasMoreMessages := hasMore)
  }

  /** Loading a first page and then an older page lists them as the reversed
      concatenation of the pages as the server sent them. */
  lemma PagesAccumulate(s: ChatState, p1: seq<ClientMessage>, p2: seq<ClientMessage>, n1: Option<string>, n2: Option<string>, h1: bool, h2: bool)
    ensures ReducePrependMessages(ReduceInitialMessages(s, p1, n1, h1), p2, n2, h2).messages == Reverse(p1 + p2)
  {
    ReverseConcat(p1, p2);
  }

  /** `chatReducer`. */
  function Reduce(s: ChatState, a: ChatAction): (r: ChatState)
    ensures a.Logout? || a.Error? ==> r == InitialState
    ensures a.RegistrationStart? || a.LoginStart? ==> r == s
  {
    match a
    case RegistrationStart => s
    case LoginStart => s
    case RegistrationSuccess(u) => s.(user := Some(u))
    case SetUser(u) => s.(user := Some(u))
    case Logout => InitialState
    case Error => InitialState
    case SelectRoom(room) => ReduceSelectRoom(s, room)
    case SetRooms(rooms) => s.(rooms := rooms)
    case AddRoom(room) => ReduceAddRoom(s, room)
    case EditMessage(m) => ReduceEditMessage(s, m)
    case SendMessage(m) => ReduceSendMessage(s, m)
    case ResetUnreadCount(id) => ReduceResetUnread(s, id)
    case SetInitialMessages(p, n, h) => ReduceInitialMessages(s, p, n, h)
    case PrependMessages(p, n, h) => ReducePrependMessages(s, p, n, h)
    case SetConnectionStatus(c) => s.(connectionStatus := c)
    case SetSearchTerm(t) => s.(searchTerm := t)
    case SetHighlightedMessage(id) => s.(highlightedMessageId := id)
    case SetMessagesLoading(b) => s.(messagesLoading := b)
    case UpdateRoom(room) => ReduceUpdateRoom(s, room)
    case DeleteMessage(id, room, last) => ReduceDeleteMessage(s, id, room, last)
    case AddMessageReaction(x) => ReduceAddReaction(s, x)
    case DeleteMessageReaction(m, rid) => ReduceDeleteReaction(s, m.id, rid)
    case SetTypingStatus(room, u, t) => ReduceTyping(s, room, u, t)
  }

  /** Only the sign-in actions and the resets change who is signed in, and
      only typing notices and the resets change the typing lists. */
  lemma ReduceFrames(s: ChatState, a: ChatAction)
    ensures !(a.RegistrationSuccess? || a.SetUser? || a.Logout? || a.Error?) ==> Reduce(s, a).user == s.user
    ensures !(a.SetTypingStatus? || a.Logout? || a.Error?) ==> Reduce(s, a).typingUsers == s.typingUsers
  {
  }

  /** The request `handleToggleMessageReaction` makes for the user's existing
      reaction (if any) and the emoji clicked. */
  datatype ReactionRequest = UpdateReaction(reactionId: int, emoji: string) | RemoveMyReaction(reactionId: int) | AddNewReaction(emoji: string)

  function ToggleRequest(existing: Option<Reaction>, emoji: string): (q: ReactionRequest)
    ensures existing.None? <==> q.AddNewReaction?
    ensures q.AddNewReaction? ==> q.emoji == emoji
    ensures (existing.Some? && existing.value.emoji == emoji) <==> q.RemoveMyReaction?
    ensures q.RemoveMyReaction? ==> existing.Some? && q.reactionId == existing.value.id
    ensures existing.Some? && existing.value.emoji != emoji ==> q == UpdateReaction(existing.value.id, emoji)
  {
    match existing
    case None => AddNewReaction(emoji)
    case Some(x) => if x.emoji != emoji then UpdateReaction(x.id, emoji) else RemoveMyReaction(x.id)
  }
}
