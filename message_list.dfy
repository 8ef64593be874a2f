/** The message list: how each message is placed in a run of messages by the
    same author on the same day, where the date and unread chips go, who may
    delete or edit a message, and which reaction a picked emoji toggles. */
module MessageList {
  import opened Common
  import opened ChatReducer

  datatype SequenceType = Single | First | Middle | Last

  /** Same author, same calendar day; `day` stands for `formatDate`. */
  predicate SameRun(a: ClientMessage, b: ClientMessage, day: string -> string) {
    a.user.id == b.user.id && day(a.timestamp) == day(b.timestamp)
  }

  predicate SameAsPrevious(ms: seq<ClientMessage>, i: int, day: string -> string)
    requires 0 <= i < |ms|
  {
    i > 0 && SameRun(ms[i - 1], ms[i], day)
  }

  predicate SameAsNext(ms: seq<ClientMessage>, i: int, day: string -> string)
    requires 0 <= i < |ms|
  {
    i < |ms| - 1 && SameRun(ms[i + 1], ms[i], day)
  }

  function SequenceTypeAt(ms: seq<ClientMessage>, i: int, day: string -> string): (t: SequenceType)
    requires 0 <= i < |ms|
    ensures t == Middle <==> SameAsPrevious(ms, i, day) && SameAsNext(ms, i, day)
    ensures t == Last <==> SameAsPrevious(ms, i, day) && !SameAsNext(ms, i, day)
    ensures t == First <==> !SameAsPrevious(ms, i, day) && SameAsNext(ms, i, day)
    ensures t == Single <==> !SameAsPrevious(ms, i, day) && !SameAsNext(ms, i, day)
  {
    if SameAsPrevious(ms, i, day) && SameAsNext(ms, i, day) then Middle
    else if SameAsPrevious(ms, i, day) then Last
    else if SameAsNext(ms, i, day) then First
    else Single
  }

  /** Runs are well formed: a message continues into the next one exactly
      when the next one continues from it. */
  lemma RunsChain(ms: seq<ClientMessage>, i: int, day: string -> string)
    requires 0 <= i < |ms| - 1
    ensures (SequenceTypeAt(ms, i, day) == First || SequenceTypeAt(ms, i, day) == Middle)
        <==> (SequenceTypeAt(ms, i + 1, day) == Middle || SequenceTypeAt(ms, i + 1, day) == Last)
  {
    assert SameAsNext(ms, i, day) == SameAsPrevious(ms, i + 1, day);
  }

  /** The date chip: on the first message and wherever the day changes. */
  function ShowDate(ms: seq<ClientMessage>, i: int, day: string -> string): (b: bool)
    requires 0 <= i < |ms|
    ensures i == 0 ==> b
    ensures 0 < i ==> (b <==> day(ms[i].timestamp) != day(ms[i - 1].timestamp))
  {
    i == 0 || day(ms[i].timestamp) != day(ms[i - 1].timestamp)
  }

  /** A date chip always opens a run: the message under it starts one or
      stands alone. */
  lemma DateChipOpensRun(ms: seq<ClientMessage>, i: int, day: string -> string)
    requires 0 <= i < |ms| && ShowDate(ms, i, day)
    ensures SequenceTypeAt(ms, i, day) == Single || SequenceTypeAt(ms, i, day) == First
  {
  }

  /** The unread chip goes above the message at `firstUnreadIndex` only. */
  function IsFirstUnread(firstUnreadIndex: Option<nat>, index: nat): (b: bool)
    ensures b <==> firstUnreadIndex == Some(index)
  {
    firstUnreadIndex.Some? && firstUnreadIndex.value == index
  }

  lemma AtMostOneUnreadChip(firstUnreadIndex: Option<nat>, i: nat, j: nat)
    requires IsFirstUnread(firstUnreadIndex, i) && IsFirstUnread(firstUnreadIndex, j)
    ensures i == j
  {
  }

  datatype Viewer = Viewer(id: int, isAdmin: bool, isSuperuser: bool)

  /** `canDeleteMessage`: the group's owner, an admin, a superuser or the
      author of the message the menu is open on. */
  function CanDeleteMessage(isGroupOwner: bool, v: Viewer, menu: Option<ClientMessage>): (b: bool)
    ensures b <==> isGroupOwner || v.isAdmin || v.isSuperuser || (menu.Some? && menu.value.user.id == v.id)
  {
    isGroupOwner || v.isAdmin || v.isSuperuser || (menu.Some? && v.id == menu.value.user.id)
  }

  /** The Edit item: superusers and the author. */
  function ShowEditItem(v: Viewer, menu: Option<ClientMessage>): (b: bool)
    ensures b <==> v.isSuperuser || (menu.Some? && menu.value.user.id == v.id)
  {
    v.isSuperuser || (menu.Some? && v.id == menu.value.user.id)
  }

  /** The Reactions item: only for a message that has reactions. */
  function ShowReactionsItem(menu: Option<ClientMessage>): (b: bool)
    ensures b <==> menu.Some? && menu.value.reactions != []
  {
    menu.Some? && |menu.value.reactions| > 0
  }

  /** Whoever may edit a message may also delete it. */
  lemma EditerCanDelete(isGroupOwner: bool, v: Viewer, menu: Option<ClientMessage>)
    ensures ShowEditItem(v, menu) ==> CanDeleteMessage(isGroupOwner, v, menu)
  {
  }

  /** The index of the viewer's first reaction, or -1. */
  function FindUserReaction(rs: seq<Reaction>, me: int): (i: int)
    ensures -1 <= i < |rs|
    ensures i == -1 <==> forall k :: 0 <= k < |rs| ==> rs[k].user.id != me
    ensures 0 <= i ==> rs[i].user.id == me && forall k :: 0 <= k < i ==> rs[k].user.id != me
  {
    FindIndex(rs, (x: Reaction) => x.user.id == me)
  }

  /** `reactions.find(r => r.user.id === me)`: the viewer's first reaction, of
      any emoji. */
  function UserReaction(rs: seq<Reaction>, me: int): (r: Option<Reaction>)
    ensures r.None? <==> forall i :: 0 <= i < |rs| ==> rs[i].user.id != me
    ensures r.Some? ==> r.value == rs[FindUserReaction(rs, me)] && r.value.user.id == me
  {
    var i := FindUserReaction(rs, me);
    if i == -1 then None else Some(rs[i])
  }

  /** `handleEmojiClick`: the picked emoji with the viewer's existing
      reaction. */
  function EmojiClickRequest(m: ClientMessage, emoji: string, me: int): ReactionRequest {
    ToggleRequest(UserReaction(m.reactions, me), emoji)
  }

  /** Through the picker a viewer who already reacted never adds a second
      reaction: picking the same emoji removes it, another one replaces it. */
  lemma PickerKeepsOneReaction(m: ClientMessage, emoji: string, me: int)
    ensures (exists i :: 0 <= i < |m.reactions| && m.reactions[i].user.id == me) ==> !EmojiClickRequest(m, emoji, me).AddNewReaction?
    ensures (forall i :: 0 <= i < |m.reactions| ==> m.reactions[i].user.id != me) ==> EmojiClickRequest(m, emoji, me) == AddNewReaction(emoji)
    ensures var r := UserReaction(m.reactions, me);
      r.Some? && r.value.emoji == emoji ==> EmojiClickRequest(m, emoji, me) == RemoveMyReaction(r.value.id)
  {
  }
}
