/** The chat pane: where the unread chip goes, the connection flag and the
    mode the room dialog opens in. */
module ChatArea {
  import opened Common
  import opened ChatReducer
  import opened DialogModes

  /** `firstUnreadIndex`: none without an open room or unread messages;
      otherwise the index of the oldest unread message, clamped at 0. */
  function FirstUnreadIndex(current: Option<ClientRoom>, messageCount: nat): (r: Option<nat>)
    ensures r.None? <==> current.None? || current.value.unreadCount <= 0
    ensures r.Some? ==> r.value == (if messageCount - current.value.unreadCount < 0 then 0 else messageCount - current.value.unreadCount)
  {
    if current.Some? && current.value.unreadCount > 0 then
      var i := messageCount - current.value.unreadCount;
      Some(if i < 0 then 0 else i)
    else None
  }

  /** Below the unread chip are exactly the unread messages, or all of them
      when fewer are loaded. */
  lemma UnreadChipMarksTail(current: Option<ClientRoom>, messageCount: nat)
    requires FirstUnreadIndex(current, messageCount).Some?
    ensures var i := FirstUnreadIndex(current, messageCount).value;
      i <= messageCount
      && messageCount - i == (if current.value.unreadCount < messageCount then current.value.unreadCount else messageCount)
  {
  }

  function IsConnected(status: ConnectionStatus): (b: bool)
    ensures b <==> status == Connected
  {
    status.Connected?
  }

  /** The room dialog opens for editing only for the room's owner. */
  function RoomDialogMode(room: ClientRoom, username: string): (m: DialogMode)
    ensures m == Edit <==> room.owner == Some(username)
    ensures m == Edit || m == View
  {
    if room.owner == Some(username) then Edit else View
  }
}
