/** The room list's search box and the "create room" modal. */
module Sidebar {
  import opened Common
  import opened ChatReducer

  /** The search test: the lower-cased name contains the lower-cased term. */
  predicate NameMatches(term: string, room: ClientRoom) {
    Contains(ToLower(room.name), ToLower(term))
  }

  function Matcher(term: string): ClientRoom -> bool {
    (room: ClientRoom) => NameMatches(term, room)
  }

  /** `filteredRooms`: the matching rooms, in the order of the room list,
      each as often as it is listed. */
  function FilteredRooms(rooms: seq<ClientRoom>, term: string): (r: seq<ClientRoom>)
    ensures SubsequenceOf(r, rooms)
    ensures forall i :: 0 <= i < |r| ==> r[i] in rooms && NameMatches(term, r[i])
    ensures forall i :: 0 <= i < |rooms| && NameMatches(term, rooms[i]) ==> rooms[i] in r
    ensures forall x :: multiset(r)[x] == if NameMatches(term, x) then multiset(rooms)[x] else 0
  {
    FilterCounts(rooms, Matcher(term));
    Filter(rooms, Matcher(term))
  }

  /** Every string contains the empty one. */
  lemma ContainsEmpty(s: string)
    ensures Contains(s, "")
  {
    assert OccursAt(s, "", 0);
  }

  /** An empty search shows the room list unchanged. */
  lemma EmptySearchKeepsAll(rooms: seq<ClientRoom>)
    ensures FilteredRooms(rooms, "") == rooms
  {
    forall i | 0 <= i < |rooms| ensures Matcher("")(rooms[i]) {
      ContainsEmpty(ToLower(rooms[i].name));
    }
  }

  /** The search ignores the case of ASCII letters on both sides. */
  lemma SearchIgnoresCase(rooms: seq<ClientRoom>, a: string, b: string)
    requires ToLower(a) == ToLower(b)
    ensures FilteredRooms(rooms, a) == FilteredRooms(rooms, b)
  {
    FilterAgrees(rooms, Matcher(a), Matcher(b));
  }

  /** A room whose name is exactly the term is always listed. */
  lemma ExactNameIsFound(rooms: seq<ClientRoom>, i: int)
    requires 0 <= i < |rooms|
    ensures rooms[i] in FilteredRooms(rooms, rooms[i].name)
  {
    var s := ToLower(rooms[i].name);
    assert OccursAt(s, s, 0);
    assert NameMatches(rooms[i].name, rooms[i]);
  }

  /** The modal's state; a creation awaits the server in two steps. */
  class RoomCreator {
    var showModal: bool
    var newRoomName: string
    var loading: bool

    constructor()
      ensures !showModal && newRoomName == "" && !loading
    {
      showModal := false;
      newRoomName := "";
      loading := false;
    }

    method Open()
      modifies this
      ensures showModal && newRoomName == old(newRoomName) && loading == old(loading)
    {
      showModal := true;
    }

    method Close()
      modifies this
      ensures !showModal && newRoomName == old(newRoomName) && loading == old(loading)
    {
      showModal := false;
    }

    method TypeName(v: string)
      modifies this
      ensures newRoomName == v && showModal == old(showModal) && loading == old(loading)
    {
      newRoomName := v;
    }

    /** A blank name, or a creation already pending (the button is disabled),
        sends nothing; otherwise the trimmed name goes to `onCreateRoom`. */
    method BeginCreate() returns (name: Option<string>)
      modifies this
      ensures old(loading) || IsBlank(old(newRoomName)) ==> name.None? && loading == old(loading)
      ensures !old(loading) && !IsBlank(old(newRoomName)) ==> name == Some(Trim(old(newRoomName))) && loading
      ensures name.Some? ==> name.value != [] && !IsWhitespace(name.value[0])
      ensures newRoomName == old(newRoomName) && showModal == old(showModal)
    {
      if loading || IsBlank(newRoomName) {
        return None;
      }
      loading := true;
      name := Some(Trim(newRoomName));
    }

    /** Success clears the name and closes the modal; a failure leaves both. */
    method FinishCreate(succeeded: bool)
      modifies this
      ensures !loading
      ensures succeeded ==> newRoomName == "" && !showModal
      ensures !succeeded ==> newRoomName == old(newRoomName) && showModal == old(showModal)
    {
      if succeeded {
        newRoomName := "";
        showModal := false;
      }
      loading := false;
    }
  }
}
