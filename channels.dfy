/** The channel layer the consumers and views share, reduced to what they use:
    named groups of channel names, and a log of every message sent to a
    group. Delivery itself is not modelled. */
module ChannelLayers {

  type Groups = map<string, set<string>>

  /** One `group_send`: the group, the event type and the key of the
      serialized message it carries. */
  datatype GroupEvent = GroupEvent(group: string, kind: string, message: nat)

  /** `group_add(g, ch)`: `ch` joins `g`, creating the group if needed. */
  function Added(gs: Groups, g: string, ch: string): (r: Groups)
    ensures r.Keys == gs.Keys + {g}
    ensures r[g] == (if g in gs then gs[g] else {}) + {ch}
    ensures forall h :: h in gs && h != g ==> r[h] == gs[h]
  {
    gs[g := (if g in gs then gs[g] else {}) + {ch}]
  }

  /** `group_discard(g, ch)`: `ch` leaves `g`; a group left empty is removed,
      and discarding from an unknown group changes nothing. */
  function Discarded(gs: Groups, g: string, ch: string): (r: Groups)
    ensures g !in gs ==> r == gs
    ensures g in r ==> r[g] == gs[g] - {ch} && r[g] != {}
    ensures g in gs ==> (g in r <==> gs[g] - {ch} != {})
    ensures forall h :: h != g ==> (h in r <==> h in gs)
    ensures forall h :: h in gs && h != g ==> r[h] == gs[h]
  {
    if g !in gs then gs
    else if gs[g] - {ch} == {} then gs - {g}
    else gs[g := gs[g] - {ch}]
  }

  /** The groups after `ch` has joined every group in `names`. */
  function Subscribed(gs: Groups, names: set<string>, ch: string): (r: Groups)
    ensures r.Keys == gs.Keys + names
    ensures forall h :: h in names ==> ch in r[h]
    ensures forall h :: h in gs && h !in names ==> r[h] == gs[h]
  {
    map h | h in gs.Keys + names :: (if h in gs then gs[h] else {}) + (if h in names then {ch} else {})
  }

  /** The groups after `ch` has left every group in `names`. */
  function Unsubscribed(gs: Groups, names: set<string>, ch: string): (r: Groups)
    ensures r.Keys <= gs.Keys
    ensures forall h :: h in names && h in r ==> ch !in r[h]
    ensures forall h :: h in gs && h !in names ==> h in r && r[h] == gs[h]
  {
    map h | h in gs && (h !in names || gs[h] - {ch} != {}) :: if h in names then gs[h] - {ch} else gs[h]
  }

  lemma SubscribedNothing(gs: Groups, ch: string)
    ensures Subscribed(gs, {}, ch) == gs
  {
    var s := Subscribed(gs, {}, ch);
    forall h | h in gs ensures s[h] == gs[h] {
      assert s[h] == gs[h] + {};
    }
  }

  lemma SubscribeStep(gs: Groups, names: set<string>, g: string, ch: string)
    ensures Added(Subscribed(gs, names, ch), g, ch) == Subscribed(gs, names + {g}, ch)
  {
    var a := Added(Subscribed(gs, names, ch), g, ch);
    var b := Subscribed(gs, names + {g}, ch);
    assert a.Keys == b.Keys;
    forall h | h in a ensures a[h] == b[h] {
    }
  }

  lemma UnsubscribeStep(gs: Groups, names: set<string>, g: string, ch: string)
    ensures Discarded(Unsubscribed(gs, names, ch), g, ch) == Unsubscribed(gs, names + {g}, ch)
  {
    var a := Discarded(Unsubscribed(gs, names, ch), g, ch);
    var b := Unsubscribed(gs, names + {g}, ch);
    assert forall h :: h in a <==> h in b;
    forall h | h in a ensures a[h] == b[h] {
    }
  }

  predicate NoEmptyGroup(gs: Groups) {
    forall h :: h in gs ==> gs[h] != {}
  }

  predicate InNoGroup(gs: Groups, ch: string) {
    forall h :: h in gs ==> ch !in gs[h]
  }

  /** Joining a set of groups and then leaving the same set restores the
      groups exactly, provided the channel was in none of them before and the
      layer holds no empty group. */
  lemma UnsubscribeUndoesSubscribe(gs: Groups, names: set<string>, ch: string)
    requires NoEmptyGroup(gs) && InNoGroup(gs, ch)
    ensures Unsubscribed(Subscribed(gs, names, ch), names, ch) == gs
  {
    var s := Subscribed(gs, names, ch);
    var u := Unsubscribed(s, names, ch);
    forall h | h in s && h in names
      ensures s[h] - {ch} == (if h in gs then gs[h] else {})
    {
    }
    assert u.Keys == gs.Keys;
  }

  /** Leaving groups the channel never joined changes nothing. */
  lemma UnsubscribeAbsent(gs: Groups, names: set<string>, ch: string)
    requires NoEmptyGroup(gs) && InNoGroup(gs, ch)
    ensures Unsubscribed(gs, names, ch) == gs
  {
    var u := Unsubscribed(gs, names, ch);
    forall h | h in gs ensures gs[h] - {ch} == gs[h] {
    }
    assert u.Keys == gs.Keys;
  }

  class Layer {
    var groups: Groups
    var sent: seq<GroupEvent>

    constructor()
      ensures groups == map[] && sent == []
    {
      groups := map[];
      sent := [];
    }

    method GroupAdd(g: string, ch: string)
      modifies this
      ensures groups == Added(old(groups), g, ch) && sent == old(sent)
    {
      groups := Added(groups, g, ch);
    }

    method GroupDiscard(g: string, ch: string)
      modifies this
      ensures groups == Discarded(old(groups), g, ch) && sent == old(sent)
    {
      groups := Discarded(groups, g, ch);
    }

    method GroupSend(g: string, kind: string, message: nat)
      modifies this
      ensures sent == old(sent) + [GroupEvent(g, kind, message)] && groups == old(groups)
    {
      sent := sent + [GroupEvent(g, kind, message)];
    }
  }
}
