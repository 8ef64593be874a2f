/** Grouping a message's reactions by emoji, as the reaction chips under a
    message and both reaction dialogs do with the same `reduce`; the chips
    show the first six groups and a "+n" chip for the rest. */
module Reactions {
  import opened Common
  import opened ChatReducer

  datatype GroupedReaction = GroupedReaction(emoji: string, count: nat, users: seq<ClientUser>, userReacted: bool)

  const MaxVisibleReactions: nat := 6

  /** The reactions with emoji `e`, in input order. */
  function WithEmoji(rs: seq<Reaction>, e: string): seq<Reaction> {
    Filter(rs, (r: Reaction) => r.emoji == e)
  }

  function UsersOf(rs: seq<Reaction>): (us: seq<ClientUser>)
    ensures |us| == |rs| && forall i :: 0 <= i < |rs| ==> us[i] == rs[i].user
  {
    Map(rs, (r: Reaction) => r.user)
  }

  predicate ReactedBy(rs: seq<Reaction>, e: string, me: int) {
    exists i :: 0 <= i < |rs| && rs[i].emoji == e && rs[i].user.id == me
  }

  /** What a group for `e` should hold: how many reacted with it, who, in
      input order, and whether the viewer is among them. */
  function GroupOf(rs: seq<Reaction>, e: string, me: int): GroupedReaction {
    GroupedReaction(e, |WithEmoji(rs, e)|, UsersOf(WithEmoji(rs, e)), ReactedBy(rs, e, me))
  }

  /** The emojis used, each once, in order of first use (the order in which
      the accumulator object gains its keys). */
  function Emojis(rs: seq<Reaction>): (es: seq<string>)
    ensures forall i, j :: 0 <= i < j < |es| ==> es[i] != es[j]
    ensures forall e :: e in es <==> exists i :: 0 <= i < |rs| && rs[i].emoji == e
  {
    if rs == [] then []
    else
      var p := rs[..|rs| - 1];
      var es := Emojis(p);
      assert forall i :: 0 <= i < |p| ==> p[i] == rs[i];
      if rs[|rs| - 1].emoji in es then es else es + [rs[|rs| - 1].emoji]
  }

  /** The reference grouping: one group per distinct emoji. */
  function Grouped(rs: seq<Reaction>, me: int): (gs: seq<GroupedReaction>)
    ensures |gs| == |Emojis(rs)| && forall k :: 0 <= k < |gs| ==> gs[k] == GroupOf(rs, Emojis(rs)[k], me)
  {
    Map(Emojis(rs), (e: string) => GroupOf(rs, e, me))
  }

  /** The accumulator entry for `e`, if there is one. */
  function FindGroup(gs: seq<GroupedReaction>, e: string): (j: int)
    ensures -1 <= j < |gs|
    ensures j == -1 <==> forall k :: 0 <= k < |gs| ==> gs[k].emoji != e
    ensures 0 <= j ==> gs[j].emoji == e
  {
    if gs == [] then -1
    else if gs[|gs| - 1].emoji == e then |gs| - 1
    else FindGroup(gs[..|gs| - 1], e)
  }

  /** A reaction counted into its group. */
  function Bump(g: GroupedReaction, x: Reaction, me: int): GroupedReaction {
    g.(count := g.count + 1, users := g.users + [x.user], userReacted := g.userReacted || x.user.id == me)
  }

  /** One step of the `reduce`: a missing entry is created empty, then the
      reaction is counted into it. */
  function AddToGroups(gs: seq<GroupedReaction>, x: Reaction, me: int): (r: seq<GroupedReaction>)
    ensures FindGroup(gs, x.emoji) == -1 ==> r == gs + [Bump(GroupedReaction(x.emoji, 0, [], false), x, me)]
    ensures 0 <= FindGroup(gs, x.emoji) ==> r == gs[FindGroup(gs, x.emoji) := Bump(gs[FindGroup(gs, x.emoji)], x, me)]
  {
    var j := FindGroup(gs, x.emoji);
    var v := if j == -1 then gs + [GroupedReaction(x.emoji, 0, [], false)] else gs;
    var k := if j == -1 then |gs| else j;
    v[k := Bump(v[k], x, me)]
  }

  lemma WithEmojiSnoc(p: seq<Reaction>, x: Reaction, e: string)
    ensures WithEmoji(p + [x], e) == WithEmoji(p, e) + (if x.emoji == e then [x] else [])
    ensures UsersOf(WithEmoji(p + [x], e)) == UsersOf(WithEmoji(p, e)) + (if x.emoji == e then [x.user] else [])
  {
    FilterConcat(p, [x], (r: Reaction) => r.emoji == e);
    assert Filter([x], (r: Reaction) => r.emoji == e) == (if x.emoji == e then [x] else []) by {
      assert [x][1..] == [];
    }
  }

  lemma ReactedBySnoc(p: seq<Reaction>, x: Reaction, e: string, me: int)
    ensures ReactedBy(p + [x], e, me) == (ReactedBy(p, e, me) || (x.emoji == e && x.user.id == me))
  {
    var q := p + [x];
    if ReactedBy(q, e, me) && !(x.emoji == e && x.user.id == me) {
      var i :| 0 <= i < |q| && q[i].emoji == e && q[i].user.id == me;
      assert i < |p| && p[i] == q[i];
    }
    if ReactedBy(p, e, me) {
      var i :| 0 <= i < |p| && p[i].emoji == e && p[i].user.id == me;
      assert q[i] == p[i];
    }
    assert q[|p|] == x;
  }

  /** The reference group for `e` after one more reaction. */
  lemma GroupOfSnoc(p: seq<Reaction>, x: Reaction, e: string, me: int)
    ensures x.emoji != e ==> GroupOf(p + [x], e, me) == GroupOf(p, e, me)
    ensures x.emoji == e ==> GroupOf(p + [x], e, me) == Bump(GroupOf(p, e, me), x, me)
  {
    WithEmojiSnoc(p, x, e);
    ReactedBySnoc(p, x, e, me);
  }

  /** The reference group of an emoji not used yet is the empty entry. */
  lemma GroupOfUnused(p: seq<Reaction>, e: string, me: int)
    requires e !in Emojis(p)
    ensures GroupOf(p, e, me) == GroupedReaction(e, 0, [], false)
  {
    assert forall i :: 0 <= i < |p| ==> p[i].emoji != e;
    assert WithEmoji(p, e) == [];
  }

  /** Adding a reaction to the reference grouping is one step of the `reduce`. */
  lemma GroupStep(p: seq<Reaction>, x: Reaction, me: int)
    ensures Grouped(p + [x], me) == AddToGroups(Grouped(p, me), x, me)
  {
    var q := p + [x];
    assert q[..|q| - 1] == p;
    var es := Emojis(p);
    var gs := Grouped(p, me);
    var lhs, rhs := Grouped(q, me), AddToGroups(gs, x, me);
    var j := FindGroup(gs, x.emoji);
    if j == -1 {
      assert x.emoji !in es;
      assert Emojis(q) == es + [x.emoji];
      forall k | 0 <= k < |lhs|
        ensures lhs[k] == rhs[k]
      {
        var e := Emojis(q)[k];
        GroupOfSnoc(p, x, e, me);
        if k == |es| {
          GroupOfUnused(p, e, me);
        }
      }
    } else {
      assert Emojis(q) == es;
      forall k | 0 <= k < |lhs|
        ensures lhs[k] == rhs[k]
      {
        GroupOfSnoc(p, x, es[k], me);
      }
    }
  }

  /** The `reduce` over the reactions, producing `Object.values` of the
      accumulator. */
  method GroupReactions(rs: seq<Reaction>, me: int) returns (gs: seq<GroupedReaction>)
    ensures gs == Grouped(rs, me)
  {
    gs := [];
    var i := 0;
    while i < |rs|
      invariant 0 <= i <= |rs|
      invariant gs == Grouped(rs[..i], me)
    {
      var x := rs[i];
      GroupStep(rs[..i], x, me);
      var j := FindGroup(gs, x.emoji);
      if j == -1 {
        // a new entry, created empty and counted into at once
        gs := gs + [Bump(GroupedReaction(x.emoji, 0, [], false), x, me)];
      } else {
        gs := gs[j := Bump(gs[j], x, me)];
      }
      assert rs[..i + 1] == rs[..i] + [x];
      i := i + 1;
    }
    assert rs[..|rs|] == rs;
  }

  function Total(gs: seq<GroupedReaction>): nat {
    if gs == [] then 0 else Total(gs[..|gs| - 1]) + gs[|gs| - 1].count
  }

  lemma {:induction false} TotalUpdate(gs: seq<GroupedReaction>, j: int, g: GroupedReaction)
    requires 0 <= j < |gs|
    ensures Total(gs[j := g]) == Total(gs) - gs[j].count + g.count
    decreases |gs|
  {
    var h := gs[j := g];
    if j < |gs| - 1 {
      assert h[..|h| - 1] == gs[..|gs| - 1][j := g];
      TotalUpdate(gs[..|gs| - 1], j, g);
    } else {
      assert h[..|h| - 1] == gs[..|gs| - 1];
    }
  }

  /** The counts add up to the number of reactions. */
  lemma {:induction false} CountsSumToLength(rs: seq<Reaction>, me: int)
    ensures Total(Grouped(rs, me)) == |rs|
    decreases |rs|
  {
    if rs != [] {
      var p, x := rs[..|rs| - 1], rs[|rs| - 1];
      assert p + [x] == rs;
      CountsSumToLength(p, me);
      GroupStep(p, x, me);
      var gs := Grouped(p, me);
      var j := FindGroup(gs, x.emoji);
      if j == -1 {
        var g := Bump(GroupedReaction(x.emoji, 0, [], false), x, me);
        assert (gs + [g])[..|gs|] == gs;
      } else {
        TotalUpdate(gs, j, Bump(gs[j], x, me));
      }
    }
  }

  /** Every reacting user is listed, under the emoji they used, and the
      viewer's mark is set exactly on the groups they reacted with. */
  lemma EveryReactionListed(rs: seq<Reaction>, me: int, i: int)
    requires 0 <= i < |rs|
    ensures exists k :: (0 <= k < |Grouped(rs, me)| && Grouped(rs, me)[k].emoji == rs[i].emoji
      && rs[i].user in Grouped(rs, me)[k].users
      && (rs[i].user.id == me ==> Grouped(rs, me)[k].userReacted))
  {
    var es := Emojis(rs);
    var e := rs[i].emoji;
    assert e in es;
    var k :| 0 <= k < |es| && es[k] == e;
    var w := WithEmoji(rs, e);
    assert rs[i] in w;
    var t :| 0 <= t < |w| && w[t] == rs[i];
    assert UsersOf(w)[t] == rs[i].user;
    assert Grouped(rs, me)[k].emoji == e;
  }

  /** There is a group exactly when there is a reaction, so nothing is drawn
      for a message without reactions. */
  lemma NoGroupsIffNoReactions(rs: seq<Reaction>, me: int)
    ensures Grouped(rs, me) == [] <==> rs == []
  {
    if rs != [] {
      assert rs[0].emoji in Emojis(rs);
    }
  }

  /** The chips shown: the first six groups. */
  function Visible(gs: seq<GroupedReaction>): (v: seq<GroupedReaction>)
    ensures |v| <= MaxVisibleReactions && |v| <= |gs| && v == gs[..|v|]
    ensures |gs| <= MaxVisibleReactions ==> v == gs
  {
    if |gs| <= MaxVisibleReactions then gs else gs[..MaxVisibleReactions]
  }

  /** `Math.max(0, n - 6)`. */
  function HiddenCount(gs: seq<GroupedReaction>): (n: nat)
    ensures n > 0 <==> |gs| > MaxVisibleReactions
  {
    if |gs| > MaxVisibleReactions then |gs| - MaxVisibleReactions else 0
  }

  lemma VisiblePlusHidden(gs: seq<GroupedReaction>)
    ensures |Visible(gs)| + HiddenCount(gs) == |gs|
  {
  }

  /** The dialog's per-group label. */
  function PeopleLabel(count: nat): (s: string)
    ensures s == "person" <==> count == 1
    ensures s == "people" <==> count != 1
  {
    if count == 1 then "person" else "people"
  }

  /** The dialog header counts the distinct emojis. */
  lemma {:induction false} HeaderCountsDistinctEmojis(rs: seq<Reaction>, me: int)
    ensures |Grouped(rs, me)| == |set i | 0 <= i < |rs| :: rs[i].emoji|
  {
    var es := Emojis(rs);
    var used := set i | 0 <= i < |rs| :: rs[i].emoji;
    assert used == set e | e in es;
    DistinctCard(es);
  }

  lemma {:induction false} DistinctCard(es: seq<string>)
    requires forall i, j :: 0 <= i < j < |es| ==> es[i] != es[j]
    ensures |set e | e in es| == |es|
  {
    if es != [] {
      var p := es[..|es| - 1];
      DistinctCard(p);
      assert (set e | e in es) == (set e | e in p) + {es[|es| - 1]};
      assert es[|es| - 1] !in p;
    }
  }
}
