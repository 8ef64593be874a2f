/** A message bubble: whose it is, which of avatar, name and padding it
    shows for its place in a run, its corner shape, the truncation of long
    content, and the request a reaction chip makes. */
module MessageView {
  import opened Common
  import opened ChatReducer
  import opened MessageList
  import Reactions

  function IsOwnMessage(m: ClientMessage, me: int): (b: bool)
    ensures b <==> m.user.id == me
  {
    m.user.id == me
  }

  /** The avatar sits on the last message of someone else's run. */
  function ShowAvatar(own: bool, t: SequenceType): (b: bool)
    ensures b <==> !own && (t == Single || t == Last)
  {
    !own && (t == Single || t == Last)
  }

  /** The name sits on the first message of someone else's run. */
  function ShowUsername(own: bool, t: SequenceType): (b: bool)
    ensures b <==> !own && (t == Single || t == First)
  {
    !own && (t == Single || t == First)
  }

  /** The padding that takes the avatar's place: for someone else's middle
      messages and for every first message, one's own included. */
  function NeedsPadding(own: bool, t: SequenceType): (b: bool)
    ensures b <==> (!own && t == Middle) || t == First
  {
    (!own && t == Middle) || t == First
  }

  /** In someone else's messages the avatar marks the end of each run and
      the name its start. */
  lemma AvatarEndsRunNameStartsIt(ms: seq<ClientMessage>, i: int, day: string -> string, me: int)
    requires 0 <= i < |ms| && ms[i].user.id != me
    ensures ShowAvatar(IsOwnMessage(ms[i], me), SequenceTypeAt(ms, i, day)) <==> !SameAsNext(ms, i, day)
    ensures ShowUsername(IsOwnMessage(ms[i], me), SequenceTypeAt(ms, i, day)) <==> !SameAsPrevious(ms, i, day)
  {
  }

  /** A message of someone else shows the avatar or the padding, exactly
      one of the two, except for a first message, which has the padding. */
  lemma AvatarOrPadding(t: SequenceType)
    ensures ShowAvatar(false, t) != NeedsPadding(false, t)
  {
  }

  const CharacterLimit: nat := 1000

  /** The text shown and whether "..." follows it. */
  datatype Shown = Shown(text: string, ellipsis: bool)

  /** `content.length > characterLimit` and `content.slice(0, characterLimit)`
      count UTF-16 code units: the shown text is the longest run of whole
      characters from the start that fits in 1000 units. */
  function DisplayContent(content: string, expanded: bool): (r: Shown)
    ensures Utf16Length(content) <= CharacterLimit || expanded ==> r == Shown(content, false)
    ensures Utf16Length(content) > CharacterLimit && !expanded ==>
      r.ellipsis && |r.text| < |content| && r.text == content[..|r.text|]
      && Utf16Length(r.text) <= CharacterLimit
      && Utf16Length(r.text) + Units(content[|r.text|]) > CharacterLimit
  {
    if Utf16Length(content) > CharacterLimit && !expanded then
      var t := PrefixWithin(content, CharacterLimit);
      assert t != content;
      Shown(t, true)
    else Shown(content, false)
  }

  /** The shown text is always the start of the content, and the dots mark
      exactly the case where something was cut. */
  lemma TruncationIsPrefix(content: string, expanded: bool)
    ensures var r := DisplayContent(content, expanded);
      |r.text| <= |content| && r.text == content[..|r.text|] && (r.ellipsis <==> |r.text| < |content|)
  {
  }

  /** Text whose every character is one code unit long is cut after exactly
      1000 characters. */
  lemma {:induction false} SingleUnitTextCutAtLimit(content: string)
    requires forall i :: 0 <= i < |content| ==> Units(content[i]) == 1
    requires |content| > CharacterLimit
    ensures |DisplayContent(content, false).text| == CharacterLimit
  {
    var r := DisplayContent(content, false).text;
    assert Utf16Length(content) == |content|;
    assert forall i :: 0 <= i < |r| ==> Units(r[i]) == 1 by {
      forall i | 0 <= i < |r| ensures Units(r[i]) == 1 {
        assert r[i] == content[i];
      }
    }
  }

  datatype Radius = Round | Sharp

  /** Corners in CSS shorthand order: top-left, top-right, bottom-right,
      bottom-left. */
  datatype Corners = Corners(topLeft: Radius, topRight: Radius, bottomRight: Radius, bottomLeft: Radius)

  function SharpCorners(c: Corners): nat {
    (if c.topLeft == Sharp then 1 else 0) + (if c.topRight == Sharp then 1 else 0)
    + (if c.bottomRight == Sharp then 1 else 0) + (if c.bottomLeft == Sharp then 1 else 0)
  }

  /** `getBorderRadius`: a run's closing bubble gets one sharp bottom corner,
      on the speaker's side; every other bubble is round. */
  function BorderRadius(own: bool, t: SequenceType): (c: Corners)
    ensures SharpCorners(c) == (if t == Single || t == Last then 1 else 0)
    ensures c.bottomRight == Sharp <==> own && (t == Single || t == Last)
    ensures c.bottomLeft == Sharp <==> !own && (t == Single || t == Last)
  {
    if t == Single || t == Last then
      if own then Corners(Round, Round, Sharp, Round) else Corners(Round, Round, Round, Sharp)
    else Corners(Round, Round, Round, Round)
  }

  /** One's own bubbles mirror everyone else's. */
  lemma BorderRadiusMirrors(t: SequenceType)
    ensures BorderRadius(true, t).bottomRight == BorderRadius(false, t).bottomLeft
    ensures BorderRadius(true, t).bottomLeft == BorderRadius(false, t).bottomRight
  {
  }

  /** `hasContent`: content that is empty or only white space counts as
      none. */
  function HasContent(content: string): (b: bool)
    ensures b <==> exists k :: 0 <= k < |content| && !IsWhitespace(content[k])
  {
    BlankIffAllWhitespace(content);
    !IsBlank(content)
  }

  /** `handleToggleReaction` behind a reaction chip: the chip's emoji with the
      viewer's existing reaction. */
  function ChipRequest(m: ClientMessage, g: Reactions.GroupedReaction, me: int): (q: ReactionRequest)
    ensures q == EmojiClickRequest(m, g.emoji, me)
  {
    ToggleRequest(UserReaction(m.reactions, me), g.emoji)
  }

  /** A chip only ever adds or switches to its own emoji. */
  lemma ChipTogglesItsEmoji(m: ClientMessage, g: Reactions.GroupedReaction, me: int)
    ensures ChipRequest(m, g, me).AddNewReaction? ==> ChipRequest(m, g, me).emoji == g.emoji
    ensures ChipRequest(m, g, me).UpdateReaction? ==> ChipRequest(m, g, me).emoji == g.emoji
  {
  }
}
