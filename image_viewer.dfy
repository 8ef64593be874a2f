/** The full-screen image viewer: cyclic previous/next, the position label,
    the download name and the highlighted thumbnail. */
module ImageViewer {
  import opened Common

  /** `handlePrevious`: one back, wrapping from the first to the last. */
  function Previous(i: int, len: nat): (j: int)
    ensures i > 0 ==> j == i - 1
    ensures i <= 0 ==> j == len - 1
  {
    if i > 0 then i - 1 else len - 1
  }

  /** `handleNext`: one on, wrapping from the last to the first. */
  function Next(i: int, len: nat): (j: int)
    ensures i < len - 1 ==> j == i + 1
    ensures i >= len - 1 ==> j == 0
  {
    if i < len - 1 then i + 1 else 0
  }

  /** Within a non-empty list both moves stay in range and undo each other. */
  lemma NavigationIsCyclic(i: int, len: nat)
    requires 0 <= i < len
    ensures 0 <= Previous(i, len) < len && 0 <= Next(i, len) < len
    ensures Previous(Next(i, len), len) == i && Next(Previous(i, len), len) == i
  {
  }

  /** `k` steps forward, for `k` up to `len`, wrap around once; `len` steps
      come back to the start. */
  lemma {:induction false} StepsWrapOnce(i: int, len: nat, k: nat)
    requires 0 <= i < len && k <= len
    ensures Steps(i, len, k) == (if i + k < len then i + k else i + k - len)
  {
    if k > 0 {
      StepsWrapOnce(i, len, k - 1);
    }
  }

  function Steps(i: int, len: nat, k: nat): int {
    if k == 0 then i else Next(Steps(i, len, k - 1), len)
  }

  /** The header, "i+1 of len": the one-based position's decimal digits,
      " of ", then the count's digits. */
  function PositionLabel(i: nat, len: nat): (s: string)
    ensures var p := NatToString(i + 1);
      |p| + 4 <= |s| && s[..|p|] == p && s[|p|..|p| + 4] == " of " && s[|p| + 4..] == NatToString(len)
  {
    NatToString(i + 1) + " of " + NatToString(len)
  }

  /** The header can be read back: different positions or counts never show
      the same text. */
  lemma PositionLabelsDistinct(i: nat, len: nat, j: nat, len2: nat)
    requires PositionLabel(i, len) == PositionLabel(j, len2)
    ensures i == j && len == len2
  {
    var s := PositionLabel(i, len);
    var p, q := NatToString(i + 1), NatToString(j + 1);
    assert forall k :: 0 <= k < |p| ==> IsDigitChar(s[k]) by {
      forall k | 0 <= k < |p| ensures IsDigitChar(s[k]) { assert s[k] == s[..|p|][k]; }
    }
    assert forall k :: 0 <= k < |q| ==> IsDigitChar(s[k]) by {
      forall k | 0 <= k < |q| ensures IsDigitChar(s[k]) { assert s[k] == s[..|q|][k]; }
    }
    assert !IsDigitChar(s[|p|]) && !IsDigitChar(s[|q|]) by {
      assert s[|p|] == s[|p|..|p| + 4][0] && s[|q|] == s[|q|..|q| + 4][0];
    }
    NatToStringInjective(i + 1, j + 1);
    NatToStringInjective(len, len2);
  }

  /** The download is named after the one-based position. */
  function DownloadName(i: nat): (s: string)
    ensures StartsWith(s, "image_")
  {
    "image_" + NatToString(i + 1)
  }

  /** Different images download under different names. */
  lemma DownloadNamesDistinct(i: nat, j: nat)
    requires DownloadName(i) == DownloadName(j)
    ensures i == j
  {
    assert DownloadName(i)[6..] == NatToString(i + 1);
    assert DownloadName(j)[6..] == NatToString(j + 1);
    NatToStringInjective(i + 1, j + 1);
  }

  function Highlighted(index: nat, current: int): (b: bool)
    ensures b <==> index == current
  {
    index == current
  }

  /** Exactly one thumbnail is highlighted when the index is in range. */
  lemma OneThumbnailHighlighted(current: int, len: nat)
    requires 0 <= current < len
    ensures |set k | 0 <= k < len && Highlighted(k, current)| == 1
  {
    assert (set k | 0 <= k < len && Highlighted(k, current)) == {current as nat};
  }
}
