/** The media grid inside a message: a layout chosen by the number of items,
    the tiles drawn, the index each tile opens in the viewer, and the "+n"
    badge on the fourth tile. */
module MediaGrid {
  datatype Layout = OneTile | TwoSideBySide | OneTallTwoStacked | FourGrid

  /** A drawn tile: the viewer index it opens, whether it spans two rows and
      the number on its overflow badge, if any. */
  datatype Tile = Tile(opens: nat, spansTwoRows: bool, badge: nat)

  function LayoutFor(n: nat): (l: Layout)
    ensures l == OneTile <==> n == 1
    ensures l == TwoSideBySide <==> n == 2
    ensures l == OneTallTwoStacked <==> n == 3
    ensures l == FourGrid <==> n == 0 || n >= 4
  {
    if n == 1 then OneTile else if n == 2 then TwoSideBySide else if n == 3 then OneTallTwoStacked else FourGrid
  }

  /** The tiles for `n` items; a badge of 0 means none is drawn. */
  function Tiles(n: nat): (ts: seq<Tile>)
    ensures |ts| == (if n < 4 then n else 4)
    ensures forall i :: 0 <= i < |ts| ==> ts[i].opens == i
    ensures forall i :: 0 <= i < |ts| ==> (ts[i].spansTwoRows <==> n == 3 && i == 0)
    ensures forall i :: 0 <= i < |ts| ==> (ts[i].badge > 0 <==> i == 3 && n > 4)
    ensures n > 4 ==> ts[3].badge == n - 4
  {
    if n == 1 then [Tile(0, false, 0)]
    else if n == 2 then [Tile(0, false, 0), Tile(1, false, 0)]
    else if n == 3 then [Tile(0, true, 0)] + [Tile(1, false, 0), Tile(2, false, 0)]
    else
      var shown := if n < 4 then n else 4;
      seq(shown, i requires 0 <= i < shown => Tile(i, false, if i == 3 && n > 4 then n - 4 else 0))
  }

  /** A tile never opens an index past the media list, and the tiles plus
      the badge account for every item. */
  lemma TilesCoverMedia(n: nat)
    ensures forall i :: 0 <= i < |Tiles(n)| ==> Tiles(n)[i].opens < n
    ensures |Tiles(n)| + (if n > 4 then Tiles(n)[3].badge else 0) == n
  {
  }
}
