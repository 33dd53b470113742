/** Day 9 (2025/9/main.rs): red tiles on a grid; part 1 wants the largest rectangle
    with two red tiles at opposite corners. The solver does not try every pair: it
    picks the tile nearest each corner of the bounding box (four stable sorts of the
    same vector, the first element after each) and takes the larger of the two
    diagonal rectangles those picks span. */
module Tiles {
  import opened Text
  import opened Sorting

  // ------------------------------------------------------------------ parsing

  /** `RedTile`: a tile's column and row. */
  datatype RedTile = RedTile(x: int, y: int)

  /** `RedTile::parse`: the text split on ',', the first two pieces parsed as `i64`;
      a missing piece or one that does not parse gives None, and pieces after the
      second are never looked at. */
  function ParseTile(s: string): (t: Option<RedTile>)
    ensures |Split(s, ',')| < 2 ==> t == None
  {
    var pieces := Split(s, ',');
    if |pieces| < 2 then None
    else
      var x, y := ParseSigned(pieces[0], I64_MIN, I64_MAX), ParseSigned(pieces[1], I64_MIN, I64_MAX);
      if x.Some? && y.Some? then Some(RedTile(x.value, y.value)) else None
  }

  /** The text of a tile as the puzzle writes it: `x,y`. */
  function TileText(t: RedTile): string {
    SignedDecimal(t.x) + "," + SignedDecimal(t.y)
  }

  /** Parsing reads back any tile with `i64` coordinates written as `x,y`. */
  lemma ParseTileRoundTrip(t: RedTile)
    requires I64_MIN <= t.x <= I64_MAX && I64_MIN <= t.y <= I64_MAX
    ensures ParseTile(TileText(t)) == Some(t)
  {
    var sx, sy := SignedDecimal(t.x), SignedDecimal(t.y);
    assert ',' !in sx && ',' !in sy;
    assert TileText(t) == sx + [','] + sy;
    SplitFirst(sx, ',', sy);
    SplitNoSeparator(sy, ',');
    ParseSignedDecimal(t.x, I64_MIN, I64_MAX);
    ParseSignedDecimal(t.y, I64_MIN, I64_MAX);
  }

  /** The lines `get_red_tiles` parses: the non-empty ones, trimmed. */
  function TileLines(input: string): seq<string> {
    TrimNonEmpty(Split(input, '\n'))
  }

  /** `get_red_tiles`: each of those lines parsed as a tile; None when a line does
      not parse (the source panics). */
  function RedTiles(input: string): (r: Option<seq<RedTile>>)
    ensures r.Some? ==> |r.value| == |TileLines(input)|
  {
    ParseAll(TileLines(input), ParseTile)
  }

  /** The tiles are read exactly when every line is a tile, and then the k-th tile
      is the k-th line's. */
  lemma RedTilesMeaning(input: string)
    ensures RedTiles(input).Some? <==> forall k :: 0 <= k < |TileLines(input)| ==> ParseTile(TileLines(input)[k]).Some?
    ensures RedTiles(input).Some? ==>
              forall k :: 0 <= k < |TileLines(input)| ==> RedTiles(input).value[k] == ParseTile(TileLines(input)[k]).value
  {
    ParseAllMeaning(TileLines(input), ParseTile);
  }

  // ------------------------------------------------------------ bounding box

  /** `red_tiles.map(|tile| tile.x).max().unwrap()`. */
  function MaxX(tiles: seq<RedTile>): (m: int)
    requires tiles != []
    ensures exists k :: 0 <= k < |tiles| && tiles[k].x == m
    ensures forall k :: 0 <= k < |tiles| ==> tiles[k].x <= m
  {
    if |tiles| == 1 then tiles[0].x
    else
      var rest := MaxX(tiles[..|tiles| - 1]);
      var last := tiles[|tiles| - 1].x;
      if last >= rest then last else rest
  }

  /** `red_tiles.map(|tile| tile.y).max().unwrap()`. */
  function MaxY(tiles: seq<RedTile>): (m: int)
    requires tiles != []
    ensures exists k :: 0 <= k < |tiles| && tiles[k].y == m
    ensures forall k :: 0 <= k < |tiles| ==> tiles[k].y <= m
  {
    if |tiles| == 1 then tiles[0].y
    else
      var rest := MaxY(tiles[..|tiles| - 1]);
      var last := tiles[|tiles| - 1].y;
      if last >= rest then last else rest
  }

  // ------------------------------------------------------------- the corners

  function Larger(a: int, b: int): int {
    if a >= b then a else b
  }

  /** The ordering of every corner sort, on a tile's offsets from that corner: the
      sum of the offsets first, then the larger offset. */
  function CornerKey(dx: int, dy: int): Key {
    (dx + dy, Larger(dx, dy))
  }

  /** The first sort: offsets from the top left corner, `x` and `y`. */
  function TopLeftKey(t: RedTile): Key {
    CornerKey(t.x, t.y)
  }

  /** The second sort: `x` reflected through `max_x`. */
  function TopRightOrder(maxX: int): RedTile -> Key {
    (t: RedTile) => CornerKey(maxX - t.x, t.y)
  }

  /** The third sort: `y` reflected through `max_y`. */
  function BottomLeftOrder(maxY: int): RedTile -> Key {
    (t: RedTile) => CornerKey(t.x, maxY - t.y)
  }

  /** The fourth sort: both reflected. */
  function BottomRightOrder(maxX: int, maxY: int): RedTile -> Key {
    (t: RedTile) => CornerKey(maxX - t.x, maxY - t.y)
  }

  datatype Corners = Corners(topLeft: RedTile, topRight: RedTile, bottomLeft: RedTile, bottomRight: RedTile)

  /** The vector after each of the four sorts; each sort starts from the order the
      previous one left. */
  function ByTopLeft(tiles: seq<RedTile>): seq<RedTile> {
    InsertionSort(tiles, TopLeftKey)
  }

  function ByTopRight(tiles: seq<RedTile>): seq<RedTile>
    requires tiles != []
  {
    InsertionSort(ByTopLeft(tiles), TopRightOrder(MaxX(tiles)))
  }

  function ByBottomLeft(tiles: seq<RedTile>): seq<RedTile>
    requires tiles != []
  {
    InsertionSort(ByTopRight(tiles), BottomLeftOrder(MaxY(tiles)))
  }

  function ByBottomRight(tiles: seq<RedTile>): seq<RedTile>
    requires tiles != []
  {
    InsertionSort(ByBottomLeft(tiles), BottomRightOrder(MaxX(tiles), MaxY(tiles)))
  }

  /** The four picks: the first element after each sort. */
  function Picks(tiles: seq<RedTile>): Corners
    requires tiles != []
  {
    Corners(ByTopLeft(tiles)[0], ByTopRight(tiles)[0], ByBottomLeft(tiles)[0], ByBottomRight(tiles)[0])
  }

  /** `(hi - lo) + 1`: the tiles from `lo` to `hi`, both included, when `lo <= hi`. */
  function Span(lo: int, hi: int): int {
    hi - lo + 1
  }

  /** The result: the larger of the rectangle from the bottom-left pick to the
      top-right pick and the one from the top-left pick to the bottom-right pick,
      each side counted inclusively with its sign as computed. */
  function CornerArea(c: Corners): int {
    Larger(Span(c.bottomLeft.x, c.topRight.x) * Span(c.topRight.y, c.bottomLeft.y),
           Span(c.topLeft.x, c.bottomRight.x) * Span(c.topLeft.y, c.bottomRight.y))
  }

  /** `max_rectangle_area`: the bounding maxima, then four in-place sorts of one
      vector, keeping the first tile after each; None stands for the `unwrap` on an
      empty input. */
  method MaxRectangleArea(tiles: seq<RedTile>) returns (area: Option<int>)
    ensures tiles == [] ==> area == None
    ensures tiles != [] ==> area == Some(CornerArea(Picks(tiles)))
  {
    if tiles == [] {
      return None;
    }
    var maxX, maxY := MaxX(tiles), MaxY(tiles);
    var vec := new RedTile[|tiles|](k requires 0 <= k < |tiles| => tiles[k]);
    assert vec[..] == tiles;
    SortBy(vec, TopLeftKey);
    var topLeft := vec[0];
    SortBy(vec, TopRightOrder(maxX));
    var topRight := vec[0];
    SortBy(vec, BottomLeftOrder(maxY));
    var bottomLeft := vec[0];
    SortBy(vec, BottomRightOrder(maxX, maxY));
    var bottomRight := vec[0];
    area := Some(CornerArea(Corners(topLeft, topRight, bottomLeft, bottomRight)));
  }

  // ------------------------------------------------------- what the picks are

  /** Each sort only rearranges the tiles. */
  lemma SortsPermute(tiles: seq<RedTile>)
    requires tiles != []
    ensures multiset(ByTopLeft(tiles)) == multiset(tiles)
    ensures multiset(ByTopRight(tiles)) == multiset(tiles)
    ensures multiset(ByBottomLeft(tiles)) == multiset(tiles)
    ensures ByTopLeft(tiles) != [] && ByTopRight(tiles) != [] && ByBottomLeft(tiles) != []
  {
    InsertionSortPermutes(tiles, TopLeftKey);
    InsertionSortPermutes(ByTopLeft(tiles), TopRightOrder(MaxX(tiles)));
    InsertionSortPermutes(ByTopRight(tiles), BottomLeftOrder(MaxY(tiles)));
  }

  /** Each pick is a tile, and no tile is nearer its corner: its offsets from the
      corner have the smallest sum, and among equal sums the smallest larger offset. */
  lemma PicksNearest(tiles: seq<RedTile>)
    requires tiles != []
    ensures var c := Picks(tiles);
            c.topLeft in tiles && c.topRight in tiles && c.bottomLeft in tiles && c.bottomRight in tiles
    ensures forall t :: t in tiles ==> KeyLe(TopLeftKey(Picks(tiles).topLeft), TopLeftKey(t))
    ensures forall t :: t in tiles ==>
              KeyLe(TopRightOrder(MaxX(tiles))(Picks(tiles).topRight), TopRightOrder(MaxX(tiles))(t))
    ensures forall t :: t in tiles ==>
              KeyLe(BottomLeftOrder(MaxY(tiles))(Picks(tiles).bottomLeft), BottomLeftOrder(MaxY(tiles))(t))
    ensures forall t :: t in tiles ==>
              KeyLe(BottomRightOrder(MaxX(tiles), MaxY(tiles))(Picks(tiles).bottomRight),
                    BottomRightOrder(MaxX(tiles), MaxY(tiles))(t))
  {
    SortsPermute(tiles);
    HeadIsMinimum(tiles, TopLeftKey, tiles);
    HeadIsMinimum(ByTopLeft(tiles), TopRightOrder(MaxX(tiles)), tiles);
    HeadIsMinimum(ByTopRight(tiles), BottomLeftOrder(MaxY(tiles)), tiles);
    HeadIsMinimum(ByBottomLeft(tiles), BottomRightOrder(MaxX(tiles), MaxY(tiles)), tiles);
  }

  /** The sorts are stable: of the tiles tied for nearest the top left corner, the
      pick is the first in the input. */
  lemma TopLeftEarliest(tiles: seq<RedTile>)
    requires tiles != []
    ensures exists j :: 0 <= j < |tiles| && Picks(tiles).topLeft == tiles[j]
                        && forall i :: 0 <= i < j ==> !KeyLe(TopLeftKey(tiles[i]), TopLeftKey(tiles[j]))
  {
    var j := HeadIsEarliestMinimum(tiles, TopLeftKey);
  }

  // ------------------------------------------------------ the largest rectangle

  function Abs(d: int): nat {
    if d < 0 then -d else d
  }

  /** The rectangle with red tiles `a` and `b` at opposite corners, edges included. */
  function Area(a: RedTile, b: RedTile): nat {
    (Abs(a.x - b.x) + 1) * (Abs(a.y - b.y) + 1)
  }

  /** `m` is the largest rectangle any two red tiles span: what part 1 asks for. */
  ghost predicate IsLargestArea(tiles: seq<RedTile>, m: int) {
    (exists i, j :: 0 <= i < |tiles| && 0 <= j < |tiles| && Area(tiles[i], tiles[j]) == m)
    && forall i, j :: 0 <= i < |tiles| && 0 <= j < |tiles| ==> Area(tiles[i], tiles[j]) <= m
  }

  /** A product of two sides, each at most a bound in size, is at most the product
      of the bounds. */
  lemma SidesBound(p: int, q: int, bp: nat, bq: nat)
    requires Abs(p) <= bp && Abs(q) <= bq
    ensures p * q <= bp * bq
  {
    if p * q > 0 {
      assert p * q == Abs(p) * Abs(q);
      assert Abs(p) * Abs(q) <= bp * Abs(q) <= bp * bq;
    }
  }

  /** Either rectangle of the result lies within the rectangle its two picks span. */
  lemma SpanWithinArea(a: RedTile, b: RedTile)
    ensures Span(a.x, b.x) * Span(b.y, a.y) <= Area(a, b)
    ensures Span(a.x, b.x) * Span(a.y, b.y) <= Area(a, b)
  {
    SidesBound(Span(a.x, b.x), Span(b.y, a.y), Abs(a.x - b.x) + 1, Abs(a.y - b.y) + 1);
    SidesBound(Span(a.x, b.x), Span(a.y, b.y), Abs(a.x - b.x) + 1, Abs(a.y - b.y) + 1);
  }

  /** Any two red tiles span at most the largest rectangle. */
  lemma WithinLargest(tiles: seq<RedTile>, m: int, a: RedTile, b: RedTile)
    requires IsLargestArea(tiles, m) && a in tiles && b in tiles
    ensures Area(a, b) <= m
  {
    var i :| 0 <= i < |tiles| && tiles[i] == a;
    var j :| 0 <= j < |tiles| && tiles[j] == b;
  }

  /** The picks are red tiles. */
  lemma PicksAreTiles(tiles: seq<RedTile>)
    requires tiles != []
    ensures var c := Picks(tiles);
            c.topLeft in tiles && c.topRight in tiles && c.bottomLeft in tiles && c.bottomRight in tiles
  {
    PicksNearest(tiles);
  }

  /** The result is at most any bound on the rectangles its picks span. */
  lemma CornerAreaBound(c: Corners, m: int)
    requires Area(c.bottomLeft, c.topRight) <= m && Area(c.topLeft, c.bottomRight) <= m
    ensures CornerArea(c) <= m
  {
    SpanWithinArea(c.bottomLeft, c.topRight);
    SpanWithinArea(c.topLeft, c.bottomRight);
    var p := Span(c.bottomLeft.x, c.topRight.x) * Span(c.topRight.y, c.bottomLeft.y);
    var q := Span(c.topLeft.x, c.bottomRight.x) * Span(c.topLeft.y, c.bottomRight.y);
    assert p <= m && q <= m;
    assert CornerArea(c) == Larger(p, q);
  }

  /** The result is never more than the largest rectangle: both candidates are
      spanned by two red tiles. */
  lemma CornerAreaAtMostLargest(tiles: seq<RedTile>, m: int)
    requires tiles != [] && IsLargestArea(tiles, m)
    ensures CornerArea(Picks(tiles)) <= m
  {
    var c := Picks(tiles);
    PicksAreTiles(tiles);
    WithinLargest(tiles, m, c.bottomLeft, c.topRight);
    WithinLargest(tiles, m, c.topLeft, c.bottomRight);
    CornerAreaBound(c, m);
  }

  /** No rectangle from the first `rows` tiles to any tile exceeds `best`. */
  ghost predicate RowsBelow(tiles: seq<RedTile>, rows: nat, best: int) {
    forall p, q :: 0 <= p < rows && p < |tiles| && 0 <= q < |tiles| ==> Area(tiles[p], tiles[q]) <= best
  }

  /** No rectangle from tile `i` to the first `cols` tiles exceeds `best`. */
  ghost predicate ColumnsBelow(tiles: seq<RedTile>, i: nat, cols: nat, best: int)
    requires i < |tiles|
  {
    forall q :: 0 <= q < cols && q < |tiles| ==> Area(tiles[i], tiles[q]) <= best
  }

  /** Raising the best so far keeps both bounds. */
  lemma Raise(tiles: seq<RedTile>, i: nat, j: nat, best: int, best': int)
    requires i < |tiles| && best <= best'
    requires RowsBelow(tiles, i, best) && ColumnsBelow(tiles, i, j, best)
    ensures RowsBelow(tiles, i, best') && ColumnsBelow(tiles, i, j, best')
  {
  }

  lemma NextColumn(tiles: seq<RedTile>, i: nat, j: nat, best: int)
    requires i < |tiles| && j < |tiles| && ColumnsBelow(tiles, i, j, best) && Area(tiles[i], tiles[j]) <= best
    ensures ColumnsBelow(tiles, i, j + 1, best)
  {
  }

  lemma NextRow(tiles: seq<RedTile>, i: nat, best: int)
    requires i < |tiles| && RowsBelow(tiles, i, best) && ColumnsBelow(tiles, i, |tiles|, best)
    ensures RowsBelow(tiles, i + 1, best)
  {
  }

  /** A rectangle that no rectangle exceeds is the largest. */
  lemma LargestFound(tiles: seq<RedTile>, bi: nat, bj: nat, best: int)
    requires bi < |tiles| && bj < |tiles| && Area(tiles[bi], tiles[bj]) == best
    requires RowsBelow(tiles, |tiles|, best)
    ensures IsLargestArea(tiles, best)
  {
  }

  /** The largest rectangle, found by trying every pair of red tiles; None when
      there are no tiles. */
  method LargestRectangleArea(tiles: seq<RedTile>) returns (area: Option<nat>)
    ensures tiles == [] <==> area == None
    ensures area.Some? ==> IsLargestArea(tiles, area.value)
  {
    if tiles == [] {
      return None;
    }
    var best := Area(tiles[0], tiles[0]);
    ghost var bi, bj := 0, 0;
    var i := 0;
    while i < |tiles|
      invariant 0 <= i <= |tiles| && 0 <= bi < |tiles| && 0 <= bj < |tiles|
      invariant Area(tiles[bi], tiles[bj]) == best
      invariant RowsBelow(tiles, i, best)
    {
      var j := 0;
      while j < |tiles|
        invariant 0 <= j <= |tiles| && 0 <= bi < |tiles| && 0 <= bj < |tiles|
        invariant Area(tiles[bi], tiles[bj]) == best
        invariant RowsBelow(tiles, i, best) && ColumnsBelow(tiles, i, j, best)
      {
        var a := Area(tiles[i], tiles[j]);
        if a > best {
          Raise(tiles, i, j, best, a);
          best := a;
          bi, bj := i, j;
        }
        NextColumn(tiles, i, j, best);
        j := j + 1;
      }
      NextRow(tiles, i, best);
      i := i + 1;
    }
    LargestFound(tiles, bi, bj, best);
    return Some(best);
  }

  // ----------------------------------------------------------------- examples

  /** The largest column, identified by a tile that has it and a bound on all. */
  lemma MaxXIs(tiles: seq<RedTile>, k: nat, m: int)
    requires k < |tiles| && tiles[k].x == m && forall t :: t in tiles ==> t.x <= m
    ensures MaxX(tiles) == m
  {
    var i :| 0 <= i < |tiles| && tiles[i].x == MaxX(tiles);
    assert tiles[i] in tiles;
  }

  /** The largest row, likewise. */
  lemma MaxYIs(tiles: seq<RedTile>, k: nat, m: int)
    requires k < |tiles| && tiles[k].y == m && forall t :: t in tiles ==> t.y <= m
    ensures MaxY(tiles) == m
  {
    var i :| 0 <= i < |tiles| && tiles[i].y == MaxY(tiles);
    assert tiles[i] in tiles;
  }

  /** A tile strictly nearest a corner is picked for it, whatever the order the
      previous sort left. */
  lemma PickedTopLeft(tiles: seq<RedTile>, t: RedTile)
    requires t in tiles && forall u :: u in tiles && u != t ==> !KeyLe(TopLeftKey(u), TopLeftKey(t))
    ensures Picks(tiles).topLeft == t
  {
    PicksNearest(tiles);
  }

  lemma PickedTopRight(tiles: seq<RedTile>, t: RedTile)
    requires t in tiles
    requires forall u :: u in tiles && u != t ==> !KeyLe(TopRightOrder(MaxX(tiles))(u), TopRightOrder(MaxX(tiles))(t))
    ensures Picks(tiles).topRight == t
  {
    PicksNearest(tiles);
  }

  lemma PickedBottomLeft(tiles: seq<RedTile>, t: RedTile)
    requires t in tiles
    requires forall u :: u in tiles && u != t ==> !KeyLe(BottomLeftOrder(MaxY(tiles))(u), BottomLeftOrder(MaxY(tiles))(t))
    ensures Picks(tiles).bottomLeft == t
  {
    PicksNearest(tiles);
  }

  lemma PickedBottomRight(tiles: seq<RedTile>, t: RedTile)
    requires t in tiles
    requires forall u :: u in tiles && u != t ==>
               !KeyLe(BottomRightOrder(MaxX(tiles), MaxY(tiles))(u), BottomRightOrder(MaxX(tiles), MaxY(tiles))(t))
    ensures Picks(tiles).bottomRight == t
  {
    PicksNearest(tiles);
  }

  /** When the top-left pick is also among the nearest the top right corner, the
      stable second sort keeps it first. */
  lemma TopRightKeepsTopLeft(tiles: seq<RedTile>, t: RedTile)
    requires tiles != [] && Picks(tiles).topLeft == t
    requires forall u :: u in tiles ==> KeyLe(TopRightOrder(MaxX(tiles))(t), TopRightOrder(MaxX(tiles))(u))
    ensures Picks(tiles).topRight == t
  {
    SortsPermute(tiles);
    HeadStays(ByTopLeft(tiles), TopRightOrder(MaxX(tiles)), tiles);
  }

  /** When the bottom-left pick is also among the nearest the bottom right corner,
      the stable fourth sort keeps it first. */
  lemma BottomRightKeepsBottomLeft(tiles: seq<RedTile>, t: RedTile)
    requires tiles != [] && Picks(tiles).bottomLeft == t
    requires forall u :: u in tiles ==>
               KeyLe(BottomRightOrder(MaxX(tiles), MaxY(tiles))(t), BottomRightOrder(MaxX(tiles), MaxY(tiles))(u))
    ensures Picks(tiles).bottomRight == t
  {
    SortsPermute(tiles);
    HeadStays(ByBottomLeft(tiles), BottomRightOrder(MaxX(tiles), MaxY(tiles)), tiles);
  }

  /** Three tiles on which the corner picks miss the largest rectangle. */
  function MissTiles(): seq<RedTile> {
    [RedTile(0, 0), RedTile(0, 2), RedTile(1, 1)]
  }

  /** Every tile of these is one of the three. */
  lemma MissCases(t: RedTile)
    requires t in MissTiles()
    ensures t == RedTile(0, 0) || t == RedTile(0, 2) || t == RedTile(1, 1)
  {
  }

  lemma MissMaxima()
    ensures MaxX(MissTiles()) == 1 && MaxY(MissTiles()) == 2
  {
    var tiles := MissTiles();
    forall t | t in tiles ensures t.x <= 1 && t.y <= 2 {
      MissCases(t);
    }
    MaxXIs(tiles, 2, 1);
    MaxYIs(tiles, 1, 2);
  }

  /** (0,0) is strictly nearest the top left corner, and tied with (1,1) for the
      top right one (1,0); the stable second sort keeps (0,0) first. */
  lemma MissTop()
    ensures Picks(MissTiles()).topLeft == RedTile(0, 0) && Picks(MissTiles()).topRight == RedTile(0, 0)
  {
    var tiles := MissTiles();
    var key := TopRightOrder(1);
    forall u | u in tiles ensures !(u != tiles[0] && KeyLe(TopLeftKey(u), TopLeftKey(tiles[0])))
                                  && KeyLe(key(tiles[0]), key(u)) {
      MissCases(u);
    }
    PickedTopLeft(tiles, tiles[0]);
    MissMaxima();
    TopRightKeepsTopLeft(tiles, tiles[0]);
  }

  /** (0,2) is strictly nearest the bottom left corner (0,2). */
  lemma MissBottomLeft()
    ensures Picks(MissTiles()).bottomLeft == RedTile(0, 2)
  {
    var tiles := MissTiles();
    var key := BottomLeftOrder(2);
    forall u | u in tiles && u != tiles[1] ensures !KeyLe(key(u), key(tiles[1])) {
      MissCases(u);
    }
    MissMaxima();
    PickedBottomLeft(tiles, tiles[1]);
  }

  /** (0,2) is tied with (1,1) for the bottom right corner (1,2); the stable
      fourth sort keeps (0,2) first. */
  lemma MissBottomRight()
    ensures Picks(MissTiles()).bottomRight == RedTile(0, 2)
  {
    MissBottomRightTie();
    MissMaxima();
    MissBottomLeft();
    BottomRightKeepsBottomLeft(MissTiles(), RedTile(0, 2));
  }

  /** No tile is nearer the bottom right corner (1,2) than (0,2). */
  lemma MissBottomRightTie()
    ensures forall u :: u in MissTiles() ==> KeyLe(BottomRightOrder(1, 2)(RedTile(0, 2)), BottomRightOrder(1, 2)(u))
  {
    forall u | u in MissTiles() ensures KeyLe(BottomRightOrder(1, 2)(RedTile(0, 2)), BottomRightOrder(1, 2)(u)) {
      MissCases(u);
    }
  }

  /** (0,0) and (1,1) span a 2 by 2 square. */
  lemma MissSquare()
    ensures Area(MissTiles()[0], MissTiles()[2]) == 4
  {
    var a, b := MissTiles()[0], MissTiles()[2];
    assert Abs(a.x - b.x) + 1 == 2 && Abs(a.y - b.y) + 1 == 2;
  }

  /** The corner picks miss the largest rectangle: they are (0,0), (0,0), (0,2)
      and (0,2), so both candidate rectangles are the 1 by 3 column, yet (0,0) and
      (1,1) span a 2 by 2 square. */
  lemma CornerPicksMissLargest()
    ensures CornerArea(Picks(MissTiles())) == 3
    ensures Area(MissTiles()[0], MissTiles()[2]) == 4
  {
    MissTop();
    MissBottomLeft();
    MissBottomRight();
    var c := Picks(MissTiles());
    assert Span(c.bottomLeft.x, c.topRight.x) == 1 && Span(c.topRight.y, c.bottomLeft.y) == 3;
    assert Span(c.topLeft.x, c.bottomRight.x) == 1 && Span(c.topLeft.y, c.bottomRight.y) == 3;
    MissSquare();
  }

  /** The worked example's eight tiles. */
  function ExampleTiles(): seq<RedTile> {
    [RedTile(7, 1), RedTile(11, 1), RedTile(11, 7), RedTile(9, 7),
     RedTile(9, 5), RedTile(2, 5), RedTile(2, 3), RedTile(7, 3)]
  }

  /** Every tile of the example is one of the eight. */
  lemma ExampleCases(t: RedTile)
    requires t in ExampleTiles()
    ensures t == RedTile(7, 1) || t == RedTile(11, 1) || t == RedTile(11, 7) || t == RedTile(9, 7)
            || t == RedTile(9, 5) || t == RedTile(2, 5) || t == RedTile(2, 3) || t == RedTile(7, 3)
  {
  }

  lemma ExampleMaxima()
    ensures MaxX(ExampleTiles()) == 11 && MaxY(ExampleTiles()) == 7
  {
    var tiles := ExampleTiles();
    forall t | t in tiles ensures t.x <= 11 && t.y <= 7 {
      ExampleCases(t);
    }
    MaxXIs(tiles, 1, 11);
    MaxYIs(tiles, 2, 7);
  }

  /** (2,3) is strictly nearest the top left corner. */
  lemma ExampleTopLeft()
    ensures Picks(ExampleTiles()).topLeft == RedTile(2, 3)
  {
    var tiles := ExampleTiles();
    forall u | u in tiles && u != tiles[6] ensures !KeyLe(TopLeftKey(u), TopLeftKey(tiles[6])) {
      ExampleCases(u);
    }
    PickedTopLeft(tiles, tiles[6]);
  }

  /** (11,1) is strictly nearest the top right corner (11,0). */
  lemma ExampleTopRight()
    ensures Picks(ExampleTiles()).topRight == RedTile(11, 1)
  {
    ExampleTopRightNearest();
    ExampleMaxima();
    PickedTopRight(ExampleTiles(), RedTile(11, 1));
  }

  lemma ExampleTopRightNearest()
    ensures forall u :: u in ExampleTiles() && u != RedTile(11, 1) ==> !KeyLe(TopRightOrder(11)(u), TopRightOrder(11)(RedTile(11, 1)))
  {
    forall u | u in ExampleTiles() && u != RedTile(11, 1) ensures !KeyLe(TopRightOrder(11)(u), TopRightOrder(11)(RedTile(11, 1))) {
      ExampleCases(u);
    }
  }

  /** (2,5) is strictly nearest the bottom left corner (0,7). */
  lemma ExampleBottomLeft()
    ensures Picks(ExampleTiles()).bottomLeft == RedTile(2, 5)
  {
    var tiles := ExampleTiles();
    ExampleMaxima();
    var key := BottomLeftOrder(7);
    forall u | u in tiles && u != tiles[5] ensures !KeyLe(key(u), key(tiles[5])) {
      ExampleCases(u);
    }
    PickedBottomLeft(tiles, tiles[5]);
  }

  /** (11,7) is strictly nearest the bottom right corner (11,7). */
  lemma ExampleBottomRight()
    ensures Picks(ExampleTiles()).bottomRight == RedTile(11, 7)
  {
    ExampleBottomRightNearest();
    ExampleMaxima();
    PickedBottomRight(ExampleTiles(), RedTile(11, 7));
  }

  lemma ExampleBottomRightNearest()
    ensures forall u :: u in ExampleTiles() && u != RedTile(11, 7) ==> !KeyLe(BottomRightOrder(11, 7)(u), BottomRightOrder(11, 7)(RedTile(11, 7)))
  {
    forall u | u in ExampleTiles() && u != RedTile(11, 7) ensures !KeyLe(BottomRightOrder(11, 7)(u), BottomRightOrder(11, 7)(RedTile(11, 7))) {
      ExampleCases(u);
    }
  }

  /** The worked example: the picks are (2,3), (11,1), (2,5) and (11,7), so both
      rectangles are 10 by 5. */
  lemma ExampleArea()
    ensures CornerArea(Picks(ExampleTiles())) == 50
  {
    ExampleTopLeft();
    ExampleTopRight();
    ExampleBottomLeft();
    ExampleBottomRight();
    var c := Picks(ExampleTiles());
    assert c == Corners(RedTile(2, 3), RedTile(11, 1), RedTile(2, 5), RedTile(11, 7));
  }
}
