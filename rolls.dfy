/** Day 4 (2025/4/main.rs): a grid of paper rolls (`@`) and empty floor (`.`).
    A forklift can reach a roll when fewer than 4 of its 8 neighbours are rolls.
    Part 1 counts those rolls; part 2 removes them round after round until a
    round removes nothing, and counts everything removed. */
module Rolls {
  import opened Text
  import opened Arithmetic

  /** The grid, row by row; `true` is a roll (the source's 1), `false` is floor (0). */
  type Grid = seq<seq<bool>>

  /** Every row as long as the first one. */
  predicate Rectangular(g: Grid) {
    forall i :: 0 <= i < |g| ==> |g[i]| == |g[0]|
  }

  /** All rows of length `w`. */
  predicate RowsOfWidth(g: Grid, w: nat) {
    forall i :: 0 <= i < |g| ==> |g[i]| == w
  }

  /** `a` and `b` have the same rows and columns. */
  predicate SameShape(a: Grid, b: Grid) {
    |a| == |b| && forall i :: 0 <= i < |a| ==> |a[i]| == |b[i]|
  }

  /** `a` has the shape of `b` and every roll of `a` is a roll of `b`. */
  predicate SubGrid(a: Grid, b: Grid) {
    SameShape(a, b) && forall i, j :: 0 <= i < |a| && 0 <= j < |a[i]| && a[i][j] ==> b[i][j]
  }

  // ------------------------------------------------------------------ counting

  /** The number of rolls in a row. */
  function Count(row: seq<bool>): (n: nat)
    ensures n <= |row|
  {
    if row == [] then 0 else Count(row[..|row| - 1]) + (if row[|row| - 1] then 1 else 0)
  }

  /** The cells of the grid in row-major order. */
  function Flatten(g: Grid): seq<bool> {
    if g == [] then [] else g[0] + Flatten(g[1..])
  }

  /** The number of rolls in the grid. */
  function RollCount(g: Grid): nat {
    Count(Flatten(g))
  }

  lemma {:induction false} CountAppend(a: seq<bool>, b: seq<bool>)
    ensures Count(a + b) == Count(a) + Count(b)
    decreases |b|
  {
    if b != [] {
      var b' := b[..|b| - 1];
      assert (a + b)[..|a + b| - 1] == a + b';
      assert (a + b)[|a + b| - 1] == b[|b| - 1];
      CountAppend(a, b');
    } else {
      assert a + b == a;
    }
  }

  lemma {:induction false} FlattenAppendRow(g: Grid, row: seq<bool>)
    ensures Flatten(g + [row]) == Flatten(g) + row
  {
    if g == [] {
      assert Flatten([row]) == row + Flatten([]);
    } else {
      assert (g + [row])[1..] == g[1..] + [row];
      FlattenAppendRow(g[1..], row);
    }
  }

  /** The rolls of the first `i + 1` rows are those of the first `i` and of row `i`. */
  lemma RollCountStep(g: Grid, i: nat)
    requires i < |g|
    ensures RollCount(g[..i + 1]) == RollCount(g[..i]) + Count(g[i])
  {
    assert g[..i + 1] == g[..i] + [g[i]];
    FlattenAppendRow(g[..i], g[i]);
    CountAppend(Flatten(g[..i]), g[i]);
  }

  lemma {:induction false} FlattenLength(g: Grid, w: nat)
    requires RowsOfWidth(g, w)
    ensures |Flatten(g)| == |g| * w
  {
    if g != [] {
      FlattenLength(g[1..], w);
    }
  }

  /** Cells taken as the pointwise disjoint union of two rows are counted by
      adding the two counts. */
  lemma {:induction false} CountDisjointUnion(a: seq<bool>, b: seq<bool>, c: seq<bool>)
    requires |a| == |b| == |c|
    requires forall k :: 0 <= k < |c| ==> (c[k] <==> a[k] || b[k]) && !(a[k] && b[k])
    ensures Count(a) + Count(b) == Count(c)
    decreases |c|
  {
    if c != [] {
      var n := |c| - 1;
      CountDisjointUnion(a[..n], b[..n], c[..n]);
    }
  }

  lemma {:induction false} RollCountDisjointUnion(a: Grid, b: Grid, c: Grid)
    requires SameShape(a, c) && SameShape(b, c)
    requires forall i, j :: 0 <= i < |c| && 0 <= j < |c[i]| ==>
               (c[i][j] <==> a[i][j] || b[i][j]) && !(a[i][j] && b[i][j])
    ensures RollCount(a) + RollCount(b) == RollCount(c)
  {
    if c != [] {
      CountDisjointUnion(a[0], b[0], c[0]);
      RollCountDisjointUnion(a[1..], b[1..], c[1..]);
      CountAppend(a[0], Flatten(a[1..]));
      CountAppend(b[0], Flatten(b[1..]));
      CountAppend(c[0], Flatten(c[1..]));
    }
  }

  /** A subgrid has no more rolls, and exactly as many only when it is the grid. */
  lemma {:induction false} SubGridCount(a: Grid, b: Grid)
    requires SubGrid(a, b)
    ensures RollCount(a) <= RollCount(b)
    ensures RollCount(a) == RollCount(b) ==> a == b
  {
    var d := seq(|b|, i requires 0 <= i < |b| => seq(|b[i]|, j requires 0 <= j < |b[i]| => b[i][j] && !a[i][j]));
    RollCountDisjointUnion(a, d, b);
    if RollCount(a) == RollCount(b) {
      NoRolls(d);
      forall i | 0 <= i < |a|
        ensures a[i] == b[i]
      {
        assert forall j :: 0 <= j < |a[i]| ==> !d[i][j];
      }
    }
  }

  /** A grid without rolls is all floor. */
  lemma {:induction false} NoRolls(g: Grid)
    requires RollCount(g) == 0
    ensures forall i, j :: 0 <= i < |g| && 0 <= j < |g[i]| ==> !g[i][j]
  {
    if g != [] {
      CountAppend(g[0], Flatten(g[1..]));
      NoRollsInRow(g[0]);
      NoRolls(g[1..]);
      assert forall i :: 1 <= i < |g| ==> g[i] == g[1..][i - 1];
    }
  }

  lemma {:induction false} NoRollsInRow(row: seq<bool>)
    requires Count(row) == 0
    ensures forall j :: 0 <= j < |row| ==> !row[j]
  {
    if row != [] {
      NoRollsInRow(row[..|row| - 1]);
    }
  }

  // ---------------------------------------------------------------- neighbours

  /** A cell with zero padding: 1 for a roll inside the grid, 0 otherwise. */
  function Cell(g: Grid, r: int, c: int): nat {
    if 0 <= r < |g| && 0 <= c < |g[r]| && g[r][c] then 1 else 0
  }

  /** The non-zero entries of the kernel `[[1,1,1],[1,0,1],[1,1,1]]`, as offsets
      from its centre. */
  const NEIGHBOUR_OFFSETS: seq<(int, int)> := [(-1, -1), (-1, 0), (-1, 1), (0, -1), (0, 1), (1, -1), (1, 0), (1, 1)]

  /** The padded cells at the given offsets from `(r, c)`, added up. */
  function CountAt(g: Grid, r: int, c: int, offsets: seq<(int, int)>): (n: nat)
    ensures n <= |offsets|
  {
    if offsets == [] then 0
    else CountAt(g, r, c, offsets[..|offsets| - 1])
         + Cell(g, r + offsets[|offsets| - 1].0, c + offsets[|offsets| - 1].1)
  }

  /** The value of the zero-padded convolution with the kernel at `(r, c)`:
      the number of rolls among the 8 surrounding cells. */
  function Neighbours(g: Grid, r: int, c: int): (n: nat)
    ensures n <= 8
  {
    CountAt(g, r, c, NEIGHBOUR_OFFSETS)
  }

  lemma {:induction false} CountAtMonotone(a: Grid, b: Grid, r: int, c: int, offsets: seq<(int, int)>)
    requires SubGrid(a, b)
    ensures CountAt(a, r, c, offsets) <= CountAt(b, r, c, offsets)
  {
    if offsets != [] {
      CountAtMonotone(a, b, r, c, offsets[..|offsets| - 1]);
    }
  }

  /** More rolls around a cell never lower its neighbour count. */
  lemma NeighboursMonotone(a: Grid, b: Grid, r: int, c: int)
    requires SubGrid(a, b)
    ensures Neighbours(a, r, c) <= Neighbours(b, r, c)
  {
    CountAtMonotone(a, b, r, c, NEIGHBOUR_OFFSETS);
  }

  lemma {:induction false} CountAtIgnoresCentre(g: Grid, r: nat, c: nat, v: bool, offsets: seq<(int, int)>)
    requires r < |g| && c < |g[r]|
    requires forall k :: 0 <= k < |offsets| ==> offsets[k] != (0, 0)
    ensures CountAt(g[r := g[r][c := v]], r, c, offsets) == CountAt(g, r, c, offsets)
  {
    if offsets != [] {
      CountAtIgnoresCentre(g, r, c, v, offsets[..|offsets| - 1]);
    }
  }

  /** The kernel's centre is 0: a cell's own content does not count. */
  lemma NeighboursIgnoreCentre(g: Grid, r: nat, c: nat, v: bool)
    requires r < |g| && c < |g[r]|
    ensures Neighbours(g[r := g[r][c := v]], r, c) == Neighbours(g, r, c)
  {
    CountAtIgnoresCentre(g, r, c, v, NEIGHBOUR_OFFSETS);
  }

  lemma {:induction false} CountAtFar(g: Grid, r: int, c: int, offsets: seq<(int, int)>)
    requires forall k :: 0 <= k < |offsets| ==> -1 <= offsets[k].0 <= 1 && -1 <= offsets[k].1 <= 1
    requires r < -1 || r > |g|
    ensures CountAt(g, r, c, offsets) == 0
  {
    if offsets != [] {
      CountAtFar(g, r, c, offsets[..|offsets| - 1]);
    }
  }

  /** Zero padding: a cell two rows outside the grid sees no rolls. */
  lemma NeighboursOutside(g: Grid, r: int, c: int)
    requires r < -1 || r > |g|
    ensures Neighbours(g, r, c) == 0
  {
    CountAtFar(g, r, c, NEIGHBOUR_OFFSETS);
  }

  /** The convolution as the array of its values, one per cell. */
  function NeighbourCounts(g: Grid): (counts: seq<seq<nat>>)
    ensures |counts| == |g| && forall i :: 0 <= i < |g| ==> |counts[i]| == |g[i]|
    ensures forall i, j :: 0 <= i < |g| && 0 <= j < |g[i]| ==> counts[i][j] == Neighbours(g, i, j)
  {
    seq(|g|, i requires 0 <= i < |g| => seq(|g[i]|, j requires 0 <= j < |g[i]| => Neighbours(g, i, j)))
  }

  // ------------------------------------------------------------------ erosion

  /** A roll the forklift can reach: fewer than 4 neighbouring rolls. */
  predicate Accessible(g: Grid, i: nat, j: nat)
    requires i < |g| && j < |g[i]|
  {
    g[i][j] && Neighbours(g, i, j) < 4
  }

  /** One row after a round, given each cell's count of neighbouring rolls. */
  function KeptRow(cells: seq<bool>, counts: seq<nat>): (r: seq<bool>)
    requires |counts| == |cells|
    ensures |r| == |cells| && forall j :: 0 <= j < |cells| ==> r[j] == (cells[j] && counts[j] >= 4)
  {
    seq(|cells|, j requires 0 <= j < |cells| => cells[j] && counts[j] >= 4)
  }

  /** The rolls of one row that a round removes. */
  function RemovedRow(cells: seq<bool>, counts: seq<nat>): (r: seq<bool>)
    requires |counts| == |cells|
    ensures |r| == |cells| && forall j :: 0 <= j < |cells| ==> r[j] == (cells[j] && counts[j] < 4)
  {
    seq(|cells|, j requires 0 <= j < |cells| => cells[j] && counts[j] < 4)
  }

  /** The rolls left after one round: a roll stays iff it has at least 4 neighbouring
      rolls, floor stays floor. */
  function Erode(g: Grid): (r: Grid)
    ensures SubGrid(r, g)
    ensures forall i, j :: 0 <= i < |g| && 0 <= j < |g[i]| ==> (r[i][j] <==> g[i][j] && !Accessible(g, i, j))
  {
    var counts := NeighbourCounts(g);
    seq(|g|, i requires 0 <= i < |g| => KeptRow(g[i], counts[i]))
  }

  /** The rolls removed in one round. */
  function AccessibleMask(g: Grid): (m: Grid)
    ensures SameShape(m, g)
    ensures forall i, j :: 0 <= i < |g| && 0 <= j < |g[i]| ==> (m[i][j] <==> Accessible(g, i, j))
  {
    var counts := NeighbourCounts(g);
    seq(|g|, i requires 0 <= i < |g| => RemovedRow(g[i], counts[i]))
  }

  /** The number of rolls a forklift can reach (part 1). */
  function AccessibleCount(g: Grid): nat {
    RollCount(AccessibleMask(g))
  }

  /** A round removes exactly the accessible rolls: what stays plus what goes is
      what was there. */
  lemma ErodeCount(g: Grid)
    ensures RollCount(Erode(g)) + AccessibleCount(g) == RollCount(g)
  {
    RollCountDisjointUnion(Erode(g), AccessibleMask(g), g);
  }

  /** A round that removes nothing changes nothing, and one that changes nothing
      removed nothing. */
  lemma ErodeFixpoint(g: Grid)
    ensures Erode(g) == g <==> AccessibleCount(g) == 0
  {
    ErodeCount(g);
    if AccessibleCount(g) == 0 {
      SubGridCount(Erode(g), g);
    }
  }

  /** The rolls left when rounds are repeated until one removes nothing. */
  function Settled(g: Grid): (s: Grid)
    decreases RollCount(g)
  {
    if AccessibleCount(g) == 0 then g
    else
      ErodeCount(g);
      Settled(Erode(g))
  }

  /** The rolls removed over all rounds (part 2). */
  function TotalRemoved(g: Grid): nat
    decreases RollCount(g)
  {
    if AccessibleCount(g) == 0 then 0
    else
      ErodeCount(g);
      AccessibleCount(g) + TotalRemoved(Erode(g))
  }

  lemma SubGridTransitive(a: Grid, b: Grid, c: Grid)
    requires SubGrid(a, b) && SubGrid(b, c)
    ensures SubGrid(a, c)
  {
  }

  /** The settled grid is part of the original one, no roll in it is accessible,
      and the rolls removed over all rounds are the ones that are not in it. */
  lemma {:induction false} SettledMeaning(g: Grid)
    ensures SubGrid(Settled(g), g)
    ensures AccessibleCount(Settled(g)) == 0
    ensures TotalRemoved(g) == RollCount(g) - RollCount(Settled(g))
    decreases RollCount(g)
  {
    if AccessibleCount(g) != 0 {
      ErodeCount(g);
      SettledMeaning(Erode(g));
      SubGridTransitive(Settled(Erode(g)), Erode(g), g);
    }
  }

  /** A roll whose neighbours are all in `h` and that has at least 4 of them in
      `h` survives a round on any grid containing `h`. */
  lemma StableSurvives(h: Grid, g: Grid)
    requires SubGrid(h, g)
    requires forall i, j :: 0 <= i < |h| && 0 <= j < |h[i]| && h[i][j] ==> Neighbours(h, i, j) >= 4
    ensures SubGrid(h, Erode(g))
  {
    forall i, j | 0 <= i < |h| && 0 <= j < |h[i]| && h[i][j]
      ensures Erode(g)[i][j]
    {
      NeighboursMonotone(h, g, i, j);
    }
  }

  /** The settled grid is the largest arrangement inside the original one in which
      every roll has at least 4 neighbouring rolls: any other such arrangement is
      contained in it. */
  lemma {:induction false} SettledIsLargestStable(h: Grid, g: Grid)
    requires SubGrid(h, g)
    requires forall i, j :: 0 <= i < |h| && 0 <= j < |h[i]| && h[i][j] ==> Neighbours(h, i, j) >= 4
    ensures SubGrid(h, Settled(g))
    decreases RollCount(g)
  {
    if AccessibleCount(g) != 0 {
      ErodeCount(g);
      StableSurvives(h, g);
      SettledIsLargestStable(h, Erode(g));
    }
  }

  /** `get_num_directly_accessible_rolls`: the rolls left after one round and the
      number removed. */
  method DirectlyAccessible(rolls: Grid) returns (remaining: Grid, removed: nat)
    ensures remaining == Erode(rolls)
    ensures removed == AccessibleCount(rolls)
  {
    var convolution := NeighbourCounts(rolls);
    ghost var mask := AccessibleMask(rolls);
    remaining := [];
    removed := 0;
    for i := 0 to |rolls|
      invariant |remaining| == i && forall k :: 0 <= k < i ==> remaining[k] == Erode(rolls)[k]
      invariant removed == RollCount(mask[..i])
    {
      var row, removedInRow := ErodeRow(rolls[i], convolution[i]);
      RollCountStep(mask, i);
      remaining := remaining + [row];
      removed := removed + removedInRow;
    }
    assert mask[..|rolls|] == mask;
  }

  /** One row of the `map_collect` over the convolution zipped with the grid: a
      roll with at least 4 neighbouring rolls stays, any other roll is removed and
      counted. */
  method ErodeRow(cells: seq<bool>, counts: seq<nat>) returns (row: seq<bool>, removed: nat)
    requires |counts| == |cells|
    ensures row == KeptRow(cells, counts) && removed == Count(RemovedRow(cells, counts))
  {
    ghost var mask := RemovedRow(cells, counts);
    row := [];
    removed := 0;
    for j := 0 to |cells|
      invariant |row| == j && forall k :: 0 <= k < j ==> row[k] == (cells[k] && counts[k] >= 4)
      invariant removed == Count(mask[..j])
    {
      CountSnoc(mask, j);
      if cells[j] && counts[j] >= 4 {
        row := row + [true];
      } else {
        if cells[j] {
          removed := removed + 1;
        }
        row := row + [false];
      }
    }
    assert mask[..|mask|] == mask;
  }

  lemma CountSnoc(mask: seq<bool>, j: nat)
    requires j < |mask|
    ensures Count(mask[..j + 1]) == Count(mask[..j]) + if mask[j] then 1 else 0
  {
    assert mask[..j + 1][..j] == mask[..j];
  }

  /** `get_num_accessible_rolls`: rounds until one removes nothing, summing the
      rolls removed. */
  method AccessibleRolls(rolls: Grid) returns (total: nat)
    ensures total == TotalRemoved(rolls)
  {
    var remaining := rolls;
    total := 0;
    while true
      invariant total + TotalRemoved(remaining) == TotalRemoved(rolls)
      decreases RollCount(remaining)
    {
      ghost var previous := remaining;
      var next, removed := DirectlyAccessible(remaining);
      ErodeCount(previous);
      remaining := next;
      total := total + removed;
      if removed == 0 {
        break;
      }
    }
  }

  // ------------------------------------------------------------------- parsing

  /** The cells of the trimmed text in order: `.` is floor, `@` a roll, a newline
      is no cell; any other character has no meaning (the source panics). */
  function Cells(t: string): (r: Option<seq<bool>>)
    ensures r.Some? ==> |r.value| + NewlineCount(t) == |t|
  {
    if t == [] then Some([])
    else
      var init, c := Cells(t[..|t| - 1]), t[|t| - 1];
      if init.None? then None
      else if c == '.' then Some(init.value + [false])
      else if c == '@' then Some(init.value + [true])
      else if c == '\n' then init
      else None
  }

  /** The number of newlines: one fewer than the rows. */
  function NewlineCount(t: string): (n: nat)
    ensures n <= |t|
  {
    if t == [] then 0 else NewlineCount(t[..|t| - 1]) + (if t[|t| - 1] == '\n' then 1 else 0)
  }

  /** A character that is none of `.`, `@` and newline spoils the whole text. */
  lemma {:induction false} CellsStop(t: string, k: nat)
    requires k < |t| && t[k] != '.' && t[k] != '@' && t[k] != '\n'
    ensures Cells(t) == None
    decreases |t|
  {
    if k < |t| - 1 {
      CellsStop(t[..|t| - 1], k);
    }
  }

  /** One more character of the text: a cell, a newline, or the end of the parse. */
  lemma CellsStep(t: string, k: nat)
    requires k < |t|
    ensures Cells(t[..k + 1]) == if Cells(t[..k]).None? then None
                                 else if t[k] == '.' then Some(Cells(t[..k]).value + [false])
                                 else if t[k] == '@' then Some(Cells(t[..k]).value + [true])
                                 else if t[k] == '\n' then Cells(t[..k])
                                 else None
    ensures NewlineCount(t[..k + 1]) == NewlineCount(t[..k]) + (if t[k] == '\n' then 1 else 0)
  {
    assert t[..k + 1][..k] == t[..k];
  }

  lemma {:induction false} CellsAppend(a: string, b: string)
    ensures Cells(a + b) == if Cells(a).Some? && Cells(b).Some? then Some(Cells(a).value + Cells(b).value) else None
    ensures NewlineCount(a + b) == NewlineCount(a) + NewlineCount(b)
    decreases |b|
  {
    if b != [] {
      var b' := b[..|b| - 1];
      assert (a + b)[..|a + b| - 1] == a + b';
      assert (a + b)[|a + b| - 1] == b[|b| - 1];
      CellsAppend(a, b');
      if Cells(a).Some? && Cells(b').Some? {
        var x, y := Cells(a).value, Cells(b').value;
        assert forall v: bool :: x + y + [v] == x + (y + [v]);
      }
    } else {
      assert a + b == a;
      assert Cells(a).Some? ==> Cells(a).value + [] == Cells(a).value;
    }
  }

  /** `into_shape_with_order((rows, columns))`: the cells cut, in order, into
      `rows` rows of `columns` cells. */
  function Reshape(cells: seq<bool>, columns: nat, rows: nat): (g: Grid)
    requires |cells| == rows * columns
    ensures |g| == rows && RowsOfWidth(g, columns)
    ensures Flatten(g) == cells
  {
    if rows == 0 then []
    else
      assert |cells| == columns + (rows - 1) * columns;
      [cells[..columns]] + Reshape(cells[columns..], columns, rows - 1)
  }

  /** Reshaping the cells of a grid to its own shape gives the grid back. */
  lemma {:induction false} ReshapeFlatten(g: Grid, w: nat)
    requires RowsOfWidth(g, w)
    ensures |Flatten(g)| == |g| * w
    ensures Reshape(Flatten(g), w, |g|) == g
  {
    FlattenLength(g, w);
    if g != [] {
      ReshapeFlatten(g[1..], w);
    }
  }

  /** The shape check of `into_shape_with_order`: the grid when the cells fill
      `rows` rows of `columns` exactly, nothing otherwise. */
  function Shape(cells: seq<bool>, rows: nat, columns: nat): Option<Grid> {
    if rows * columns == |cells| then Some(Reshape(cells, columns, rows)) else None
  }

  /** `rows * (n / rows) == n` exactly when `rows` divides `n`. */
  lemma DividesExactly(n: nat, rows: nat)
    requires rows > 0
    ensures rows * (n / rows) == n <==> n % rows == 0
  {
    assert n == rows * (n / rows) + n % rows;
  }

  /** The grid of a trimmed text, with the column count taken from the text itself:
      its length less its newlines, divided by the rows. */
  function GridOfText(t: string): Option<Grid> {
    var rows := NewlineCount(t) + 1;
    match Cells(t)
    case None => None
    case Some(cells) =>
      var columns := Quotient(|t| - (rows - 1), rows);
      Shape(cells, rows, columns)
  }

  /** A text is a grid exactly when all its characters are cells or newlines and
      the rows divide the cells evenly; the grid then has one row more than the
      text has newlines, all rows alike, and the text's cells in order. */
  lemma GridOfTextMeaning(t: string)
    ensures GridOfText(t).Some? <==> Cells(t).Some? && |Cells(t).value| % (NewlineCount(t) + 1) == 0
    ensures GridOfText(t).Some? ==>
              var g := GridOfText(t).value;
              |g| == NewlineCount(t) + 1 && Rectangular(g) && Flatten(g) == Cells(t).value
  {
    if Cells(t).Some? {
      QuotientIsDivision(|Cells(t).value|, NewlineCount(t) + 1);
      DividesExactly(|Cells(t).value|, NewlineCount(t) + 1);
    }
  }

  /** `parse_input` with the column count corrected: the rows of the trimmed input. */
  function ParseGrid(input: string): Option<Grid> {
    GridOfText(Trim(input))
  }

  /** The grid of a trimmed text as the source computes it from the length `len`
      of the UNTRIMMED input: one character per row is subtracted, which needs
      `len >= rows` (a `usize` subtraction). */
  function GridOfTextAsWritten(t: string, len: nat): Option<Grid> {
    var rows := NewlineCount(t) + 1;
    match Cells(t)
    case None => None
    case Some(cells) =>
      if len < rows then None
      else
        var columns := Quotient(len - rows, rows);
        Shape(cells, rows, columns)
  }

  /** `parse_input` as written. */
  function ParseGridAsWritten(input: string): Option<Grid> {
    GridOfTextAsWritten(Trim(input), |input|)
  }

  /** The text of a grid: one line of `@` and `.` per row, joined by newlines. */
  function RowText(row: seq<bool>): (t: string)
    ensures |t| == |row|
  {
    seq(|row|, j requires 0 <= j < |row| => if row[j] then '@' else '.')
  }

  function Render(g: Grid): string {
    Join(seq(|g|, i requires 0 <= i < |g| => RowText(g[i])), '\n')
  }

  lemma {:induction false} RowTextCells(row: seq<bool>)
    ensures Cells(RowText(row)) == Some(row) && NewlineCount(RowText(row)) == 0
    decreases |row|
  {
    if row != [] {
      var n := |row| - 1;
      assert RowText(row)[..n] == RowText(row[..n]);
      RowTextCells(row[..n]);
      assert row[..n] + [row[n]] == row;
    }
  }

  lemma {:induction false} RenderCells(g: Grid)
    requires g != []
    ensures Cells(Render(g)) == Some(Flatten(g))
    ensures NewlineCount(Render(g)) == |g| - 1
    ensures |Render(g)| == |Flatten(g)| + |g| - 1
  {
    var texts := seq(|g|, i requires 0 <= i < |g| => RowText(g[i]));
    RowTextCells(g[0]);
    if |g| == 1 {
      assert Render(g) == texts[0];
      assert Flatten(g) == g[0] + Flatten([]);
      assert g[0] + [] == g[0];
    } else {
      var rest := g[1..];
      assert texts[1..] == seq(|rest|, i requires 0 <= i < |rest| => RowText(rest[i]));
      RenderCells(rest);
      assert Render(g) == RowText(g[0]) + ("\n" + Render(rest));
      assert Cells("\n") == Some([]) && NewlineCount("\n") == 1;
      CellsAppend("\n", Render(rest));
      CellsAppend(RowText(g[0]), "\n" + Render(rest));
      assert [] + Flatten(rest) == Flatten(rest);
    }
  }

  /** The text of a grid with at least one row and one column neither starts
      nor ends with whitespace. */
  lemma RenderEnds(g: Grid)
    requires g != [] && RowsOfWidth(g, |g[0]|) && |g[0]| >= 1
    ensures Render(g) != [] && !IsWhitespace(Render(g)[0]) && !IsWhitespace(Render(g)[|Render(g)| - 1])
  {
    var texts := seq(|g|, i requires 0 <= i < |g| => RowText(g[i]));
    JoinEnds(texts, '\n');
  }

  /** Where the cells of a text fill `w` columns exactly, its grid has `w` columns. */
  lemma GridOfTextFits(t: string, cells: seq<bool>, w: nat)
    requires Cells(t) == Some(cells) && |cells| == (NewlineCount(t) + 1) * w
    ensures GridOfText(t) == Some(Reshape(cells, w, NewlineCount(t) + 1))
  {
    var rows := NewlineCount(t) + 1;
    QuotientExact(|cells|, rows, w);
    GridOfTextShape(t, cells, rows, w);
  }

  /** Parsing the text of a grid, with or without a final newline, gives the grid back. */
  lemma ParseRender(g: Grid)
    requires g != [] && RowsOfWidth(g, |g[0]|) && |g[0]| >= 1
    ensures ParseGrid(Render(g)) == Some(g)
    ensures ParseGrid(Render(g) + "\n") == Some(g)
  {
    var w := |g[0]|;
    RenderEnds(g);
    RenderCells(g);
    ReshapeFlatten(g, w);
    TrimUntouched(Render(g));
    TrimOneTrailing(Render(g), '\n');
    GridOfTextFits(Render(g), Flatten(g), w);
  }

  /** Where trimming removed between one character (the usual final newline) and
      as many characters as the text has rows, the source's rounded-down column
      count is the corrected one. */
  lemma AsWrittenAgrees(input: string)
    requires |Trim(input)| < |input| <= |Trim(input)| + NewlineCount(Trim(input)) + 1
    ensures ParseGridAsWritten(input) == ParseGrid(input)
  {
    GridOfTextRoundsDown(Trim(input), |input|);
  }

  /** `AsWrittenAgrees` on the trimmed text and the untrimmed length. */
  lemma GridOfTextRoundsDown(t: string, len: nat)
    requires |t| < len <= |t| + NewlineCount(t) + 1
    ensures GridOfTextAsWritten(t, len) == GridOfText(t)
  {
    var rows := NewlineCount(t) + 1;
    if Cells(t).Some? {
      var cells := Cells(t).value;
      var extra: nat := len - |t| - 1;
      assert |t| - (rows - 1) == |cells|;
      assert len - rows == |cells| + extra;
      GridOfTextShape(t, cells, rows, Quotient(|t| - (rows - 1), rows));
      AsWrittenShape(t, len, cells, rows, Quotient(len - rows, rows));
      ShapeRoundsDown(cells, rows, extra);
    }
  }

  /** Up to `rows - 1` extra cells, rounded down by the division, give the same shape. */
  lemma ShapeRoundsDown(cells: seq<bool>, rows: nat, extra: nat)
    requires 0 < rows && extra < rows
    ensures Shape(cells, rows, Quotient(|cells| + extra, rows)) == Shape(cells, rows, Quotient(|cells|, rows))
  {
    QuotientRoundsDown(|cells|, rows, extra);
  }

  lemma QuotientRoundsDown(c: nat, rows: nat, extra: nat)
    requires 0 < rows && extra < rows
    ensures rows * Quotient(c + extra, rows) == c <==> rows * Quotient(c, rows) == c
    ensures rows * Quotient(c, rows) == c ==> Quotient(c + extra, rows) == Quotient(c, rows)
  {
    var q1, q2 := Quotient(c, rows), Quotient(c + extra, rows);
    QuotientIsDivision(c, rows);
    QuotientIsDivision(c + extra, rows);
    if rows * q1 == c {
      MulCommutes(rows, q1);
      DivisionUnique(c + extra, rows, q1, extra);
    } else if rows * q2 == c {
      MulCommutes(rows, q2);
      DivisionUnique(c, rows, q2, 0);
    }
  }

  /** Any length short of one more than the trimmed text leaves too few columns:
      `rows * columns` is at most the length less the rows, below the cell count. */
  lemma AsWrittenShort(t: string, len: nat)
    requires Cells(t).Some? && len <= |t|
    ensures GridOfTextAsWritten(t, len) == None
  {
    var rows := NewlineCount(t) + 1;
    if len >= rows {
      QuotientBound(len - rows, rows);
    }
  }

  /** Without a final newline the source rejects every grid: the untrimmed length
      is one short of what its formula expects, so the columns come out one too few
      and the reshape fails. */
  lemma AsWrittenRejectsUnterminated(g: Grid)
    requires g != [] && RowsOfWidth(g, |g[0]|) && |g[0]| >= 1
    ensures ParseGridAsWritten(Render(g)) == None
  {
    RenderEnds(g);
    RenderCells(g);
    TrimUntouched(Render(g));
    AsWrittenShort(Render(g), |Render(g)|);
  }

  /** Concretely: the 2 by 2 grid of rolls written without a final newline. */
  lemma AsWrittenCounterexample()
    ensures ParseGridAsWritten("@@\n@@") == None
    ensures ParseGrid("@@\n@@") == Some([[true, true], [true, true]])
  {
    var g := [[true, true], [true, true]];
    var texts := seq(|g|, i requires 0 <= i < |g| => RowText(g[i]));
    assert RowText(g[0]) == "@@" && RowText(g[1]) == "@@";
    assert texts == ["@@", "@@"];
    assert Join(texts, '\n') == "@@" + "\n" + Join(["@@"], '\n');
    assert Render(g) == "@@\n@@";
    AsWrittenRejectsUnterminated(g);
    ParseRender(g);
  }

  /** The pass of `parse_input` over the trimmed text: cells are collected and
      newlines counted into `rows`, which starts at 1; any other character stops
      the parse (the source panics). */
  method ScanCells(t: string) returns (cells: Option<seq<bool>>, rows: nat)
    ensures cells == Cells(t)
    ensures cells.Some? ==> rows == NewlineCount(t) + 1
  {
    rows := 1;
    var collected: seq<bool> := [];
    for k := 0 to |t|
      invariant rows == NewlineCount(t[..k]) + 1
      invariant Cells(t[..k]) == Some(collected)
    {
      CellsStep(t, k);
      var c := t[k];
      if c == '.' {
        collected := collected + [false];
      } else if c == '@' {
        collected := collected + [true];
      } else if c == '\n' {
        rows := rows + 1;
      } else {
        CellsStop(t, k);
        return None, rows;
      }
    }
    assert t[..|t|] == t;
    cells := Some(collected);
  }

  /** `parse_input`, with the corrected column count: the trimmed input scanned,
      then its cells cut into rows. */
  method ParseInput(input: string) returns (rolls: Option<Grid>)
    ensures rolls == ParseGrid(input)
  {
    var t := Trim(input);
    var cells, rows := ScanCells(t);
    if cells.None? {
      return None;
    }
    var columns := Quotient(|t| - (rows - 1), rows);
    GridOfTextShape(t, cells.value, rows, columns);
    rolls := Shape(cells.value, rows, columns);
  }

  /** `GridOfTextAsWritten` unfolded once, where the length covers the rows. */
  lemma AsWrittenShape(t: string, len: nat, cells: seq<bool>, rows: nat, columns: nat)
    requires Cells(t) == Some(cells) && rows == NewlineCount(t) + 1 && len >= rows && columns == Quotient(len - rows, rows)
    ensures GridOfTextAsWritten(t, len) == Shape(cells, rows, columns)
  {
  }

  lemma GridOfTextShape(t: string, cells: seq<bool>, rows: nat, columns: nat)
    requires Cells(t) == Some(cells) && rows == NewlineCount(t) + 1 && columns == Quotient(|t| - (rows - 1), rows)
    ensures GridOfText(t) == Shape(cells, rows, columns)
  {
    assert |t| - (rows - 1) == |cells|;
  }
}
