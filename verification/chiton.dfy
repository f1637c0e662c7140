/** Day 15, the chiton cave: the priority order of the search states and the five-fold
    tiling of the risk map. The map is a `Grid.Grid` parsed by `Grid.Parse`, and its
    neighbours are `Grid.Neighbors4`; the search itself is in module Dijkstra. */
module Chiton {
  import opened Grid

  // ----- the heap order --------------------------------------------------------------

  /** A search state: a cell and the risk of reaching it. */
  datatype State = State(pos: nat, cost: nat)

  datatype Ordering = Less | Equal | Greater {
    function Flip(): Ordering {
      match this
      case Less => Greater
      case Equal => Equal
      case Greater => Less
    }
  }

  /** `Ord::cmp` on integers. */
  function CmpNat(a: nat, b: nat): Ordering {
    if a < b then Less else if a == b then Equal else Greater
  }

  /** `Ord for State`: costs compared the other way round, ties broken by position, so the
      max-heap pops the cheapest state first. */
  function Cmp(a: State, b: State): Ordering {
    match CmpNat(b.cost, a.cost)
    case Equal => CmpNat(a.pos, b.pos)
    case o => o
  }

  /** A state ranks above another exactly when it is cheaper, or as cheap at a larger
      position; it ranks equal only to itself, and swapping the two flips the answer. */
  lemma CmpSpec(a: State, b: State)
    ensures Cmp(a, b) == Greater <==> a.cost < b.cost || (a.cost == b.cost && a.pos > b.pos)
    ensures Cmp(a, b) == Equal <==> a == b
    ensures Cmp(b, a) == Cmp(a, b).Flip()
  {
  }

  /** The order is transitive. */
  lemma CmpTransitive(a: State, b: State, c: State)
    requires Cmp(a, b) != Less && Cmp(b, c) != Less
    ensures Cmp(a, c) != Less
    ensures Cmp(a, b) == Greater || Cmp(b, c) == Greater ==> Cmp(a, c) == Greater
  {
    CmpSpec(a, b);
    CmpSpec(b, c);
    CmpSpec(a, c);
  }

  // ----- tiling ------------------------------------------------------------------------

  /** `rolled_add`: add `i`, wrapping values above 9 back round to 1. */
  function RolledAdd(x: nat, i: nat): nat {
    if x + i <= 9 then x + i else x + i - 9
  }

  /** Adding 0 changes no digit, and two additions to a risk level 1..9 stay in 1..9 and
      add up modulo 9. */
  lemma RolledAddSpec(x: nat, i: nat, j: nat)
    ensures x <= 9 ==> RolledAdd(x, 0) == x
    ensures 1 <= x <= 9 && i <= 9 ==> 1 <= RolledAdd(x, i) <= 9 && RolledAdd(x, i) == (x - 1 + i) % 9 + 1
    ensures 1 <= x <= 9 && i <= 9 && j <= 9 ==> RolledAdd(RolledAdd(x, i), j) == (x - 1 + i + j) % 9 + 1
  {
    if 1 <= x <= 9 && i <= 9 && j <= 9 {
      var y := RolledAdd(x, i);
      assert y == (x - 1 + i) % 9 + 1;
      assert RolledAdd(y, j) == (y - 1 + j) % 9 + 1;
      assert (y - 1 + j) % 9 == (x - 1 + i + j) % 9 by {
        if x - 1 + i >= 9 {
          assert y - 1 == x - 1 + i - 9;
        }
      }
    }
  }

  /** Every value of `xs` rolled up by `i`. */
  function AddAll(xs: seq<nat>, i: nat): (ys: seq<nat>)
    ensures |ys| == |xs| && forall k :: 0 <= k < |xs| ==> ys[k] == RolledAdd(xs[k], i)
  {
    seq(|xs|, k requires 0 <= k < |xs| => RolledAdd(xs[k], i))
  }

  /** `flatten`: the parts one after another. */
  function Flatten<T>(parts: seq<seq<T>>): seq<T> {
    if |parts| == 0 then [] else parts[0] + Flatten(parts[1..])
  }

  /** Parts of equal length `len` put part k's element m at k * len + m. */
  lemma {:induction false} FlattenUniform<T>(parts: seq<seq<T>>, len: nat, k: nat, m: nat)
    requires forall q :: 0 <= q < |parts| ==> |parts[q]| == len
    requires k < |parts| && m < len
    ensures |Flatten(parts)| == |parts| * len
    ensures k * len + m < |Flatten(parts)| && Flatten(parts)[k * len + m] == parts[k][m]
  {
    FlattenLength(parts, len);
    if k > 0 {
      FlattenUniform(parts[1..], len, k - 1, m);
      assert k * len + m == len + ((k - 1) * len + m);
    }
  }

  lemma {:induction false} FlattenLength<T>(parts: seq<seq<T>>, len: nat)
    requires forall q :: 0 <= q < |parts| ==> |parts[q]| == len
    ensures |Flatten(parts)| == |parts| * len
  {
    if |parts| > 0 {
      FlattenLength(parts[1..], len);
      assert |parts| * len == len + (|parts| - 1) * len;
    }
  }

  /** a * size + b stays below count * size. */
  lemma Below(a: nat, b: nat, count: nat, size: nat)
    requires a < count && b < size
    ensures a * size + b < count * size
  {
    MulMono(count - a, size);
    assert (count - a) * size == count * size - a * size;
  }

  /** Row `row` of a well-formed grid lies inside its cells. */
  lemma RowInside(g: Grid, row: nat)
    requires WellFormed(g) && row < g.colLen
    ensures row * g.rowLen <= (row + 1) * g.rowLen <= |g.cells|
  {
    assert (row + 1) * g.rowLen == row * g.rowLen + g.rowLen;
    if g.rowLen > 0 {
      Below(row, g.rowLen - 1, g.colLen, g.rowLen);
    }
  }

  function RowCells(g: Grid, row: nat): (cells: seq<nat>)
    requires WellFormed(g) && row < g.colLen
    ensures |cells| == g.rowLen && forall c :: 0 <= c < g.rowLen ==> cells[c] == g.cells[row * g.rowLen + c]
  {
    RowInside(g, row);
    g.cells[row * g.rowLen..(row + 1) * g.rowLen]
  }

  /** The first loop of `tile` for one row: the row, rolled up by 0, 1, ..., n - 1. */
  function RowTiles(g: Grid, row: nat, n: nat): seq<nat>
    requires WellFormed(g) && row < g.colLen
  {
    Flatten(seq(n, i requires 0 <= i < n => AddAll(RowCells(g, row), i)))
  }

  lemma RowTilesLength(g: Grid, row: nat, n: nat)
    requires WellFormed(g) && row < g.colLen
    ensures |RowTiles(g, row, n)| == n * g.rowLen
  {
    FlattenLength(seq(n, i requires 0 <= i < n => AddAll(RowCells(g, row), i)), g.rowLen);
  }

  lemma RowTilesAt(g: Grid, row: nat, n: nat, j: nat, c: nat)
    requires WellFormed(g) && row < g.colLen && j < n && c < g.rowLen
    ensures j * g.rowLen + c < |RowTiles(g, row, n)|
    ensures RowTiles(g, row, n)[j * g.rowLen + c] == RolledAdd(g.cells[row * g.rowLen + c], j)
  {
    FlattenUniform(seq(n, i requires 0 <= i < n => AddAll(RowCells(g, row), i)), g.rowLen, j, c);
  }

  /** `y_tiler`: every row tiled `n` times to the right. */
  function YTiler(g: Grid, n: nat): seq<nat>
    requires WellFormed(g)
  {
    Flatten(seq(g.colLen, row requires 0 <= row < g.colLen => RowTiles(g, row, n)))
  }

  lemma YTilerAt(g: Grid, n: nat, row: nat, x: nat)
    requires WellFormed(g) && row < g.colLen && x < n * g.rowLen
    ensures |YTiler(g, n)| == g.colLen * (n * g.rowLen) && |RowTiles(g, row, n)| == n * g.rowLen
    ensures row * (n * g.rowLen) + x < |YTiler(g, n)|
    ensures YTiler(g, n)[row * (n * g.rowLen) + x] == RowTiles(g, row, n)[x]
  {
    var parts := seq(g.colLen, q requires 0 <= q < g.colLen => RowTiles(g, q, n));
    forall q | 0 <= q < g.colLen ensures |parts[q]| == n * g.rowLen {
      RowTilesLength(g, q, n);
    }
    FlattenUniform(parts, n * g.rowLen, row, x);
  }

  lemma YTilerLength(g: Grid, n: nat)
    requires WellFormed(g)
    ensures |YTiler(g, n)| == g.colLen * (n * g.rowLen)
  {
    var parts := seq(g.colLen, q requires 0 <= q < g.colLen => RowTiles(g, q, n));
    forall q | 0 <= q < g.colLen ensures |parts[q]| == n * g.rowLen {
      RowTilesLength(g, q, n);
    }
    FlattenLength(parts, n * g.rowLen);
  }

  /** `tile`: the widened rows, rolled up by 0, 1, ..., n - 1 and stacked. */
  function Tile(g: Grid, n: nat): Grid
    requires WellFormed(g)
  {
    var yTiler := YTiler(g, n);
    Grid(Flatten(seq(n, i requires 0 <= i < n => AddAll(yTiler, i))), g.rowLen * n, g.colLen * n)
  }

  lemma TileAt(g: Grid, n: nat, i: nat, y: nat)
    requires WellFormed(g) && i < n && y < |YTiler(g, n)|
    ensures |Tile(g, n).cells| == n * |YTiler(g, n)|
    ensures i * |YTiler(g, n)| + y < |Tile(g, n).cells|
    ensures Tile(g, n).cells[i * |YTiler(g, n)| + y] == RolledAdd(YTiler(g, n)[y], i)
  {
    var yTiler := YTiler(g, n);
    FlattenUniform(seq(n, q requires 0 <= q < n => AddAll(yTiler, q)), |yTiler|, i, y);
  }

  /** The tiled map is `n` times as wide and `n` times as tall. */
  lemma TileShape(g: Grid, n: nat)
    requires WellFormed(g)
    ensures var t := Tile(g, n);
            t.rowLen == g.rowLen * n && t.colLen == g.colLen * n
            && WellFormed(t) && |t.cells| == n * n * |g.cells|
  {
    var yTiler := YTiler(g, n);
    YTilerLength(g, n);
    FlattenLength(seq(n, q requires 0 <= q < n => AddAll(yTiler, q)), |yTiler|);
    Reorder(n, g.colLen, g.rowLen);
  }

  lemma Reorder(n: nat, colLen: nat, rowLen: nat)
    ensures n * (colLen * (n * rowLen)) == (colLen * n) * (rowLen * n) == n * n * (rowLen * colLen)
  {
  }

  lemma IndexSplit(n: nat, colLen: nat, rowLen: nat, i: nat, r: nat, x: nat)
    ensures (i * colLen + r) * (rowLen * n) + x == i * (colLen * (n * rowLen)) + (r * (n * rowLen) + x)
  {
    assert (i * colLen + r) * (rowLen * n) == i * colLen * (rowLen * n) + r * (rowLen * n);
  }

  /** Where cell c of row r of the tile i tiles down and j tiles across is stored. */
  function TileIndex(g: Grid, n: nat, i: nat, j: nat, r: nat, c: nat): nat {
    (i * g.colLen + r) * (g.rowLen * n) + j * g.rowLen + c
  }

  /** The stored position of a tiled cell: tile `i` down, then row `r`, then column
      `j * rowLen + c` of the widened row. */
  lemma TileIndexSplit(g: Grid, n: nat, i: nat, j: nat, r: nat, c: nat)
    requires i < n && j < n && r < g.colLen && c < g.rowLen
    ensures j * g.rowLen + c < n * g.rowLen
    ensures TileIndex(g, n, i, j, r, c)
            == i * (g.colLen * (n * g.rowLen)) + (r * (n * g.rowLen) + (j * g.rowLen + c))
  {
    Below(j, c, n, g.rowLen);
    IndexSplit(n, g.colLen, g.rowLen, i, r, j * g.rowLen + c);
  }

  /** Cell c of row r rolled up by j sits at column `j * rowLen + c` of row r of the widened
      rows. */
  lemma WidenedCell(g: Grid, n: nat, j: nat, r: nat, c: nat) returns (y: nat)
    requires WellFormed(g) && j < n && r < g.colLen && c < g.rowLen
    ensures r * g.rowLen + c < |g.cells| && y == r * (n * g.rowLen) + (j * g.rowLen + c)
    ensures |YTiler(g, n)| == g.colLen * (n * g.rowLen)
    ensures y < |YTiler(g, n)| && YTiler(g, n)[y] == RolledAdd(g.cells[r * g.rowLen + c], j)
  {
    Below(r, c, g.colLen, g.rowLen);
    Below(j, c, n, g.rowLen);
    RowTilesAt(g, r, n, j, c);
    YTilerAt(g, n, r, j * g.rowLen + c);
    y := Offset3(r, n, g.rowLen) + (j * g.rowLen + c);
  }

  /** `a * (b * c)`, which is never negative. */
  function Offset3(a: nat, b: nat, c: nat): nat {
    a * (b * c)
  }

  /** Cell c of row r in the tile i tiles down and j tiles across holds the original cell
      rolled up by j and then by i. */
  lemma TileCell(g: Grid, n: nat, i: nat, j: nat, r: nat, c: nat)
    requires WellFormed(g) && i < n && j < n && r < g.colLen && c < g.rowLen
    ensures r * g.rowLen + c < |g.cells|
    ensures TileIndex(g, n, i, j, r, c) < |Tile(g, n).cells|
    ensures Tile(g, n).cells[TileIndex(g, n, i, j, r, c)] == RolledAdd(RolledAdd(g.cells[r * g.rowLen + c], j), i)
  {
    var y := WidenedCell(g, n, j, r, c);
    TileIndexSplit(g, n, i, j, r, c);
    TileAtIndex(g, n, i, y, TileIndex(g, n, i, j, r, c));
  }

  lemma TileAtIndex(g: Grid, n: nat, i: nat, y: nat, index: nat)
    requires WellFormed(g) && i < n && y < |YTiler(g, n)| && index == i * |YTiler(g, n)| + y
    ensures index < |Tile(g, n).cells| && Tile(g, n).cells[index] == RolledAdd(YTiler(g, n)[y], i)
  {
    TileAt(g, n, i, y);
  }

  /** `tile(1)` is the map itself, as long as every cell is a digit. */
  lemma TileOnce(g: Grid)
    requires WellFormed(g) && forall p :: 0 <= p < |g.cells| ==> g.cells[p] <= 9
    ensures Tile(g, 1) == g
  {
    var t := Tile(g, 1);
    TileShape(g, 1);
    if g.rowLen > 0 {
      forall p | 0 <= p < |g.cells| ensures t.cells[p] == g.cells[p] {
        Coords(g.rowLen, g.colLen, p);
        var r, c := Row(g.rowLen, p), Col(g.rowLen, p);
        TileCell(g, 1, 0, 0, r, c);
        assert TileIndex(g, 1, 0, 0, r, c) == p;
        RolledAddSpec(g.cells[p], 0, 0);
      }
    }
    assert t.cells == g.cells;
  }

  /** Euclidean division of a natural number. */
  lemma Divide(a: nat, size: nat) returns (q: nat, r: nat)
    requires size > 0
    ensures a == q * size + r && r < size
  {
    q, r := a / size, a % size;
  }

  /** Which tile and which original cell a cell of the tiled map comes from. */
  lemma TileCoords(g: Grid, n: nat, p: nat) returns (i: nat, j: nat, r: nat, c: nat)
    requires WellFormed(g) && g.rowLen > 0 && p < |Tile(g, n).cells|
    ensures i < n && j < n && r < g.colLen && c < g.rowLen && p == TileIndex(g, n, i, j, r, c)
  {
    TileShape(g, n);
    var wide := g.rowLen * n;
    assert g.colLen > 0 && n > 0;
    var big, col := Divide(p, wide);
    j, c := Divide(col, g.rowLen);
    i, r := Divide(big, g.colLen);
    QuotientBelow(big, col, wide, g.colLen * n);
    assert g.colLen * n * wide == (g.colLen * n) * wide;
    QuotientBelow(i, r, g.colLen, n);
    QuotientBelow(j, c, g.rowLen, n);
  }

  lemma QuotientBelow(q: nat, r: nat, size: nat, count: nat)
    requires q * size + r < count * size
    ensures q < count
  {
  }

  /** A map of risk levels 1..9 tiles, up to ten times, into risk levels 1..9. */
  lemma TileRange(g: Grid, n: nat)
    requires WellFormed(g) && n <= 10
    requires forall p :: 0 <= p < |g.cells| ==> 1 <= g.cells[p] <= 9
    ensures var t := Tile(g, n); forall p :: 0 <= p < |t.cells| ==> 1 <= t.cells[p] <= 9
  {
    forall p | 0 <= p < |Tile(g, n).cells| ensures 1 <= Tile(g, n).cells[p] <= 9 {
      TileCellRange(g, n, p);
    }
  }

  lemma TileCellRange(g: Grid, n: nat, p: nat)
    requires WellFormed(g) && n <= 10 && p < |Tile(g, n).cells|
    requires forall p :: 0 <= p < |g.cells| ==> 1 <= g.cells[p] <= 9
    ensures 1 <= Tile(g, n).cells[p] <= 9
  {
    TileShape(g, n);
    var i, j, r, c, v := TileSource(g, n, p);
    assert 1 <= v <= 9;
    assert 1 <= RolledAdd(v, j) <= 9;
  }

  /** The original cell `v` a cell of the tiled map comes from, with the rolls applied to it. */
  lemma TileSource(g: Grid, n: nat, p: nat) returns (i: nat, j: nat, r: nat, c: nat, v: nat)
    requires WellFormed(g) && g.rowLen > 0 && p < |Tile(g, n).cells|
    ensures i < n && j < n && r * g.rowLen + c < |g.cells| && v == g.cells[r * g.rowLen + c]
    ensures Tile(g, n).cells[p] == RolledAdd(RolledAdd(v, j), i)
  {
    i, j, r, c := TileCoords(g, n, p);
    TileCell(g, n, i, j, r, c);
    v := g.cells[r * g.rowLen + c];
  }
}
