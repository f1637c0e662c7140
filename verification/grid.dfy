/** The digit grid shared by the height map (day 9), the octopus grid (day 11) and the
    risk map (day 15): rows of ASCII digits parsed into one flat row-major sequence, and the
    4- and 8-neighbour relations on flat indices that never wrap across a row edge.
    The three days each carry their own copy of this code in the repository; the copies
    are identical except for the cell type, so the model states them once. */
module Grid {
  import opened Wrappers
  import opened Text

  /** Why a grid does not parse, with the row (and position) where it failed. */
  datatype ParseError = EmptyInput | InvalidChar(row: nat, pos: nat) | InvalidRowLength(row: nat)

  /** Flat storage of a rectangular grid: cell (r, c) is `cells[r * rowLen + c]`. */
  datatype Grid = Grid(cells: seq<nat>, rowLen: nat, colLen: nat)

  predicate WellFormed(g: Grid) {
    |g.cells| == g.rowLen * g.colLen
  }

  // ----- row-major coordinates -------------------------------------------------------

  function Row(rowLen: nat, p: nat): nat
    requires rowLen > 0
  {
    p / rowLen
  }

  function Col(rowLen: nat, p: nat): nat
    requires rowLen > 0
  {
    p % rowLen
  }

  lemma MulMono(k: int, n: int)
    requires n > 0
    ensures k >= 1 ==> k * n >= n
    ensures k <= -1 ==> k * n <= -n
  {
  }

  /** Quotient and remainder are unique: the Euclidean decomposition of `a`. */
  lemma DivMod(a: int, n: int, q: int, r: int)
    requires n > 0 && a == q * n + r && 0 <= r < n
    ensures a / n == q && a % n == r
  {
    var q0, r0 := a / n, a % n;
    assert (q0 - q) * n == r - r0;
    MulMono(q0 - q, n);
  }

  /** The facts about a cell's own coordinates that the neighbour code relies on. */
  lemma Coords(rowLen: nat, colLen: nat, pos: nat)
    requires rowLen > 0
    ensures pos == Row(rowLen, pos) * rowLen + Col(rowLen, pos)
    ensures pos < rowLen * colLen <==> Row(rowLen, pos) < colLen
    ensures pos >= rowLen <==> Row(rowLen, pos) >= 1
    ensures colLen > 0 ==> (pos >= rowLen * (colLen - 1) <==> Row(rowLen, pos) >= colLen - 1)
  {
    var r := Row(rowLen, pos);
    MulMono(colLen - r, rowLen);
    assert (colLen - r) * rowLen == colLen * rowLen - r * rowLen;
    MulMono(r, rowLen);
    MulMono(colLen - 1 - r, rowLen);
    assert (colLen - 1 - r) * rowLen == (colLen - 1) * rowLen - r * rowLen;
  }

  /** An index is inside an `rowLen` by `colLen` grid exactly when its row is. */
  lemma InBounds(rowLen: nat, colLen: nat, p: nat)
    requires rowLen > 0
    ensures p < rowLen * colLen <==> Row(rowLen, p) < colLen
  {
    Coords(rowLen, colLen, p);
  }

  /** The step that leads from cell `p` to cell `q`. */
  function OffsetOf(rowLen: nat, p: nat, q: nat): Offset
    requires rowLen > 0
  {
    Offset(Row(rowLen, q) - Row(rowLen, p), Col(rowLen, q) - Col(rowLen, p))
  }

  /** `p` and `q` are horizontal or vertical neighbours. */
  predicate Adjacent4(rowLen: nat, p: nat, q: nat)
    requires rowLen > 0
  {
    OffsetOf(rowLen, p, q) in ORTHOGONAL
  }

  /** `p` and `q` are distinct cells that touch, diagonals included. */
  predicate Adjacent8(rowLen: nat, p: nat, q: nat)
    requires rowLen > 0
  {
    OffsetOf(rowLen, p, q) in SURROUNDING
  }

  predicate Distinct<T(==)>(s: seq<T>) {
    forall i, j :: 0 <= i < j < |s| ==> s[i] != s[j]
  }

  /** A step of `dr` rows and `dc` columns. */
  datatype Offset = Offset(dr: int, dc: int)

  /** The four axis-aligned steps, in the order day 9 and day 15 try them. */
  const ORTHOGONAL: seq<Offset> := [Offset(0, -1), Offset(0, 1), Offset(-1, 0), Offset(1, 0)]

  /** The eight surrounding steps, in the order day 11 tries them. */
  const SURROUNDING: seq<Offset> :=
    [Offset(0, -1), Offset(-1, -1), Offset(1, -1), Offset(0, 1), Offset(-1, 1), Offset(1, 1),
     Offset(-1, 0), Offset(1, 0)]

  /** The cell one step `o` away from `pos`, if that cell is on the grid. */
  function Toward(rowLen: nat, colLen: nat, pos: nat, o: Offset): (ns: seq<nat>)
    requires rowLen > 0
    ensures |ns| <= 1
  {
    var r, c := Row(rowLen, pos) + o.dr, Col(rowLen, pos) + o.dc;
    if 0 <= r < colLen && 0 <= c < rowLen then [r * rowLen + c] else []
  }

  /** The cells reached by each step of `os` that stay on the grid, in order. */
  function TowardAll(rowLen: nat, colLen: nat, pos: nat, os: seq<Offset>): seq<nat>
    requires rowLen > 0
    decreases |os|
  {
    if |os| == 0 then [] else Toward(rowLen, colLen, pos, os[0]) + TowardAll(rowLen, colLen, pos, os[1..])
  }

  lemma TowardFacts(rowLen: nat, colLen: nat, pos: nat, o: Offset)
    requires rowLen > 0
    ensures forall q: nat :: q in Toward(rowLen, colLen, pos, o) <==>
              q < rowLen * colLen && OffsetOf(rowLen, pos, q) == o
  {
    var r, c := Row(rowLen, pos) + o.dr, Col(rowLen, pos) + o.dc;
    if 0 <= r < colLen && 0 <= c < rowLen {
      DivMod(r * rowLen + c, rowLen, r, c);
      Coords(rowLen, colLen, r * rowLen + c);
    }
    forall q: nat | q < rowLen * colLen && OffsetOf(rowLen, pos, q) == o
      ensures q in Toward(rowLen, colLen, pos, o)
    {
      Coords(rowLen, colLen, q);
    }
  }

  /** The cells reached from `pos` by distinct steps are distinct, and they are exactly
      the on-grid cells whose offset from `pos` is one of the steps. */
  lemma {:induction false} TowardAllFacts(rowLen: nat, colLen: nat, pos: nat, os: seq<Offset>)
    requires rowLen > 0 && Distinct(os)
    ensures var ns := TowardAll(rowLen, colLen, pos, os);
            |ns| <= |os| && Distinct(ns)
            && forall q: nat :: q in ns <==>
                 q < rowLen * colLen && OffsetOf(rowLen, pos, q) in os
    decreases |os|
  {
    if |os| > 0 {
      TowardFacts(rowLen, colLen, pos, os[0]);
      TowardAllFacts(rowLen, colLen, pos, os[1..]);
      var head := Toward(rowLen, colLen, pos, os[0]);
      var rest := TowardAll(rowLen, colLen, pos, os[1..]);
      assert forall q: nat :: q in head ==> q !in rest by {
        forall q: nat | q in head ensures q !in rest {
          assert os[0] !in os[1..] by {
            forall k | 0 <= k < |os[1..]| ensures os[1..][k] != os[0] {
              assert os[1..][k] == os[k + 1];
            }
          }
        }
      }
      assert forall o :: o in os <==> o == os[0] || o in os[1..] by {
        assert os == [os[0]] + os[1..];
      }
      DistinctConcat(head, rest);
    }
  }

  /** `iter().rev()` collected. */
  function Reversed<T>(s: seq<T>): (r: seq<T>)
    ensures |r| == |s|
    ensures forall k :: 0 <= k < |s| ==> r[k] == s[|s| - 1 - k]
  {
    seq(|s|, k requires 0 <= k < |s| => s[|s| - 1 - k])
  }

  /** Reversing keeps every entry, as often as it was there. */
  lemma {:induction false} ReversedPermutes<T>(s: seq<T>)
    ensures multiset(Reversed(s)) == multiset(s)
  {
    if |s| > 0 {
      var front := s[..|s| - 1];
      ReversedPermutes(front);
      assert Reversed(s) == [s[|s| - 1]] + Reversed(front);
      assert s == front + [s[|s| - 1]];
    }
  }

  lemma DistinctConcat<T>(a: seq<T>, b: seq<T>)
    requires Distinct(a) && Distinct(b) && forall x :: x in a ==> x !in b
    ensures Distinct(a + b)
  {
    forall i, j | 0 <= i < j < |a + b| ensures (a + b)[i] != (a + b)[j] {
      if j >= |a| && i < |a| {
        assert (a + b)[i] in a && (a + b)[j] == b[j - |a|];
      }
    }
  }

  // ----- neighbours -------------------------------------------------------------------

  /** `get_neighbors` of days 9 and 15: left, right, up, down, each only if it exists. */
  function Neighbors4(rowLen: nat, colLen: nat, pos: nat): (ns: seq<nat>)
    requires rowLen > 0 && colLen > 0 && pos < rowLen * colLen
    ensures ns == TowardAll(rowLen, colLen, pos, ORTHOGONAL)
  {
    var left := if pos % rowLen != 0 then [pos - 1] else [];
    var right := if pos % rowLen != rowLen - 1 then [pos + 1] else [];
    var up := if pos >= rowLen then [pos - rowLen] else [];
    var down := if pos / rowLen < colLen - 1 then [pos + rowLen] else [];
    Neighbors4Pieces(rowLen, colLen, pos);
    TowardAllOrthogonal(rowLen, colLen, pos);
    left + right + up + down
  }

  /** Each branch of the `get_neighbors` of days 9 and 15 is the cell one step away, if it
      exists. */
  lemma Neighbors4Pieces(rowLen: nat, colLen: nat, pos: nat)
    requires rowLen > 0 && colLen > 0 && pos < rowLen * colLen
    ensures (if pos % rowLen != 0 then [pos - 1] else []) == Toward(rowLen, colLen, pos, Offset(0, -1))
    ensures (if pos % rowLen != rowLen - 1 then [pos + 1] else []) == Toward(rowLen, colLen, pos, Offset(0, 1))
    ensures (if pos >= rowLen then [pos - rowLen] else []) == Toward(rowLen, colLen, pos, Offset(-1, 0))
    ensures (if pos / rowLen < colLen - 1 then [pos + rowLen] else []) == Toward(rowLen, colLen, pos, Offset(1, 0))
  {
    Coords(rowLen, colLen, pos);
    TowardStep(rowLen, colLen, pos, Offset(0, -1));
    TowardStep(rowLen, colLen, pos, Offset(0, 1));
    TowardStep(rowLen, colLen, pos, Offset(-1, 0));
    TowardStep(rowLen, colLen, pos, Offset(1, 0));
  }

  /** `TowardAll` over the four axis-aligned steps, one after another. */
  lemma TowardAllOrthogonal(rowLen: nat, colLen: nat, pos: nat)
    requires rowLen > 0
    ensures TowardAll(rowLen, colLen, pos, ORTHOGONAL)
            == Toward(rowLen, colLen, pos, Offset(0, -1)) + Toward(rowLen, colLen, pos, Offset(0, 1))
               + Toward(rowLen, colLen, pos, Offset(-1, 0)) + Toward(rowLen, colLen, pos, Offset(1, 0))
  {
    var os := ORTHOGONAL;
    TowardAllCons(rowLen, colLen, pos, os);
    TowardAllCons(rowLen, colLen, pos, os[1..]);
    TowardAllCons(rowLen, colLen, pos, os[2..]);
    TowardAllCons(rowLen, colLen, pos, os[3..]);
    assert os[1..][1..] == os[2..] && os[2..][1..] == os[3..] && os[3..][1..] == [];
  }

  /** The 4-neighbours of an in-bounds cell are exactly the in-bounds cells one row or one
      column away (never the cell at the other end of the previous or next row), each
      listed once, so there are at most four. */
  lemma Neighbors4Spec(rowLen: nat, colLen: nat, pos: nat)
    requires rowLen > 0 && colLen > 0 && pos < rowLen * colLen
    ensures var ns := Neighbors4(rowLen, colLen, pos);
            |ns| <= 4 && Distinct(ns) && pos !in ns
            && forall q: nat :: q in ns <==> q < rowLen * colLen && Adjacent4(rowLen, pos, q)
  {
    TowardAllFacts(rowLen, colLen, pos, ORTHOGONAL);
  }

  /** Every 4-neighbour is on the grid. */
  lemma Neighbors4Inside(rowLen: nat, colLen: nat, pos: nat)
    requires rowLen > 0 && colLen > 0 && pos < rowLen * colLen
    ensures var ns := Neighbors4(rowLen, colLen, pos);
            forall k :: 0 <= k < |ns| ==> ns[k] < rowLen * colLen
  {
    var ns := Neighbors4(rowLen, colLen, pos);
    Neighbors4Spec(rowLen, colLen, pos);
    forall k | 0 <= k < |ns|
      ensures ns[k] < rowLen * colLen
    {
      assert ns[k] in ns;
    }
  }

  /** `get_neighbors` of day 11: the left column, the right column, then straight up and
      straight down, each only if it exists. */
  function Neighbors8(rowLen: nat, colLen: nat, pos: nat): (ns: seq<nat>)
    requires rowLen > 0 && colLen > 0 && pos < rowLen * colLen
    ensures ns == TowardAll(rowLen, colLen, pos, SURROUNDING)
  {
    var firstCol := pos % rowLen == 0;
    var lastCol := pos % rowLen == rowLen - 1;
    var firstRow := pos < rowLen;
    var lastRow := pos >= rowLen * (colLen - 1);
    var left := if firstCol then [] else
      [pos - 1] + (if firstRow then [] else [pos - 1 - rowLen])
                + (if lastRow then [] else [pos - 1 + rowLen]);
    var right := if lastCol then [] else
      [pos + 1] + (if firstRow then [] else [pos + 1 - rowLen])
                + (if lastRow then [] else [pos + 1 + rowLen]);
    var up := if firstRow then [] else [pos - rowLen];
    var down := if lastRow then [] else [pos + rowLen];
    Neighbors8Pieces(rowLen, colLen, pos);
    TowardAllSurrounding(rowLen, colLen, pos);
    left + right + up + down
  }

  /** The cell one step `o` away, written the way the source computes it. */
  lemma TowardStep(rowLen: nat, colLen: nat, pos: nat, o: Offset)
    requires rowLen > 0 && pos < rowLen * colLen
    ensures Toward(rowLen, colLen, pos, o)
            == if 0 <= Row(rowLen, pos) + o.dr < colLen && 0 <= Col(rowLen, pos) + o.dc < rowLen
               then [pos + o.dr * rowLen + o.dc] else []
  {
    Coords(rowLen, colLen, pos);
    var r := Row(rowLen, pos);
    assert (r + o.dr) * rowLen == r * rowLen + o.dr * rowLen;
  }

  /** Each branch of day 11's `get_neighbors` is the cell one step away, if it exists. */
  lemma Neighbors8Pieces(rowLen: nat, colLen: nat, pos: nat)
    requires rowLen > 0 && colLen > 0 && pos < rowLen * colLen
    ensures var firstCol := pos % rowLen == 0;
            var lastCol := pos % rowLen == rowLen - 1;
            var firstRow := pos < rowLen;
            var lastRow := pos >= rowLen * (colLen - 1);
            && (if firstCol then [] else
                 [pos - 1] + (if firstRow then [] else [pos - 1 - rowLen])
                           + (if lastRow then [] else [pos - 1 + rowLen]))
               == Toward(rowLen, colLen, pos, Offset(0, -1)) + Toward(rowLen, colLen, pos, Offset(-1, -1))
                  + Toward(rowLen, colLen, pos, Offset(1, -1))
            && (if lastCol then [] else
                 [pos + 1] + (if firstRow then [] else [pos + 1 - rowLen])
                           + (if lastRow then [] else [pos + 1 + rowLen]))
               == Toward(rowLen, colLen, pos, Offset(0, 1)) + Toward(rowLen, colLen, pos, Offset(-1, 1))
                  + Toward(rowLen, colLen, pos, Offset(1, 1))
            && (if firstRow then [] else [pos - rowLen]) == Toward(rowLen, colLen, pos, Offset(-1, 0))
            && (if lastRow then [] else [pos + rowLen]) == Toward(rowLen, colLen, pos, Offset(1, 0))
  {
    Coords(rowLen, colLen, pos);
    TowardStep(rowLen, colLen, pos, Offset(0, -1));
    TowardStep(rowLen, colLen, pos, Offset(-1, -1));
    TowardStep(rowLen, colLen, pos, Offset(1, -1));
    TowardStep(rowLen, colLen, pos, Offset(0, 1));
    TowardStep(rowLen, colLen, pos, Offset(-1, 1));
    TowardStep(rowLen, colLen, pos, Offset(1, 1));
    TowardStep(rowLen, colLen, pos, Offset(-1, 0));
    TowardStep(rowLen, colLen, pos, Offset(1, 0));
  }

  /** `TowardAll` over the eight steps, grouped the way day 11 groups its branches. */
  lemma TowardAllSurrounding(rowLen: nat, colLen: nat, pos: nat)
    requires rowLen > 0
    ensures TowardAll(rowLen, colLen, pos, SURROUNDING)
            == (Toward(rowLen, colLen, pos, Offset(0, -1)) + Toward(rowLen, colLen, pos, Offset(-1, -1))
                + Toward(rowLen, colLen, pos, Offset(1, -1)))
               + (Toward(rowLen, colLen, pos, Offset(0, 1)) + Toward(rowLen, colLen, pos, Offset(-1, 1))
                  + Toward(rowLen, colLen, pos, Offset(1, 1)))
               + Toward(rowLen, colLen, pos, Offset(-1, 0)) + Toward(rowLen, colLen, pos, Offset(1, 0))
  {
    TowardAllEight(rowLen, colLen, pos, SURROUNDING);
  }

  lemma TowardAllEight(rowLen: nat, colLen: nat, pos: nat, os: seq<Offset>)
    requires rowLen > 0 && |os| == 8
    ensures TowardAll(rowLen, colLen, pos, os)
            == (Toward(rowLen, colLen, pos, os[0]) + Toward(rowLen, colLen, pos, os[1])
                + Toward(rowLen, colLen, pos, os[2]))
               + (Toward(rowLen, colLen, pos, os[3]) + Toward(rowLen, colLen, pos, os[4])
                  + Toward(rowLen, colLen, pos, os[5]))
               + Toward(rowLen, colLen, pos, os[6]) + Toward(rowLen, colLen, pos, os[7])
  {
    var t0, t1, t2 := Toward(rowLen, colLen, pos, os[0]), Toward(rowLen, colLen, pos, os[1]), Toward(rowLen, colLen, pos, os[2]);
    var t3, t4, t5 := Toward(rowLen, colLen, pos, os[3]), Toward(rowLen, colLen, pos, os[4]), Toward(rowLen, colLen, pos, os[5]);
    var t6, t7 := Toward(rowLen, colLen, pos, os[6]), Toward(rowLen, colLen, pos, os[7]);
    var r6 := TowardAll(rowLen, colLen, pos, os[6..]);
    TowardAllCons(rowLen, colLen, pos, os[6..]);
    TowardAllCons(rowLen, colLen, pos, os[7..]);
    assert os[6..][1..] == os[7..] && os[7..][1..] == [];
    assert r6 == t6 + t7;
    var r3 := TowardAll(rowLen, colLen, pos, os[3..]);
    TowardAllCons(rowLen, colLen, pos, os[3..]);
    TowardAllCons(rowLen, colLen, pos, os[4..]);
    TowardAllCons(rowLen, colLen, pos, os[5..]);
    assert os[3..][1..] == os[4..] && os[4..][1..] == os[5..] && os[5..][1..] == os[6..];
    assert r3 == t3 + (t4 + (t5 + r6));
    var r0 := TowardAll(rowLen, colLen, pos, os);
    TowardAllCons(rowLen, colLen, pos, os);
    TowardAllCons(rowLen, colLen, pos, os[1..]);
    TowardAllCons(rowLen, colLen, pos, os[2..]);
    assert os[1..][1..] == os[2..] && os[2..][1..] == os[3..];
    assert r0 == t0 + (t1 + (t2 + r3));
    assert t0 + (t1 + (t2 + r3)) == (t0 + t1 + t2) + r3;
    assert t3 + (t4 + (t5 + r6)) == (t3 + t4 + t5) + r6;
    assert (t0 + t1 + t2) + ((t3 + t4 + t5) + (t6 + t7)) == (t0 + t1 + t2) + (t3 + t4 + t5) + t6 + t7;
  }

  lemma TowardAllCons(rowLen: nat, colLen: nat, pos: nat, os: seq<Offset>)
    requires rowLen > 0 && |os| > 0
    ensures TowardAll(rowLen, colLen, pos, os) == Toward(rowLen, colLen, pos, os[0]) + TowardAll(rowLen, colLen, pos, os[1..])
  {
  }

  /** The 8-neighbours of an in-bounds cell are exactly the in-bounds cells that touch it,
      diagonals included, without the cell itself or any wrap across a row edge, each
      listed once, so there are at most eight. */
  lemma Neighbors8Spec(rowLen: nat, colLen: nat, pos: nat)
    requires rowLen > 0 && colLen > 0 && pos < rowLen * colLen
    ensures var ns := Neighbors8(rowLen, colLen, pos);
            |ns| <= 8 && Distinct(ns) && pos !in ns
            && forall q: nat :: q in ns <==> q < rowLen * colLen && Adjacent8(rowLen, pos, q)
  {
    TowardAllFacts(rowLen, colLen, pos, SURROUNDING);
  }

  /** Both neighbour relations are symmetric. */
  lemma NeighborsSymmetric(rowLen: nat, colLen: nat, p: nat, q: nat)
    requires rowLen > 0 && colLen > 0 && p < rowLen * colLen && q < rowLen * colLen
    ensures q in Neighbors4(rowLen, colLen, p) <==> p in Neighbors4(rowLen, colLen, q)
    ensures q in Neighbors8(rowLen, colLen, p) <==> p in Neighbors8(rowLen, colLen, q)
  {
    var o := OffsetOf(rowLen, p, q);
    assert OffsetOf(rowLen, q, p) == Offset(-o.dr, -o.dc);
    StepsSymmetric(o);
    Neighbors4Spec(rowLen, colLen, p);
    Neighbors4Spec(rowLen, colLen, q);
    assert q in Neighbors4(rowLen, colLen, p) <==> o in ORTHOGONAL;
    assert p in Neighbors4(rowLen, colLen, q) <==> Offset(-o.dr, -o.dc) in ORTHOGONAL;
    Neighbors8Spec(rowLen, colLen, p);
    Neighbors8Spec(rowLen, colLen, q);
    assert q in Neighbors8(rowLen, colLen, p) <==> o in SURROUNDING;
    assert p in Neighbors8(rowLen, colLen, q) <==> Offset(-o.dr, -o.dc) in SURROUNDING;
  }

  /** Reversing a step keeps it among the orthogonal, and among the surrounding, steps. */
  lemma StepsSymmetric(o: Offset)
    ensures o in ORTHOGONAL <==> Offset(-o.dr, -o.dc) in ORTHOGONAL
    ensures o in SURROUNDING <==> Offset(-o.dr, -o.dc) in SURROUNDING
  {
  }

  // ----- parsing ----------------------------------------------------------------------

  /** `c.is_numeric() && c.is_ascii()`: exactly the ASCII digits. */
  function DigitsOf(line: string): (ds: seq<nat>)
    requires AllDigits(line)
    ensures |ds| == |line|
    ensures forall j :: 0 <= j < |line| ==> ds[j] == DigitValue(line[j]) && ds[j] <= 9
  {
    seq(|line|, j requires 0 <= j < |line| => DigitValue(line[j]))
  }

  /** Position of the first character of `line` that is not an ASCII digit. */
  function FirstNonDigit(line: string, from: nat): (r: Option<nat>)
    requires from <= |line|
    ensures r.None? <==> forall j :: from <= j < |line| ==> IsDigit(line[j])
    ensures r.Some? ==> from <= r.value < |line| && !IsDigit(line[r.value])
    decreases |line| - from
  {
    if from == |line| then None
    else if !IsDigit(line[from]) then Some(from)
    else FirstNonDigit(line, from + 1)
  }

  predicate ValidRows(lines: seq<string>, rowLen: nat) {
    forall k :: 0 <= k < |lines| ==> |lines[k]| == rowLen && AllDigits(lines[k])
  }

  /** The index of the cell in row `k`, column `j`. */
  function At(rowLen: nat, k: nat, j: nat): nat {
    k * rowLen + j
  }

  /** `cells` holds the digits of `lines`, row after row, each row `rowLen` long. */
  predicate RowMajor(cells: seq<nat>, lines: seq<string>, rowLen: nat) {
    && ValidRows(lines, rowLen)
    && |cells| == |lines| * rowLen
    && forall k, j :: 0 <= k < |lines| && 0 <= j < rowLen ==>
         At(rowLen, k, j) < |cells| && cells[At(rowLen, k, j)] == DigitValue(lines[k][j])
  }

  /** The loop of `from_str` from row number `row` on: each row is converted digit by
      digit (the first bad character fails it), then its length is compared with the
      first row's. */
  function ParseRows(lines: seq<string>, rowLen: nat, row: nat): (r: Result<seq<nat>, ParseError>)
    ensures r.Ok? <==> ValidRows(lines, rowLen)
    ensures r.Ok? ==> RowMajor(r.value, lines, rowLen)
    ensures r.Err? ==> r.error != EmptyInput
    decreases |lines|
  {
    if |lines| == 0 then Ok([])
    else
      var line := lines[0];
      match FirstNonDigit(line, 0)
      case Some(i) => Err(InvalidChar(row, i))
      case None =>
        if |line| != rowLen then Err(InvalidRowLength(row))
        else
          match ParseRows(lines[1..], rowLen, row + 1)
          case Err(e) =>
            assert !ValidRows(lines, rowLen) by { ValidRowsTail(lines, rowLen); }
            Err(e)
          case Ok(rest) =>
            ValidRowsTail(lines, rowLen);
            StackRows(lines, rowLen, rest);
            Ok(DigitsOf(line) + rest)
  }

  lemma ValidRowsTail(lines: seq<string>, rowLen: nat)
    requires |lines| > 0
    ensures ValidRows(lines, rowLen) <==>
            |lines[0]| == rowLen && AllDigits(lines[0]) && ValidRows(lines[1..], rowLen)
  {
    if |lines[0]| == rowLen && AllDigits(lines[0]) && ValidRows(lines[1..], rowLen) {
      forall k | 1 <= k < |lines| ensures |lines[k]| == rowLen && AllDigits(lines[k]) {
        assert lines[k] == lines[1..][k - 1];
      }
    }
  }

  /** The cells of the first row followed by the cells of the others. */
  lemma StackRows(lines: seq<string>, rowLen: nat, rest: seq<nat>)
    requires |lines| > 0 && ValidRows(lines, rowLen)
    requires RowMajor(rest, lines[1..], rowLen)
    ensures RowMajor(DigitsOf(lines[0]) + rest, lines, rowLen)
  {
    var cells := DigitsOf(lines[0]) + rest;
    var _ := RowShift(rowLen, |lines|, 0);
    forall k, j | 0 <= k < |lines| && 0 <= j < rowLen
      ensures At(rowLen, k, j) < |cells| && cells[At(rowLen, k, j)] == DigitValue(lines[k][j])
    {
      StackRowsAt(lines, rowLen, rest, k, j);
    }
  }

  lemma StackRowsAt(lines: seq<string>, rowLen: nat, rest: seq<nat>, k: nat, j: nat)
    requires |lines| > 0 && ValidRows(lines, rowLen)
    requires RowMajor(rest, lines[1..], rowLen)
    requires k < |lines| && j < rowLen
    ensures At(rowLen, k, j) < |DigitsOf(lines[0]) + rest|
    ensures (DigitsOf(lines[0]) + rest)[At(rowLen, k, j)] == DigitValue(lines[k][j])
  {
    if k > 0 {
      var m := RowShift(rowLen, k, j);
      assert m == At(rowLen, k - 1, j) && m < |rest| && rest[m] == DigitValue(lines[1..][k - 1][j]);
    }
  }

  lemma RowShift(rowLen: nat, k: nat, j: nat) returns (m: nat)
    requires k > 0
    ensures m == (k - 1) * rowLen + j && k * rowLen + j == rowLen + m
  {
    m := (k - 1) * rowLen + j;
  }

  /** `from_str` of the grid days: the first line fixes `rowLen`, every line must be
      ASCII digits of that length, and the grid has one row per line. */
  function Parse(s: string): (r: Result<Grid, ParseError>)
    ensures var lines := Lines(s);
            r.Ok? <==> |lines| > 0 && ValidRows(lines, |lines[0]|)
    ensures r.Err? && |Lines(s)| == 0 ==> r.error == EmptyInput
    ensures r.Ok? ==> WellFormed(r.value)
    ensures r.Ok? ==> var lines := Lines(s);
            r.value.rowLen == |lines[0]| && r.value.colLen == |lines|
            && RowMajor(r.value.cells, lines, r.value.rowLen)
  {
    var lines := Lines(s);
    if |lines| == 0 then Err(EmptyInput)
    else
      var rowLen := |lines[0]|;
      match ParseRows(lines, rowLen, 0)
      case Err(e) => Err(e)
      case Ok(cells) => Ok(Grid(cells, rowLen, |lines|))
  }

  /** A parsed grid holds only digit values. */
  lemma ParsedCellsAreDigits(s: string)
    requires Parse(s).Ok?
    ensures forall i :: 0 <= i < |Parse(s).value.cells| ==> Parse(s).value.cells[i] <= 9
  {
    var g := Parse(s).value;
    RowMajorDigits(g.cells, Lines(s), g.rowLen);
  }

  lemma RowMajorDigits(cells: seq<nat>, lines: seq<string>, rowLen: nat)
    requires RowMajor(cells, lines, rowLen)
    ensures forall i :: 0 <= i < |cells| ==> cells[i] <= 9
  {
    forall i | 0 <= i < |cells| ensures cells[i] <= 9 {
      assert rowLen > 0;
      Coords(rowLen, |lines|, i);
      var k, j := Row(rowLen, i), Col(rowLen, i);
      assert cells[At(rowLen, k, j)] == DigitValue(lines[k][j]);
    }
  }

  // ----- sets of cells ---------------------------------------------------------------

  /** The cells `0..n`. */
  function CellsBelow(n: nat): (cells: set<nat>)
    ensures forall v: int :: v in cells <==> 0 <= v < n
    ensures |cells| == n
  {
    if n == 0 then {}
    else
      var below := CellsBelow(n - 1);
      assert n - 1 !in below;
      below + {n - 1}
  }

  lemma {:induction false} SubsetSize(a: set<nat>, b: set<nat>)
    requires a <= b
    ensures |a| <= |b|
  {
    if a != {} {
      var x :| x in a;
      SubsetSize(a - {x}, b - {x});
    }
  }
}
