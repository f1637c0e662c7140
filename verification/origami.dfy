/** Day 13, the transparent origami: a sheet of dots read from "x,y" lines, folded up
    (along a row) or left (along a column) by the "fold along" instructions that follow. */
module Origami {
  import opened Wrappers
  import opened Text
  import opened Grid

  // ----- instructions ------------------------------------------------------------------

  datatype FoldInstruction = FoldY(y: nat) | FoldX(x: nat)

  datatype FoldError = InvalidNumber(text: string) | InvalidInstruction(line: string)

  const ALONG_Y: string := "fold along y"
  const ALONG_X: string := "fold along x"

  /** What `rsplit(c).next()` yields: the text after the last `c`, or all of `s`. */
  function AfterLast(s: string, c: char): (t: string)
    ensures c !in t
    ensures |t| <= |s| && t == s[|s| - |t|..]
    ensures |t| == |s| || s[|s| - |t| - 1] == c
  {
    if |s| == 0 || s[|s| - 1] == c then ""
    else AfterLast(s[..|s| - 1], c) + [s[|s| - 1]]
  }

  /** Whatever precedes the last `c`, the text after it is what comes back. */
  lemma {:induction false} AfterSeparator(a: string, c: char, b: string)
    requires c !in b
    ensures AfterLast(a + [c] + b, c) == b
  {
    if |b| > 0 {
      var front := b[..|b| - 1];
      assert (a + [c] + b)[..|a + [c] + b| - 1] == a + [c] + front;
      AfterSeparator(a, c, front);
    } else {
      assert a + [c] + b == a + [c];
    }
  }

  /** `FoldInstruction::from_str`: the prefix picks the axis and the text after the last
      '=' must be a `usize`. */
  function ParseFold(s: string): (r: Result<FoldInstruction, FoldError>)
    ensures r.Ok? <==> (StartsWith(s, ALONG_Y) || StartsWith(s, ALONG_X))
                       && ParseUnsigned(AfterLast(s, '='), USIZE_LIMIT).Ok?
    ensures r.Ok? ==> (r.value.FoldY? <==> StartsWith(s, ALONG_Y))
    ensures r.Ok? ==> var n := ParseUnsigned(AfterLast(s, '='), USIZE_LIMIT).value;
                      r.value == FoldY(n) || r.value == FoldX(n)
    ensures r.Err? && !StartsWith(s, ALONG_Y) && !StartsWith(s, ALONG_X) ==> r.error == InvalidInstruction(s)
  {
    if StartsWith(s, ALONG_Y) || StartsWith(s, ALONG_X) then
      var text := AfterLast(s, '=');
      match ParseUnsigned(text, USIZE_LIMIT)
      case Err(_) => Err(InvalidNumber(text))
      case Ok(n) => if StartsWith(s, ALONG_Y) then Ok(FoldY(n)) else Ok(FoldX(n))
    else Err(InvalidInstruction(s))
  }

  /** The text of an instruction as the puzzle writes it. */
  function ShowFold(f: FoldInstruction): string {
    match f
    case FoldY(y) => ALONG_Y + "=" + ShowNat(y)
    case FoldX(x) => ALONG_X + "=" + ShowNat(x)
  }

  /** Reading an instruction back gives the instruction. */
  lemma ParseShowFold(f: FoldInstruction)
    requires (if f.FoldY? then f.y else f.x) < USIZE_LIMIT
    ensures ParseFold(ShowFold(f)) == Ok(f)
  {
    var n := if f.FoldY? then f.y else f.x;
    var prefix := if f.FoldY? then ALONG_Y else ALONG_X;
    assert ShowFold(f) == prefix + "=" + ShowNat(n);
    ShownPrefix(prefix, n);
    assert '=' !in ShowNat(n) by {
      assert AllDigits(ShowNat(n));
    }
    AfterSeparator(prefix, '=', ShowNat(n));
    ParseShowNat(n, USIZE_LIMIT);
  }

  /** A written instruction starts with its own prefix, and with the row prefix only when
      it is a fold along a row. */
  lemma ShownPrefix(prefix: string, n: nat)
    requires prefix == ALONG_Y || prefix == ALONG_X
    ensures StartsWith(prefix + "=" + ShowNat(n), prefix)
    ensures StartsWith(prefix + "=" + ShowNat(n), ALONG_Y) <==> prefix == ALONG_Y
  {
    var s := prefix + "=" + ShowNat(n);
    assert |ALONG_Y| == |ALONG_X| == 12;
    assert s[..12] == prefix;
    assert ALONG_Y[11] == 'y' && ALONG_X[11] == 'x';
    if prefix == ALONG_X {
      assert s[11] != ALONG_Y[11];
    }
  }

  // ----- folding -----------------------------------------------------------------------

  /** A row of the sheet; `true` is a dot ('#'), `false` is empty ('.'). */
  type Row = seq<bool>

  /** The cell at `i`, empty when `i` is off the row. */
  function At(row: Row, i: int): bool {
    0 <= i < |row| && row[i]
  }

  /** The cell-wise OR that the zip loops write into `a`; `a` keeps its length. */
  function Overlay(a: Row, b: Row): (r: Row)
    ensures |r| == |a| && forall j :: 0 <= j < |a| ==> r[j] == (a[j] || At(b, j))
  {
    seq(|a|, j requires 0 <= j < |a| => a[j] || At(b, j))
  }

  /** `fold_row`: split off the cells from `x`, drop the fold line, swap the halves when
      the right one is longer (reversing both), and lay the kept half, reversed, over the
      other. Cell j of the result is the OR of the two cells j + 1 away from the fold line. */
  function FoldRow(row: Row, x: nat): (r: Row)
    requires x < |row|
    ensures |r| == if x >= |row| - x - 1 then x else |row| - x - 1
    ensures forall j :: 0 <= j < |r| ==> r[j] == (At(row, x + 1 + j) || At(row, x - 1 - j))
  {
    var kept := row[..x];
    var folded := row[x + 1..];
    if |folded| > |kept| then
      FoldRowRight(row, x);
      Overlay(Reversed(Reversed(folded)), Reversed(kept))
    else
      FoldRowLeft(row, x);
      Overlay(Reversed(kept), folded)
  }

  lemma FoldRowRight(row: Row, x: nat)
    requires x < |row| - x - 1
    ensures var r := Overlay(Reversed(Reversed(row[x + 1..])), Reversed(row[..x]));
            |r| == |row| - x - 1 && forall j :: 0 <= j < |r| ==> r[j] == (At(row, x + 1 + j) || At(row, x - 1 - j))
  {
    ReversedTwice(row[x + 1..]);
    var r := Overlay(row[x + 1..], Reversed(row[..x]));
    forall j | 0 <= j < |r| ensures r[j] == (At(row, x + 1 + j) || At(row, x - 1 - j)) {
      FoldRowRightAt(row, x, j);
    }
  }

  lemma FoldRowRightAt(row: Row, x: nat, j: nat)
    requires x < |row| - x - 1 && j < |row| - x - 1
    ensures Overlay(row[x + 1..], Reversed(row[..x]))[j] == (At(row, x + 1 + j) || At(row, x - 1 - j))
  {
    var folded := row[x + 1..];
    var far := Reversed(row[..x]);
    assert folded[j] == row[x + 1 + j];
    if j < x {
      assert far[j] == row[..x][x - 1 - j] == row[x - 1 - j];
    }
  }

  lemma ReversedTwice<T>(s: seq<T>)
    ensures Reversed(Reversed(s)) == s
  {
    assert forall k :: 0 <= k < |s| ==> Reversed(Reversed(s))[k] == Reversed(s)[|s| - 1 - k];
  }

  lemma FoldRowLeft(row: Row, x: nat)
    requires |row| - x - 1 <= x < |row|
    ensures var r := Overlay(Reversed(row[..x]), row[x + 1..]);
            |r| == x && forall j :: 0 <= j < |r| ==> r[j] == (At(row, x + 1 + j) || At(row, x - 1 - j))
  {
    var folded := row[x + 1..];
    var near := Reversed(row[..x]);
    var r := Overlay(near, folded);
    forall j | 0 <= j < |r| ensures r[j] == (At(row, x + 1 + j) || At(row, x - 1 - j)) {
      assert near[j] == row[x - 1 - j];
      if j < |folded| {
        assert folded[j] == row[x + 1 + j];
      }
    }
  }

  /** `fold_y`: the same for rows, except that the kept rows are not reversed: when the
      upper part is at least as long, row k is row k ORed with its mirror image 2y - k;
      otherwise the lower part, bottom row first, is what is kept. */
  function FoldUp(rows: seq<Row>, y: nat): (r: seq<Row>)
    requires y < |rows|
    ensures |r| == if y >= |rows| - y - 1 then y else |rows| - y - 1
    ensures forall i :: 0 <= i < |r| ==> FoldedRowAt(rows, y, i, r[i])
  {
    FoldUpRowsLength(rows, y);
    forall i | 0 <= i < |FoldUpRows(rows, y)|
      ensures FoldedRowAt(rows, y, i, FoldUpRows(rows, y)[i])
    {
      FoldUpRowAt(rows, y, i);
    }
    FoldUpRows(rows, y)
  }

  /** The rows `fold_y` keeps, each ORed with its mirror image while there is one. */
  function FoldUpRows(rows: seq<Row>, y: nat): seq<Row>
    requires y < |rows|
  {
    var kept := rows[..y];
    var folded := rows[y + 1..];
    if |folded| > |kept| then Layer(Reversed(folded), Reversed(kept)) else Layer(kept, folded)
  }

  /** The `near` rows, the last of them ORed with the first of `far`, and so on outwards. */
  function Layer(near: seq<Row>, far: seq<Row>): (r: seq<Row>)
    ensures |r| == |near|
    ensures forall i :: 0 <= i < |near| ==> r[i] == LayerAt(near, far, i)
  {
    seq(|near|, i requires 0 <= i < |near| => LayerAt(near, far, i))
  }

  function LayerAt(near: seq<Row>, far: seq<Row>, i: nat): Row
    requires i < |near|
  {
    var k := |near| - 1 - i;
    if k < |far| then Overlay(near[i], far[k]) else near[i]
  }

  lemma FoldUpRowsLength(rows: seq<Row>, y: nat)
    requires y < |rows|
    ensures |FoldUpRows(rows, y)| == if y >= |rows| - y - 1 then y else |rows| - y - 1
  {
  }

  lemma FoldUpRowAt(rows: seq<Row>, y: nat, i: nat)
    requires y < |rows| && i < |FoldUpRows(rows, y)|
    ensures FoldedRowAt(rows, y, i, FoldUpRows(rows, y)[i])
  {
    if |rows| - y - 1 > y {
      FoldUpRowBelow(rows, y, i);
    } else {
      FoldUpRowAbove(rows, y, i);
    }
  }

  /** The row a fold keeps at position `i`, ORed with its mirror image when there is one. */
  predicate FoldedRowAt(rows: seq<Row>, y: nat, i: nat, r: Row)
    requires y < |rows|
  {
    var p := Kept(|rows|, y, i); var m := 2 * y - p;
    0 <= p < |rows| && p != y &&
    r == if 0 <= m < |rows| then Overlay(rows[p], rows[m]) else rows[p]
  }

  /** A fold along a row above the middle keeps the lower rows, bottom row first. */
  lemma FoldUpRowBelow(rows: seq<Row>, y: nat, i: nat)
    requires y < |rows| && |rows| - y - 1 > y && i < |rows| - y - 1
    ensures FoldedRowAt(rows, y, i, FoldUpRows(rows, y)[i])
  {
    var near, far := Reversed(rows[y + 1..]), Reversed(rows[..y]);
    var k := |near| - 1 - i;
    var p := |rows| - 1 - i;
    assert Kept(|rows|, y, i) == p;
    assert FoldUpRows(rows, y)[i] == LayerAt(near, far, i);
    assert near[i] == rows[p];
    if k < |far| {
      assert far[k] == rows[2 * y - p];
    }
  }

  /** A fold along a row at or below the middle keeps the upper rows in order. */
  lemma FoldUpRowAbove(rows: seq<Row>, y: nat, i: nat)
    requires y < |rows| && |rows| - y - 1 <= y && i < y
    ensures FoldedRowAt(rows, y, i, FoldUpRows(rows, y)[i])
  {
    var near, far := rows[..y], rows[y + 1..];
    var k := y - 1 - i;
    assert Kept(|rows|, y, i) == i;
    assert FoldUpRows(rows, y)[i] == LayerAt(near, far, i);
    if k < |far| {
      assert far[k] == rows[2 * y - i];
    }
  }

  /** The row of the unfolded sheet that row `i` of a fold along `y` keeps. */
  function Kept(len: nat, y: nat, i: nat): int {
    if len - y - 1 > y then len - 1 - i else i
  }

  /** The usual case: folding along a row at or below the middle keeps the upper rows. */
  lemma FoldYUpper(rows: seq<Row>, y: nat, k: nat)
    requires y < |rows| && y >= |rows| - y - 1 && k < y
    ensures FoldUp(rows, y)[k] == if 2 * y - k < |rows| then Overlay(rows[k], rows[2 * y - k]) else rows[k]
  {
  }

  /** `fold_x`: every row folded along column `x`. */
  function FoldLeft(rows: seq<Row>, x: nat): (r: seq<Row>)
    requires forall i :: 0 <= i < |rows| ==> x < |rows[i]|
    ensures |r| == |rows|
    ensures forall i :: 0 <= i < |rows| ==> r[i] == FoldRow(rows[i], x)
  {
    seq(|rows|, i requires 0 <= i < |rows| => FoldRow(rows[i], x))
  }

  /** The index checks of `split_off`/`remove(0)`: the fold line lies on the sheet. */
  predicate Fits(rows: seq<Row>, f: FoldInstruction) {
    match f
    case FoldY(y) => y < |rows|
    case FoldX(x) => forall i :: 0 <= i < |rows| ==> x < |rows[i]|
  }

  function Apply(rows: seq<Row>, f: FoldInstruction): seq<Row>
    requires Fits(rows, f)
  {
    match f
    case FoldY(y) => FoldUp(rows, y)
    case FoldX(x) => FoldLeft(rows, x)
  }

  // ----- counting dots -----------------------------------------------------------------

  function RowDots(row: Row): nat {
    if |row| == 0 then 0 else RowDots(row[..|row| - 1]) + (if row[|row| - 1] then 1 else 0)
  }

  /** `count_dots`. */
  function CountDots(rows: seq<Row>): nat {
    if |rows| == 0 then 0 else CountDots(rows[..|rows| - 1]) + RowDots(rows[|rows| - 1])
  }

  /** The dots of a sheet as (row, column) cells. */
  function DotSet(rows: seq<Row>): set<(int, int)> {
    set i, j | 0 <= i < |rows| && 0 <= j < |rows[i]| && rows[i][j] :: (i, j)
  }

  function RowCells(i: int, row: Row): set<(int, int)> {
    set j | 0 <= j < |row| && row[j] :: (i, j)
  }

  lemma {:induction false} RowCellsCount(i: int, row: Row)
    ensures |RowCells(i, row)| == RowDots(row)
  {
    if |row| > 0 {
      var front := row[..|row| - 1];
      RowCellsCount(i, front);
      var last := if row[|row| - 1] then {(i, |row| - 1)} else {};
      assert RowCells(i, row) == RowCells(i, front) + last;
      assert (i, |row| - 1) !in RowCells(i, front);
    }
  }

  /** `count_dots` is the number of dotted cells. */
  lemma {:induction false} CountDotsIsDotSet(rows: seq<Row>)
    ensures CountDots(rows) == |DotSet(rows)|
  {
    if |rows| > 0 {
      var front := rows[..|rows| - 1];
      var n := |rows| - 1;
      CountDotsIsDotSet(front);
      RowCellsCount(n, rows[n]);
      assert DotSet(rows) == DotSet(front) + RowCells(n, rows[n]);
      assert DotSet(front) !! RowCells(n, rows[n]);
    }
  }

  /** A one-to-one map from `a` into `b` shows `a` is no larger. */
  lemma {:induction false} InjectionSize<T, U>(a: set<T>, b: set<U>, f: T -> U)
    requires forall t :: t in a ==> f(t) in b
    requires forall s, t :: s in a && t in a && f(s) == f(t) ==> s == t
    ensures |a| <= |b|
  {
    if a != {} {
      var t :| t in a;
      InjectionSize(a - {t}, b - {f(t)}, f);
    }
  }

  /** Row `i`, or an empty row off the sheet. */
  function RowOf(rows: seq<Row>, i: int): Row {
    if 0 <= i < |rows| then rows[i] else []
  }

  /** The cell of the unfolded sheet that makes a dot of a fold along column `x`. */
  function LeftSource(rows: seq<Row>, x: nat, c: (int, int)): (int, int) {
    if At(RowOf(rows, c.0), x + 1 + c.1) then (c.0, x + 1 + c.1) else (c.0, x - 1 - c.1)
  }

  /** The cell of the unfolded sheet that makes a dot of a fold along row `y`. */
  function UpSource(rows: seq<Row>, y: nat, c: (int, int)): (int, int) {
    var p := Kept(|rows|, y, if c.0 < 0 then 0 else c.0);
    if At(RowOf(rows, p), c.1) then (p, c.1) else (2 * y - p, c.1)
  }

  lemma DotSetMember(rows: seq<Row>, c: (int, int))
    ensures c in DotSet(rows) <==> 0 <= c.0 < |rows| && 0 <= c.1 < |rows[c.0]| && rows[c.0][c.1]
  {
    if 0 <= c.0 < |rows| && 0 <= c.1 < |rows[c.0]| && rows[c.0][c.1] {
      assert (c.0, c.1) in DotSet(rows);
    }
  }

  lemma LeftSourceDot(rows: seq<Row>, x: nat, c: (int, int))
    requires forall i :: 0 <= i < |rows| ==> x < |rows[i]|
    requires c in DotSet(FoldLeft(rows, x))
    ensures c.1 >= 0 && LeftSource(rows, x, c) in DotSet(rows)
  {
    var folded := FoldLeft(rows, x);
    DotSetMember(folded, c);
    var (i, j) := c;
    assert folded[i] == FoldRow(rows[i], x);
    assert At(rows[i], x + 1 + j) || At(rows[i], x - 1 - j);
    DotSetMember(rows, LeftSource(rows, x, c));
  }

  lemma LeftSourceOneToOne(rows: seq<Row>, x: nat, c1: (int, int), c2: (int, int))
    requires c1.1 >= 0 && c2.1 >= 0
    requires LeftSource(rows, x, c1) == LeftSource(rows, x, c2)
    ensures c1 == c2
  {
  }

  /** Every dot of a fold along column `x` comes from a dot, and no two from the same one. */
  lemma LeftSourceInjects(rows: seq<Row>, x: nat)
    requires forall i :: 0 <= i < |rows| ==> x < |rows[i]|
    ensures forall c :: c in DotSet(FoldLeft(rows, x)) ==> LeftSource(rows, x, c) in DotSet(rows)
    ensures forall c1, c2 ::
              (c1 in DotSet(FoldLeft(rows, x)) && c2 in DotSet(FoldLeft(rows, x)) && LeftSource(rows, x, c1) == LeftSource(rows, x, c2))
              ==> c1 == c2
  {
    var folded := FoldLeft(rows, x);
    forall c | c in DotSet(folded) ensures LeftSource(rows, x, c) in DotSet(rows) {
      LeftSourceDot(rows, x, c);
    }
    forall c1, c2 | c1 in DotSet(folded) && c2 in DotSet(folded) && LeftSource(rows, x, c1) == LeftSource(rows, x, c2)
      ensures c1 == c2
    {
      LeftSourceDot(rows, x, c1);
      LeftSourceDot(rows, x, c2);
      LeftSourceOneToOne(rows, x, c1, c2);
    }
  }

  /** Folding along a column never adds a dot: each dot comes from its own dot. */
  lemma FoldLeftDots(rows: seq<Row>, x: nat)
    requires forall i :: 0 <= i < |rows| ==> x < |rows[i]|
    ensures CountDots(FoldLeft(rows, x)) <= CountDots(rows)
  {
    var folded := FoldLeft(rows, x);
    var f := c => LeftSource(rows, x, c);
    LeftSourceInjects(rows, x);
    assert forall c :: f(c) == LeftSource(rows, x, c);
    InjectionSize(DotSet(folded), DotSet(rows), f);
    CountDotsIsDotSet(folded);
    CountDotsIsDotSet(rows);
  }

  lemma UpSourceDot(rows: seq<Row>, y: nat, c: (int, int))
    requires y < |rows|
    requires c in DotSet(FoldUp(rows, y))
    ensures 0 <= c.0 < (if y >= |rows| - y - 1 then y else |rows| - y - 1)
    ensures UpSource(rows, y, c) in DotSet(rows)
  {
    var folded := FoldUp(rows, y);
    DotSetMember(folded, c);
    DotSetMember(rows, UpSource(rows, y, c));
  }

  /** The kept rows lie on one side of the fold line and their mirror images on the other. */
  lemma UpSourceOneToOne(rows: seq<Row>, y: nat, c1: (int, int), c2: (int, int))
    requires y < |rows|
    requires 0 <= c1.0 < (if y >= |rows| - y - 1 then y else |rows| - y - 1)
    requires 0 <= c2.0 < (if y >= |rows| - y - 1 then y else |rows| - y - 1)
    requires UpSource(rows, y, c1) == UpSource(rows, y, c2)
    ensures c1 == c2
  {
  }

  /** Every dot of a fold along row `y` comes from a dot, and no two from the same one. */
  lemma UpSourceInjects(rows: seq<Row>, y: nat)
    requires y < |rows|
    ensures forall c :: c in DotSet(FoldUp(rows, y)) ==> UpSource(rows, y, c) in DotSet(rows)
    ensures forall c1, c2 ::
              (c1 in DotSet(FoldUp(rows, y)) && c2 in DotSet(FoldUp(rows, y)) && UpSource(rows, y, c1) == UpSource(rows, y, c2))
              ==> c1 == c2
  {
    var folded := FoldUp(rows, y);
    forall c | c in DotSet(folded) ensures UpSource(rows, y, c) in DotSet(rows) {
      UpSourceDot(rows, y, c);
    }
    forall c1, c2 | c1 in DotSet(folded) && c2 in DotSet(folded) && UpSource(rows, y, c1) == UpSource(rows, y, c2)
      ensures c1 == c2
    {
      UpSourceDot(rows, y, c1);
      UpSourceDot(rows, y, c2);
      UpSourceOneToOne(rows, y, c1, c2);
    }
  }

  /** Folding along a row never adds a dot: each dot comes from its own dot. */
  lemma FoldUpDots(rows: seq<Row>, y: nat)
    requires y < |rows|
    ensures CountDots(FoldUp(rows, y)) <= CountDots(rows)
  {
    var folded := FoldUp(rows, y);
    var f := c => UpSource(rows, y, c);
    UpSourceInjects(rows, y);
    assert forall c :: f(c) == UpSource(rows, y, c);
    InjectionSize(DotSet(folded), DotSet(rows), f);
    CountDotsIsDotSet(folded);
    CountDotsIsDotSet(rows);
  }

  lemma ApplyDots(rows: seq<Row>, f: FoldInstruction)
    requires Fits(rows, f)
    ensures CountDots(Apply(rows, f)) <= CountDots(rows)
  {
    match f
    case FoldY(y) => FoldUpDots(rows, y);
    case FoldX(x) => FoldLeftDots(rows, x);
  }

  // ----- the paper ---------------------------------------------------------------------

  /** The sheet and the folds still to make, front first. */
  datatype Paper = Paper(rows: seq<Row>, instructions: seq<FoldInstruction>)

  /** `fold`: make the front fold, or nothing when none is left. */
  function Fold(p: Paper): (q: Paper)
    requires |p.instructions| == 0 || Fits(p.rows, p.instructions[0])
    ensures |p.instructions| == 0 ==> q == p
    ensures |p.instructions| > 0 ==> q.instructions == p.instructions[1..] && q.rows == Apply(p.rows, p.instructions[0])
    ensures CountDots(q.rows) <= CountDots(p.rows)
  {
    if |p.instructions| == 0 then p
    else
      ApplyDots(p.rows, p.instructions[0]);
      Paper(Apply(p.rows, p.instructions[0]), p.instructions[1..])
  }

  /** Every fold of `fs`, made in turn, lies on the sheet it folds. */
  predicate Foldable(rows: seq<Row>, fs: seq<FoldInstruction>)
    decreases |fs|
  {
    |fs| == 0 || (Fits(rows, fs[0]) && Foldable(Apply(rows, fs[0]), fs[1..]))
  }

  /** The sheet after the folds of `fs`, front first. */
  function ApplyAll(rows: seq<Row>, fs: seq<FoldInstruction>): seq<Row>
    requires Foldable(rows, fs)
    decreases |fs|
  {
    if |fs| == 0 then rows else ApplyAll(Apply(rows, fs[0]), fs[1..])
  }

  /** However many folds are made, the number of dots never grows. */
  lemma {:induction false} ApplyAllDots(rows: seq<Row>, fs: seq<FoldInstruction>)
    requires Foldable(rows, fs)
    ensures CountDots(ApplyAll(rows, fs)) <= CountDots(rows)
    decreases |fs|
  {
    if |fs| > 0 {
      ApplyDots(rows, fs[0]);
      ApplyAllDots(Apply(rows, fs[0]), fs[1..]);
    }
  }

  /** `fold_all`: fold until no instruction is left. */
  method FoldAll(p: Paper) returns (q: Paper)
    requires Foldable(p.rows, p.instructions)
    ensures q.instructions == []
    ensures q.rows == ApplyAll(p.rows, p.instructions)
    ensures CountDots(q.rows) <= CountDots(p.rows)
  {
    q := p;
    ApplyAllDots(p.rows, p.instructions);
    while |q.instructions| != 0
      invariant Foldable(q.rows, q.instructions)
      invariant ApplyAll(q.rows, q.instructions) == ApplyAll(p.rows, p.instructions)
      decreases |q.instructions|
    {
      q := Fold(q);
    }
  }

  // ----- parsing the paper -------------------------------------------------------------

  /** `to_tup`: two `usize`s separated by a single ','. */
  function ParsePoint(line: string): (r: Option<(nat, nat)>)
    ensures r.Some? <==> var parts := Split(line, ",");
              |parts| == 2 && ParseUnsigned(parts[0], USIZE_LIMIT).Ok? && ParseUnsigned(parts[1], USIZE_LIMIT).Ok?
    ensures r.Some? ==> r.value.0 < USIZE_LIMIT && r.value.1 < USIZE_LIMIT
  {
    var parts := Split(line, ",");
    if |parts| != 2 then None
    else
      match (ParseUnsigned(parts[0], USIZE_LIMIT), ParseUnsigned(parts[1], USIZE_LIMIT))
      case (Ok(x), Ok(y)) => Some((x, y))
      case _ => None
  }

  /** Reading a point back gives the point. */
  lemma ParseShowPoint(x: nat, y: nat)
    requires x < USIZE_LIMIT && y < USIZE_LIMIT
    ensures ParsePoint(ShowNat(x) + "," + ShowNat(y)) == Some((x, y))
  {
    assert AllDigits(ShowNat(x)) && AllDigits(ShowNat(y));
    assert ',' !in ShowNat(x) && ',' !in ShowNat(y);
    SplitAround(ShowNat(x), ShowNat(y), ",");
    ParseShowNat(x, USIZE_LIMIT);
    ParseShowNat(y, USIZE_LIMIT);
  }

  /** Every line read as a point. */
  function ReadPoints(lines: seq<string>): (ps: seq<Option<(nat, nat)>>)
    ensures |ps| == |lines| && forall k :: 0 <= k < |lines| ==> ps[k] == ParsePoint(lines[k])
  {
    seq(|lines|, k requires 0 <= k < |lines| => ParsePoint(lines[k]))
  }

  /** The values that are present, in order. */
  function Present<T>(os: seq<Option<T>>): seq<T> {
    if |os| == 0 then []
    else Present(os[..|os| - 1]) + (if os[|os| - 1].Some? then [os[|os| - 1].value] else [])
  }

  /** A value is kept exactly when it is present somewhere. */
  lemma {:induction false} PresentSpec<T>(os: seq<Option<T>>, v: T)
    ensures v in Present(os) <==> Some(v) in os
  {
    if |os| > 0 {
      PresentSpec(os[..|os| - 1], v);
      assert os == os[..|os| - 1] + [os[|os| - 1]];
    }
  }

  /** The points of the lines that are points (`filter_map(to_tup(..).ok())`), in order. */
  function Points(lines: seq<string>): seq<(nat, nat)> {
    Present(ReadPoints(lines))
  }

  /** A point is kept exactly when some line reads as it. */
  lemma PointsSpec(lines: seq<string>)
    ensures forall pt: (nat, nat) :: pt in Points(lines) <==> Some(pt) in ReadPoints(lines)
  {
    forall pt: (nat, nat) ensures pt in Points(lines) <==> Some(pt) in ReadPoints(lines) {
      PresentSpec(ReadPoints(lines), pt);
    }
  }

  /** The instructions of the lines that are instructions, in order. */
  function Instructions(lines: seq<string>): seq<FoldInstruction> {
    if |lines| == 0 then []
    else
      var front := Instructions(lines[..|lines| - 1]);
      match ParseFold(lines[|lines| - 1])
      case Ok(f) => front + [f]
      case Err(_) => front
  }

  /** An instruction is kept exactly when some line reads as it. */
  lemma {:induction false} InstructionsSpec(lines: seq<string>)
    ensures forall f :: f in Instructions(lines) <==> exists k :: 0 <= k < |lines| && ParseFold(lines[k]) == Ok(f)
  {
    if |lines| > 0 {
      var front := lines[..|lines| - 1];
      InstructionsSpec(front);
      assert forall k :: 0 <= k < |front| ==> front[k] == lines[k];
      assert lines == front + [lines[|lines| - 1]];
    }
  }

  function MaxOf(xs: seq<nat>): (m: nat)
    requires |xs| > 0
    ensures m in xs && forall k :: 0 <= k < |xs| ==> xs[k] <= m
  {
    if |xs| == 1 then xs[0]
    else
      var rest := MaxOf(xs[1..]);
      assert forall k :: 1 <= k < |xs| ==> xs[k] == xs[1..][k - 1];
      if xs[0] >= rest then xs[0] else rest
  }

  /** An empty sheet of `height` rows of `width` cells. */
  function Blank(height: nat, width: nat): (rows: seq<Row>)
    ensures |rows| == height && forall i :: 0 <= i < height ==> |rows[i]| == width
    ensures forall i, j :: 0 <= i < height && 0 <= j < width ==> !rows[i][j]
  {
    seq(height, i => seq(width, j => false))
  }

  /** `rows[y][x] = '#'` for each point in turn. */
  function Plot(rows: seq<Row>, pts: seq<(nat, nat)>): (r: seq<Row>)
    requires forall k :: 0 <= k < |pts| ==> pts[k].1 < |rows| && pts[k].0 < |rows[pts[k].1]|
    ensures |r| == |rows| && forall i :: 0 <= i < |rows| ==> |r[i]| == |rows[i]|
    ensures forall i, j :: 0 <= i < |rows| && 0 <= j < |rows[i]| ==> (r[i][j] <==> rows[i][j] || (j, i) in pts)
  {
    if |pts| == 0 then rows
    else
      var (x, y) := pts[|pts| - 1];
      var front := Plot(rows, pts[..|pts| - 1]);
      assert forall pt :: pt in pts <==> pt in pts[..|pts| - 1] || pt == (x, y);
      front[y := front[y][x := true]]
  }

  /** The x coordinates of the points. */
  function Xs(pts: seq<(nat, nat)>): (xs: seq<nat>)
    ensures |xs| == |pts| && forall k :: 0 <= k < |pts| ==> xs[k] == pts[k].0
  {
    seq(|pts|, k requires 0 <= k < |pts| => pts[k].0)
  }

  /** The y coordinates of the points. */
  function Ys(pts: seq<(nat, nat)>): (ys: seq<nat>)
    ensures |ys| == |pts| && forall k :: 0 <= k < |pts| ==> ys[k] == pts[k].1
  {
    seq(|pts|, k requires 0 <= k < |pts| => pts[k].1)
  }

  /** `Paper::from_str`: a sheet one wider than the largest x and one taller than the
      largest y, dotted exactly at the points; the instructions are the lines that parse
      as folds. At least one point is needed, or the source panics; other lines are skipped. */
  function ParsePaper(s: string): (p: Paper)
    requires |Points(Lines(s))| > 0
    ensures |p.rows| == MaxOf(Ys(Points(Lines(s)))) + 1
    ensures forall i :: 0 <= i < |p.rows| ==> |p.rows[i]| == MaxOf(Xs(Points(Lines(s)))) + 1
    ensures forall i, j :: 0 <= i < |p.rows| && 0 <= j < |p.rows[i]| ==> (p.rows[i][j] <==> (j, i) in Points(Lines(s)))
    ensures p.instructions == Instructions(Lines(s))
  {
    Sheet(Points(Lines(s)), Instructions(Lines(s)))
  }

  function Sheet(pts: seq<(nat, nat)>, fs: seq<FoldInstruction>): (p: Paper)
    requires |pts| > 0
    ensures && |p.rows| == MaxOf(Ys(pts)) + 1
            && (forall i :: 0 <= i < |p.rows| ==> |p.rows[i]| == MaxOf(Xs(pts)) + 1)
            && (forall i, j :: 0 <= i < |p.rows| && 0 <= j < |p.rows[i]| ==> (p.rows[i][j] <==> (j, i) in pts))
    ensures p.instructions == fs
  {
    var width := MaxOf(Xs(pts)) + 1;
    var height := MaxOf(Ys(pts)) + 1;
    var blank := Blank(height, width);
    assert forall k :: 0 <= k < |pts| ==> pts[k].1 == Ys(pts)[k] < height && pts[k].0 == Xs(pts)[k] < width;
    Paper(Plot(blank, pts), fs)
  }
}
