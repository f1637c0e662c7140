/** Day 5, hydrothermal vents: every input line "x1,y1 -> x2,y2" is a line of vents.
    Horizontal and vertical lines (and, when asked, diagonal ones) are drawn on a grid that
    counts how many lines cover each point, and the answer is the number of points covered
    by at least two lines. */
module Vents {
  import opened Wrappers
  import opened Text

  datatype Point = Point(x: nat, y: nat)

  /** `Line`: a segment from `start` to `end`, both ends included. */
  datatype Line = Line(start: Point, end: Point)

  /** The two messages of `Point::new`. */
  datatype VentError = NoX | NoY

  // ----- parsing ----------------------------------------------------------------------

  function ParseCoordinate(s: string): Result<nat, IntError> {
    ParseUnsigned(s, USIZE_LIMIT)
  }

  /** `Point::new` on the comma-separated pieces of a point: the first piece is x and the
      second y; further pieces are never looked at. */
  function NewPoint(parts: seq<string>): (r: Result<Point, VentError>)
    ensures r.Ok? <==> |parts| >= 2 && ParseCoordinate(parts[0]).Ok? && ParseCoordinate(parts[1]).Ok?
    ensures r.Ok? ==> r.value == Point(ParseCoordinate(parts[0]).value, ParseCoordinate(parts[1]).value)
    ensures r == Err(NoX) <==> |parts| == 0 || ParseCoordinate(parts[0]).Err?
  {
    if |parts| == 0 then Err(NoX)
    else
      match ParseCoordinate(parts[0])
      case Err(_) => Err(NoX)
      case Ok(x) =>
        if |parts| == 1 then Err(NoY)
        else
          match ParseCoordinate(parts[1])
          case Err(_) => Err(NoY)
          case Ok(y) => Ok(Point(x, y))
  }

  /** One "->"-separated piece of a line read as a point. */
  function ParsePiece(piece: string): Result<Point, VentError> {
    NewPoint(Split(Trim(piece), ","))
  }

  /** Every "->"-separated piece of `data`, read as a point. */
  function ParsePieces(data: string): (rs: seq<Result<Point, VentError>>)
    ensures |rs| == |Split(data, "->")|
    ensures forall k :: 0 <= k < |rs| ==> rs[k] == ParsePiece(Split(data, "->")[k])
  {
    var pieces := Split(data, "->");
    seq(|pieces|, k requires 0 <= k < |pieces| => ParsePiece(pieces[k]))
  }

  /** `assert_eq!(2, points.len())` holds whenever every piece is a point. */
  predicate TwoPoints(rs: seq<Result<Point, VentError>>) {
    CollectFrom(rs, 0).Ok? ==> |rs| == 2
  }

  /** The line made of the parsed pieces: the first piece that is not a point fails the
      line with its error. */
  function LineOf(rs: seq<Result<Point, VentError>>): (r: Result<Line, VentError>)
    requires TwoPoints(rs)
    ensures r.Ok? <==> forall k :: 0 <= k < |rs| ==> rs[k].Ok?
    ensures r.Ok? ==> |rs| == 2 && r.value == Line(rs[0].value, rs[1].value)
    ensures r.Err? ==> exists k :: 0 <= k < |rs| && rs[k] == Err(r.error)
                                   && forall j :: 0 <= j < k ==> rs[j].Ok?
  {
    match CollectFrom(rs, 0)
    case Err(e) => Err(e)
    case Ok(points) => Ok(Line(points[0], points[1]))
  }

  /** `Line::new`: the text around "->" gives the two ends. */
  function NewLine(data: string): Result<Line, VentError>
    requires TwoPoints(ParsePieces(data))
  {
    LineOf(ParsePieces(data))
  }

  // ----- rendering, the inverse of parsing ---------------------------------------------

  function ShowPoint(p: Point): string {
    ShowNat(p.x) + "," + ShowNat(p.y)
  }

  /** The input line that describes `l`. */
  function Render(l: Line): string {
    ShowPoint(l.start) + " -> " + ShowPoint(l.end)
  }

  lemma ShowPointChars(p: Point)
    ensures |ShowPoint(p)| > 0
    ensures forall c :: c in ShowPoint(p) ==> IsDigit(c) || c == ','
  {
  }

  /** A written point has no '-' and neither starts nor ends with white space. */
  lemma ShowPointEnds(p: Point)
    ensures |ShowPoint(p)| > 0 && '-' !in ShowPoint(p)
    ensures !IsWhitespace(ShowPoint(p)[0]) && !IsWhitespace(ShowPoint(p)[|ShowPoint(p)| - 1])
  {
    var a := ShowPoint(p);
    ShowPointChars(p);
    assert a[0] in a && a[|a| - 1] in a;
  }

  lemma ParseShowPoint(p: Point)
    requires p.x < USIZE_LIMIT && p.y < USIZE_LIMIT
    ensures NewPoint(Split(ShowPoint(p), ",")) == Ok(p)
  {
    var a, b := ShowNat(p.x), ShowNat(p.y);
    assert a[0] == ',' ==> !IsDigit(a[0]);
    SplitAround(a, b, ",");
    ParseShowNat(p.x, USIZE_LIMIT);
    ParseShowNat(p.y, USIZE_LIMIT);
  }

  lemma PiecesOfRender(l: Line)
    ensures Split(Render(l), "->") == [ShowPoint(l.start) + " ", " " + ShowPoint(l.end)]
    ensures |ShowPoint(l.start)| > 0 && !IsWhitespace(ShowPoint(l.start)[0])
    ensures !IsWhitespace(ShowPoint(l.start)[|ShowPoint(l.start)| - 1])
    ensures |ShowPoint(l.end)| > 0 && !IsWhitespace(ShowPoint(l.end)[0])
    ensures !IsWhitespace(ShowPoint(l.end)[|ShowPoint(l.end)| - 1])
  {
    var a, b := ShowPoint(l.start), ShowPoint(l.end);
    ShowPointEnds(l.start);
    ShowPointEnds(l.end);
    assert Render(l) == (a + " ") + "->" + (" " + b);
    assert '-' !in a + " " && '-' !in " " + b;
    SplitAround(a + " ", " " + b, "->");
  }

  /** Every line of coordinates that fit a `usize` reads back from the text that
      describes it. */
  lemma LineRoundTrip(l: Line)
    requires l.start.x < USIZE_LIMIT && l.start.y < USIZE_LIMIT
    requires l.end.x < USIZE_LIMIT && l.end.y < USIZE_LIMIT
    ensures TwoPoints(ParsePieces(Render(l))) && NewLine(Render(l)) == Ok(l)
  {
    var a, b := ShowPoint(l.start), ShowPoint(l.end);
    PiecesOfRender(l);
    var rs := ParsePieces(Render(l));
    assert rs[0] == NewPoint(Split(a, ",")) by {
      TrimPadded(a);
    }
    assert rs[1] == NewPoint(Split(b, ",")) by {
      TrimPadded(b);
    }
    ParseShowPoint(l.start);
    ParseShowPoint(l.end);
  }

  // ----- the points of a line ----------------------------------------------------------

  function Abs(x: int): nat {
    if x < 0 then -x else x
  }

  /** `is_diagonal`: both coordinates change along the line. */
  predicate IsDiagonal(l: Line) {
    l.start.x != l.end.x && l.start.y != l.end.y
  }

  /** The coordinate `i` unit steps from `a` towards `b`. */
  function Along(a: nat, b: nat, i: nat): nat
    requires i <= Abs(a - b)
  {
    if a <= b then a + i else a - i
  }

  /** The `x_range`/`y_range` loop of `to_points`: from `a` one unit at a time until `b`. */
  function Range(a: nat, b: nat): (r: seq<nat>)
    ensures |r| == Abs(a - b) + 1
    ensures forall i :: 0 <= i < |r| ==> r[i] == Along(a, b, i)
    decreases Abs(a - b)
  {
    if a == b then [a]
    else if a < b then [a] + Range(a + 1, b)
    else [a] + Range(a - 1, b)
  }

  /** `to_points`. A line that is a single point fails the `assert!`. When only one
      coordinate changes the other is repeated; when both change the two ranges are zipped,
      which stops at the shorter one. */
  function ToPoints(l: Line): (pts: seq<Point>)
    requires l.start != l.end
  {
    var xs, ys := Range(l.start.x, l.end.x), Range(l.start.y, l.end.y);
    if |xs| == 1 then seq(|ys|, i requires 0 <= i < |ys| => Point(xs[0], ys[i]))
    else if |ys| == 1 then seq(|xs|, i requires 0 <= i < |xs| => Point(xs[i], ys[0]))
    else seq(if |xs| <= |ys| then |xs| else |ys|, i requires 0 <= i < |xs| && i < |ys| => Point(xs[i], ys[i]))
  }

  /** Horizontal, vertical and 45-degree lines: the ones the puzzle promises. */
  predicate Supported(l: Line) {
    !IsDiagonal(l) || Abs(l.end.x - l.start.x) == Abs(l.end.y - l.start.y)
  }

  function Max(a: nat, b: nat): nat {
    if a >= b then a else b
  }

  function Min(a: nat, b: nat): nat {
    if a <= b then a else b
  }

  /** The points a line covers, described geometrically: inside the line's bounding box
      and, for a diagonal, as far from the start across as down. */
  predicate Covers(l: Line, p: Point) {
    && Min(l.start.x, l.end.x) <= p.x <= Max(l.start.x, l.end.x)
    && Min(l.start.y, l.end.y) <= p.y <= Max(l.start.y, l.end.y)
    && (!IsDiagonal(l) || Abs(p.x - l.start.x) == Abs(p.y - l.start.y))
  }

  /** A supported line starts at `start`, ends at `end`, has one point per unit step of
      its longer side, and moves one unit per step along each coordinate that changes. */
  lemma ToPointsShape(l: Line)
    requires l.start != l.end && Supported(l)
    ensures var pts := ToPoints(l);
            var dx, dy := Abs(l.end.x - l.start.x), Abs(l.end.y - l.start.y);
            && |pts| == Max(dx, dy) + 1
            && pts[0] == l.start && pts[|pts| - 1] == l.end
            && forall i :: 0 <= i < |pts| ==>
                 pts[i] == Point(Along(l.start.x, l.end.x, Min(i, dx)), Along(l.start.y, l.end.y, Min(i, dy)))
  {
  }

  /** No point is listed twice, whatever the line. */
  lemma ToPointsDistinct(l: Line)
    requires l.start != l.end
    ensures forall i, j :: 0 <= i < j < |ToPoints(l)| ==> ToPoints(l)[i] != ToPoints(l)[j]
  {
  }

  /** On a supported line, `to_points` lists exactly the points the line covers. */
  lemma ToPointsCovers(l: Line, p: Point)
    requires l.start != l.end && Supported(l)
    ensures p in ToPoints(l) <==> Covers(l, p)
  {
    var pts := ToPoints(l);
    ToPointsShape(l);
    var dx, dy := Abs(l.end.x - l.start.x), Abs(l.end.y - l.start.y);
    if Covers(l, p) {
      var i := if dx == 0 then Abs(p.y - l.start.y) else Abs(p.x - l.start.x);
      assert pts[i] == p;
    }
    if p in pts {
      var i :| 0 <= i < |pts| && pts[i] == p;
      ToPointCovers(l, i);
    }
  }

  /** Each listed point of a supported line is covered by it. */
  lemma ToPointCovers(l: Line, i: nat)
    requires l.start != l.end && Supported(l)
    requires i < |ToPoints(l)|
    ensures Covers(l, ToPoints(l)[i])
  {
    ToPointsShape(l);
  }

  /** Every point of a line lies in the line's bounding box. */
  lemma ToPointsInBox(l: Line)
    requires l.start != l.end
    ensures forall p :: p in ToPoints(l) ==> && Min(l.start.x, l.end.x) <= p.x <= Max(l.start.x, l.end.x)
                                             && Min(l.start.y, l.end.y) <= p.y <= Max(l.start.y, l.end.y)
  {
  }

  // ----- the ocean floor ---------------------------------------------------------------

  /** `vals`, `row_len` and `col_len`: `vals[y][x]` counts the lines through (x, y). */
  datatype Floor = Floor(vals: seq<seq<nat>>, rowLen: nat, colLen: nat)

  /** `col_len` rows of `row_len` counters each. */
  predicate Shaped(vals: seq<seq<nat>>, rowLen: nat, colLen: nat) {
    |vals| == colLen && forall y :: 0 <= y < colLen ==> |vals[y]| == rowLen
  }

  /** The filter of `OceanFloor::new`: diagonal lines only when they are asked for. */
  predicate Included(l: Line, includeDiag: bool) {
    includeDiag || !IsDiagonal(l)
  }

  /** No line that is drawn is a single point, so `to_points` does not panic. */
  predicate Drawable(lines: seq<Line>, includeDiag: bool) {
    forall k :: 0 <= k < |lines| && Included(lines[k], includeDiag) ==> lines[k].start != lines[k].end
  }

  /** The fold for `(xmax, ymax)` over the lines from `i` on, both ends of every line,
      drawn or not. */
  function BoundsFrom(lines: seq<Line>, i: nat): (b: Point)
    requires i <= |lines|
    ensures forall k :: i <= k < |lines| ==> && lines[k].start.x <= b.x && lines[k].end.x <= b.x
                                              && lines[k].start.y <= b.y && lines[k].end.y <= b.y
    ensures b.x == 0 || exists k :: i <= k < |lines| && (lines[k].start.x == b.x || lines[k].end.x == b.x)
    ensures b.y == 0 || exists k :: i <= k < |lines| && (lines[k].start.y == b.y || lines[k].end.y == b.y)
    decreases |lines| - i
  {
    if i == |lines| then Point(0, 0)
    else
      var rest, l := BoundsFrom(lines, i + 1), lines[i];
      Point(Max(Max(rest.x, l.start.x), l.end.x), Max(Max(rest.y, l.start.y), l.end.y))
  }

  /** How many of the drawn lines from `i` on pass through `p`. */
  function CoverageFrom(lines: seq<Line>, i: nat, includeDiag: bool, p: Point): nat
    requires i <= |lines| && Drawable(lines, includeDiag)
    decreases |lines| - i
  {
    if i == |lines| then 0
    else
      (if Included(lines[i], includeDiag) && p in ToPoints(lines[i]) then 1 else 0)
      + CoverageFrom(lines, i + 1, includeDiag, p)
  }

  /** How often `p` occurs in `pts[i..]`. */
  function Occurrences(pts: seq<Point>, i: nat, p: Point): nat
    requires i <= |pts|
    decreases |pts| - i
  {
    if i == |pts| then 0 else (if pts[i] == p then 1 else 0) + Occurrences(pts, i + 1, p)
  }

  /** A list without repeats holds each point at most once. */
  lemma {:induction false} OccurrencesOfDistinct(pts: seq<Point>, i: nat, p: Point)
    requires i <= |pts|
    requires forall a, b :: 0 <= a < b < |pts| ==> pts[a] != pts[b]
    ensures Occurrences(pts, i, p) == if p in pts[i..] then 1 else 0
    decreases |pts| - i
  {
    if i < |pts| {
      OccurrencesOfDistinct(pts, i + 1, p);
      assert pts[i..] == [pts[i]] + pts[i + 1..];
      if pts[i] == p {
        assert p !in pts[i + 1..];
      }
    }
  }

  /** A fresh grid of zero counters. */
  function Zeros(rowLen: nat, colLen: nat): (vals: seq<seq<nat>>)
    ensures Shaped(vals, rowLen, colLen)
    ensures forall y, x :: 0 <= y < colLen && 0 <= x < rowLen ==> vals[y][x] == 0
  {
    seq(colLen, _ => seq(rowLen, _ => 0))
  }

  /** `vals[point.y][point.x] += 1`. */
  function Bump(vals: seq<seq<nat>>, rowLen: nat, colLen: nat, p: Point): (next: seq<seq<nat>>)
    requires Shaped(vals, rowLen, colLen) && p.x < rowLen && p.y < colLen
    ensures Shaped(next, rowLen, colLen)
    ensures forall y, x :: 0 <= y < colLen && 0 <= x < rowLen ==>
              next[y][x] == vals[y][x] + if Point(x, y) == p then 1 else 0
  {
    vals[p.y := vals[p.y][p.x := vals[p.y][p.x] + 1]]
  }

  /** The inner loop of `OceanFloor::new` over the points from `i` on. */
  function MarkFrom(vals: seq<seq<nat>>, rowLen: nat, colLen: nat, pts: seq<Point>, i: nat): (next: seq<seq<nat>>)
    requires Shaped(vals, rowLen, colLen) && i <= |pts|
    requires forall k :: i <= k < |pts| ==> pts[k].x < rowLen && pts[k].y < colLen
    ensures Shaped(next, rowLen, colLen)
    ensures forall y, x :: 0 <= y < colLen && 0 <= x < rowLen ==>
              next[y][x] == vals[y][x] + Occurrences(pts, i, Point(x, y))
    decreases |pts| - i
  {
    if i == |pts| then vals
    else MarkFrom(Bump(vals, rowLen, colLen, pts[i]), rowLen, colLen, pts, i + 1)
  }

  /** Every line from `i` on fits a `rowLen` by `colLen` grid. */
  predicate FitFrom(lines: seq<Line>, i: nat, rowLen: nat, colLen: nat)
    requires i <= |lines|
  {
    forall k :: i <= k < |lines| ==> && lines[k].start.x < rowLen && lines[k].end.x < rowLen
                                     && lines[k].start.y < colLen && lines[k].end.y < colLen
  }

  /** The outer loop of `OceanFloor::new` over the lines from `i` on: every drawn line
      adds one to each point it passes through. */
  function DrawFrom(vals: seq<seq<nat>>, rowLen: nat, colLen: nat, lines: seq<Line>, i: nat, includeDiag: bool)
    : (next: seq<seq<nat>>)
    requires Shaped(vals, rowLen, colLen) && i <= |lines| && Drawable(lines, includeDiag)
    requires FitFrom(lines, i, rowLen, colLen)
    ensures Shaped(next, rowLen, colLen)
    ensures forall y, x :: 0 <= y < colLen && 0 <= x < rowLen ==>
              next[y][x] == vals[y][x] + CoverageFrom(lines, i, includeDiag, Point(x, y))
    decreases |lines| - i
  {
    if i == |lines| then vals
    else
      var l := lines[i];
      if Included(l, includeDiag) then
        var marked := MarkLine(vals, rowLen, colLen, l);
        DrawFrom(marked, rowLen, colLen, lines, i + 1, includeDiag)
      else DrawFrom(vals, rowLen, colLen, lines, i + 1, includeDiag)
  }

  /** One drawn line adds one to each point it passes through. */
  function MarkLine(vals: seq<seq<nat>>, rowLen: nat, colLen: nat, l: Line): (next: seq<seq<nat>>)
    requires Shaped(vals, rowLen, colLen) && l.start != l.end
    requires l.start.x < rowLen && l.end.x < rowLen && l.start.y < colLen && l.end.y < colLen
    ensures Shaped(next, rowLen, colLen)
    ensures forall y, x :: 0 <= y < colLen && 0 <= x < rowLen ==>
              next[y][x] == vals[y][x] + if Point(x, y) in ToPoints(l) then 1 else 0
  {
    var pts := ToPoints(l);
    ToPointsInBox(l);
    ToPointsDistinct(l);
    assert pts[0..] == pts;
    assert forall p :: Occurrences(pts, 0, p) == if p in pts then 1 else 0 by {
      forall p {
        OccurrencesOfDistinct(pts, 0, p);
      }
    }
    MarkFrom(vals, rowLen, colLen, pts, 0)
  }

  /** `OceanFloor::new`: the grid reaches one past the largest coordinate of any line, and
      each counter holds how many drawn lines pass through its point. */
  function NewFloor(lines: seq<Line>, includeDiag: bool): (f: Floor)
    requires Drawable(lines, includeDiag)
    ensures Shaped(f.vals, f.rowLen, f.colLen)
    ensures forall k :: 0 <= k < |lines| ==> && lines[k].start.x < f.rowLen && lines[k].end.x < f.rowLen
                                              && lines[k].start.y < f.colLen && lines[k].end.y < f.colLen
    ensures forall y, x :: 0 <= y < f.colLen && 0 <= x < f.rowLen ==>
              f.vals[y][x] == CoverageFrom(lines, 0, includeDiag, Point(x, y))
  {
    var b := BoundsFrom(lines, 0);
    var rowLen, colLen := b.x + 1, b.y + 1;
    Floor(DrawFrom(Zeros(rowLen, colLen), rowLen, colLen, lines, 0, includeDiag), rowLen, colLen)
  }

  // ----- counting overlaps -------------------------------------------------------------

  /** The counters from `x` on that exceed 1. */
  function CountRow(row: seq<nat>, x: nat): nat
    requires x <= |row|
    decreases |row| - x
  {
    if x == |row| then 0 else (if row[x] > 1 then 1 else 0) + CountRow(row, x + 1)
  }

  /** The counters exceeding 1 in the rows from `y` on. */
  function CountRows(vals: seq<seq<nat>>, y: nat): nat
    requires y <= |vals|
    decreases |vals| - y
  {
    if y == |vals| then 0 else CountRow(vals[y], 0) + CountRows(vals, y + 1)
  }

  /** `find_intersections`. */
  function FindIntersections(f: Floor): nat {
    CountRows(f.vals, 0)
  }

  /** Reference count, point by point: the points (x', y) with x <= x' < rowLen that at
      least two drawn lines pass through. */
  function OverlapsInRow(lines: seq<Line>, includeDiag: bool, y: nat, x: nat, rowLen: nat): nat
    requires Drawable(lines, includeDiag) && x <= rowLen
    decreases rowLen - x
  {
    if x == rowLen then 0
    else
      (if CoverageFrom(lines, 0, includeDiag, Point(x, y)) > 1 then 1 else 0)
      + OverlapsInRow(lines, includeDiag, y, x + 1, rowLen)
  }

  /** Reference count over the rows `y..colLen` of a `rowLen`-wide grid. */
  function Overlaps(lines: seq<Line>, includeDiag: bool, y: nat, rowLen: nat, colLen: nat): nat
    requires Drawable(lines, includeDiag) && y <= colLen
    decreases colLen - y
  {
    if y == colLen then 0
    else OverlapsInRow(lines, includeDiag, y, 0, rowLen) + Overlaps(lines, includeDiag, y + 1, rowLen, colLen)
  }

  lemma {:induction false} CountRowOverlaps(lines: seq<Line>, includeDiag: bool, row: seq<nat>, y: nat, x: nat)
    requires Drawable(lines, includeDiag) && x <= |row|
    requires forall k :: 0 <= k < |row| ==> row[k] == CoverageFrom(lines, 0, includeDiag, Point(k, y))
    ensures CountRow(row, x) == OverlapsInRow(lines, includeDiag, y, x, |row|)
    decreases |row| - x
  {
    if x < |row| {
      CountRowOverlaps(lines, includeDiag, row, y, x + 1);
      var rest := OverlapsInRow(lines, includeDiag, y, x + 1, |row|);
      var c := CoverageFrom(lines, 0, includeDiag, Point(x, y));
      assert OverlapsInRow(lines, includeDiag, y, x, |row|) == (if c > 1 then 1 else 0) + rest;
      assert CountRow(row, x) == (if row[x] > 1 then 1 else 0) + CountRow(row, x + 1);
      assert row[x] == c;
    }
  }

  lemma {:induction false} CountRowsOverlaps(lines: seq<Line>, includeDiag: bool, f: Floor, y: nat)
    requires Drawable(lines, includeDiag) && Shaped(f.vals, f.rowLen, f.colLen) && y <= f.colLen
    requires forall y, x :: 0 <= y < f.colLen && 0 <= x < f.rowLen ==>
               f.vals[y][x] == CoverageFrom(lines, 0, includeDiag, Point(x, y))
    ensures CountRows(f.vals, y) == Overlaps(lines, includeDiag, y, f.rowLen, f.colLen)
    decreases f.colLen - y
  {
    if y < f.colLen {
      var row := f.vals[y];
      assert |row| == f.rowLen;
      assert forall k :: 0 <= k < |row| ==> row[k] == CoverageFrom(lines, 0, includeDiag, Point(k, y));
      CountRowOverlaps(lines, includeDiag, row, y, 0);
      CountRowsOverlaps(lines, includeDiag, f, y + 1);
      assert Overlaps(lines, includeDiag, y, f.rowLen, f.colLen)
             == OverlapsInRow(lines, includeDiag, y, 0, f.rowLen) + Overlaps(lines, includeDiag, y + 1, f.rowLen, f.colLen);
    }
  }

  /** `find_intersections` counts exactly the points of the grid that two or more drawn
      lines pass through. */
  lemma IntersectionsAreOverlaps(lines: seq<Line>, includeDiag: bool)
    requires Drawable(lines, includeDiag)
    ensures var f := NewFloor(lines, includeDiag);
            FindIntersections(f) == Overlaps(lines, includeDiag, 0, f.rowLen, f.colLen)
  {
    CountRowsOverlaps(lines, includeDiag, NewFloor(lines, includeDiag), 0);
  }

  /** How many of the drawn lines from `i` on cover `p`, geometrically. */
  function CoveringFrom(lines: seq<Line>, i: nat, includeDiag: bool, p: Point): nat
    requires i <= |lines|
    decreases |lines| - i
  {
    if i == |lines| then 0
    else (if Included(lines[i], includeDiag) && Covers(lines[i], p) then 1 else 0) + CoveringFrom(lines, i + 1, includeDiag, p)
  }

  /** For supported lines the counters hold the geometric coverage: the number of drawn
      lines whose segment contains the point. */
  lemma {:induction false} CoverageIsGeometric(lines: seq<Line>, i: nat, includeDiag: bool, p: Point)
    requires i <= |lines| && Drawable(lines, includeDiag)
    requires forall k :: 0 <= k < |lines| ==> Supported(lines[k])
    ensures CoverageFrom(lines, i, includeDiag, p) == CoveringFrom(lines, i, includeDiag, p)
    decreases |lines| - i
  {
    if i < |lines| {
      if Included(lines[i], includeDiag) {
        ToPointsCovers(lines[i], p);
      }
      CoverageIsGeometric(lines, i + 1, includeDiag, p);
    }
  }

  /** The first line of the worked example reads as the segment from (0, 9) to (5, 9). */
  lemma SampleFirstLine()
    ensures TwoPoints(ParsePieces("0,9 -> 5,9"))
    ensures NewLine("0,9 -> 5,9") == Ok(Line(Point(0, 9), Point(5, 9)))
  {
    var l := Line(Point(0, 9), Point(5, 9));
    assert Render(l) == "0,9 -> 5,9" by {
      assert ShowPoint(l.start) == "0,9" by {
        assert ShowNat(0) == "0" && ShowNat(9) == "9";
      }
      assert ShowPoint(l.end) == "5,9" by {
        assert ShowNat(5) == "5" && ShowNat(9) == "9";
      }
    }
    LineRoundTrip(l);
  }
}
