/** Day 9, the smoke basins: low points of a height map and the basins that drain into
    them. The map is the shared digit grid; its parse and its 4-neighbours are those of
    the `Grid` module. */
module Basins {
  import opened Grid

  /** `i` is a cell of the well-formed map `g`. */
  predicate InMap(g: Grid, i: nat) {
    WellFormed(g) && i < |g.cells|
  }

  lemma Dimensions(g: Grid, i: nat)
    requires InMap(g, i)
    ensures g.rowLen > 0 && g.colLen > 0
  {
  }

  /** `get_neighbors` of the height map. */
  function Around(g: Grid, i: nat): (ns: seq<nat>)
    requires InMap(g, i)
    ensures forall k :: 0 <= k < |ns| ==> ns[k] < |g.cells|
    ensures forall q: nat :: q in ns <==> q < |g.cells| && Adjacent4(g.rowLen, i, q)
  {
    Dimensions(g, i);
    Neighbors4Spec(g.rowLen, g.colLen, i);
    var ns := Neighbors4(g.rowLen, g.colLen, i);
    assert forall k :: 0 <= k < |ns| ==> ns[k] in ns && ns[k] < |g.cells|;
    ns
  }

  /** Only the single cell of a 1 x 1 map has no neighbour. */
  lemma {:induction false} AloneIffSingleCell(g: Grid, i: nat)
    requires InMap(g, i)
    ensures |Around(g, i)| == 0 <==> |g.cells| == 1
  {
    Dimensions(g, i);
    var ns := Around(g, i);
    assert ns == Neighbors4(g.rowLen, g.colLen, i);
    if g.rowLen == 1 && g.colLen == 1 {
      assert i == 0;
    } else if g.rowLen == 1 {
      assert g.colLen > 1;
      if i == 0 {
        assert i / g.rowLen < g.colLen - 1;
        assert i + g.rowLen in ns;
      } else {
        assert i >= g.rowLen;
        assert i - g.rowLen in ns;
      }
    } else {
      assert |g.cells| > 1 by {
        MulMono(g.colLen, g.rowLen);
      }
      if i % g.rowLen == 0 {
        assert i % g.rowLen != g.rowLen - 1;
        assert i + 1 in ns;
      } else {
        assert i - 1 in ns;
      }
    }
  }

  /** The heights of the neighbours of `i`, in the order of `Around`. */
  function NeighborHeights(g: Grid, i: nat): (hs: seq<nat>)
    requires InMap(g, i)
    ensures |hs| == |Around(g, i)|
    ensures forall k :: 0 <= k < |hs| ==> hs[k] == g.cells[Around(g, i)[k]]
  {
    var ns := Around(g, i);
    seq(|ns|, k requires 0 <= k < |ns| => g.cells[ns[k]])
  }

  /** `iter().min().unwrap()`: the smallest of a non-empty list of heights. */
  function MinOf(hs: seq<nat>): (m: nat)
    requires |hs| > 0
    ensures m in hs
    ensures forall k :: 0 <= k < |hs| ==> m <= hs[k]
  {
    if |hs| == 1 then hs[0]
    else
      var rest := MinOf(hs[1..]);
      assert forall k :: 1 <= k < |hs| ==> hs[1..][k - 1] == hs[k];
      if hs[0] <= rest then hs[0] else rest
  }

  /** The test `get_low_points` applies to cell `i`: its height is below the smallest of its
      neighbours' heights (which panics when there is no neighbour). */
  predicate IsLowPoint(g: Grid, i: nat)
    requires InMap(g, i) && |Around(g, i)| > 0
  {
    g.cells[i] < MinOf(NeighborHeights(g, i))
  }

  /** The puzzle's definition of a low point: lower than every adjacent cell. */
  predicate BelowNeighbours(g: Grid, i: nat)
    requires InMap(g, i)
  {
    Dimensions(g, i);
    forall q: nat :: q < |g.cells| && Adjacent4(g.rowLen, i, q) ==> g.cells[i] < g.cells[q]
  }

  /** Comparing with the minimum is comparing with every neighbour. */
  lemma LowPointIff(g: Grid, i: nat)
    requires InMap(g, i) && |Around(g, i)| > 0
    ensures IsLowPoint(g, i) <==> BelowNeighbours(g, i)
  {
    var ns, hs := Around(g, i), NeighborHeights(g, i);
    if IsLowPoint(g, i) {
      forall q: nat | q < |g.cells| && Adjacent4(g.rowLen, i, q)
        ensures g.cells[i] < g.cells[q]
      {
        assert q in ns;
        var k :| 0 <= k < |ns| && ns[k] == q;
        assert hs[k] == g.cells[q];
      }
    } else {
      var m := MinOf(hs);
      var k :| 0 <= k < |hs| && hs[k] == m;
      assert ns[k] < |g.cells| && Adjacent4(g.rowLen, i, ns[k]);
    }
  }

  /** The low points among the cells from `i` on, in increasing order. */
  function LowFrom(g: Grid, i: nat): (lows: seq<nat>)
    requires WellFormed(g) && |g.cells| != 1 && i <= |g.cells|
    ensures forall k :: 0 <= k < |lows| ==> i <= lows[k] < |g.cells|
    ensures forall k, l :: 0 <= k < l < |lows| ==> lows[k] < lows[l]
    decreases |g.cells| - i
  {
    if i == |g.cells| then []
    else
      AloneIffSingleCell(g, i);
      var rest := LowFrom(g, i + 1);
      if IsLowPoint(g, i) then
        var lows := [i] + rest;
        assert forall k :: 0 < k < |lows| ==> lows[k] == rest[k - 1];
        lows
      else rest
  }

  lemma {:induction false} LowFromMembers(g: Grid, i: nat)
    requires WellFormed(g) && |g.cells| != 1 && i <= |g.cells|
    ensures forall q: nat :: q in LowFrom(g, i) <==> i <= q < |g.cells| && BelowNeighbours(g, q)
    decreases |g.cells| - i
  {
    if i < |g.cells| {
      LowFromHead(g, i);
      LowFromMembers(g, i + 1);
      var lows, rest := LowFrom(g, i), LowFrom(g, i + 1);
      var below := BelowNeighbours(g, i);
      assert lows == (if below then [i] else []) + rest;
      forall q: nat
        ensures q in lows <==> i <= q < |g.cells| && BelowNeighbours(g, q)
      {
        if q == i {
          assert q !in rest;
          assert q in lows <==> below;
        } else {
          assert q in lows <==> q in rest;
        }
      }
    }
  }

  /** One step of the scan: cell `i` is kept exactly when it is below its neighbours. */
  lemma LowFromHead(g: Grid, i: nat)
    requires WellFormed(g) && |g.cells| != 1 && i < |g.cells|
    ensures LowFrom(g, i) == (if BelowNeighbours(g, i) then [i] else []) + LowFrom(g, i + 1)
  {
    AloneIffSingleCell(g, i);
    LowPointIff(g, i);
  }

  /** `get_low_points`: every low point of the map, in increasing order. The source panics
      on a 1 x 1 map, where the only cell has no neighbour to compare with. */
  function LowPoints(g: Grid): (lows: seq<nat>)
    requires WellFormed(g) && |g.cells| != 1
    ensures forall k, l :: 0 <= k < l < |lows| ==> lows[k] < lows[l]
    ensures forall q: nat :: q in lows <==> q < |g.cells| && BelowNeighbours(g, q)
  {
    LowFromMembers(g, 0);
    LowFrom(g, 0)
  }

  /** The total risk level of a list of cells: one more than each cell's height. */
  function RiskOf(g: Grid, cells: seq<nat>): (risk: nat)
    requires forall k :: 0 <= k < |cells| ==> cells[k] < |g.cells|
    ensures risk >= |cells|
    ensures (forall i :: 0 <= i < |g.cells| ==> g.cells[i] <= 9) ==> risk <= 10 * |cells|
  {
    if |cells| == 0 then 0 else g.cells[cells[0]] + 1 + RiskOf(g, cells[1..])
  }

  /** The answer of part one: the summed risk level of the low points. */
  function RiskLevel(g: Grid): (risk: nat)
    requires WellFormed(g) && |g.cells| != 1
    ensures risk >= |LowPoints(g)|
  {
    RiskOf(g, LowPoints(g))
  }

  // ----- basins ------------------------------------------------------------------------

  /** A walk from `start` that flows through the basin: every step moves to a 4-neighbour
      whose height is not 9. */
  predicate IsWalk(g: Grid, start: nat, w: seq<nat>)
    decreases |w|
  {
    && |w| > 0 && InMap(g, w[|w| - 1])
    && if |w| == 1 then w[0] == start
       else
         var v, q := w[|w| - 2], w[|w| - 1];
         IsWalk(g, start, w[..|w| - 1]) && Adjacent4(g.rowLen, v, q) && g.cells[q] != 9
  }

  ghost predicate Reaches(g: Grid, start: nat, v: nat) {
    exists w :: IsWalk(g, start, w) && w[|w| - 1] == v
  }

  /** The basin of `start`: `start` itself and every cell a walk from it reaches. */
  ghost function Basin(g: Grid, start: nat): set<nat> {
    set v: nat | v < |g.cells| && Reaches(g, start, v)
  }

  lemma StartInBasin(g: Grid, start: nat)
    requires InMap(g, start)
    ensures start in Basin(g, start)
  {
    assert IsWalk(g, start, [start]);
  }

  /** One more step through a neighbour that is not 9 stays inside the basin. */
  lemma ExtendWalk(g: Grid, start: nat, x: nat, q: nat)
    requires InMap(g, x) && x in Basin(g, start)
    requires q in Around(g, x) && g.cells[q] != 9
    ensures q in Basin(g, start)
  {
    var w :| IsWalk(g, start, w) && w[|w| - 1] == x;
    assert q < |g.cells| && Adjacent4(g.rowLen, x, q);
    WalkSnoc(g, start, w, q);
  }

  lemma WalkSnoc(g: Grid, start: nat, w: seq<nat>, q: nat)
    requires IsWalk(g, start, w) && InMap(g, q)
    requires Adjacent4(g.rowLen, w[|w| - 1], q) && g.cells[q] != 9
    ensures IsWalk(g, start, w + [q]) && (w + [q])[|w|] == q
  {
    assert (w + [q])[..|w|] == w;
  }

  /** Every cell of `visited` has each neighbour that is not 9 either visited or pending. */
  predicate Closed(g: Grid, visited: set<nat>, pending: seq<nat>) {
    forall v, q :: v in visited && InMap(g, v) && q in Around(g, v) && g.cells[q] != 9 ==>
      q in visited || q in pending
  }

  /** A visited set that holds `start` and is closed under steps into the basin holds the
      whole basin. */
  lemma ClosedHoldsBasin(g: Grid, start: nat, visited: set<nat>)
    requires InMap(g, start) && start in visited
    requires forall v :: v in visited ==> v < |g.cells|
    requires Closed(g, visited, [])
    ensures Basin(g, start) <= visited
  {
    forall v | v in Basin(g, start) ensures v in visited {
      var w :| IsWalk(g, start, w) && w[|w| - 1] == v;
      WalkVisited(g, start, visited, w);
    }
  }

  lemma {:induction false} WalkVisited(g: Grid, start: nat, visited: set<nat>, w: seq<nat>)
    requires IsWalk(g, start, w) && start in visited
    requires forall v :: v in visited ==> v < |g.cells|
    requires Closed(g, visited, [])
    ensures w[|w| - 1] in visited
  {
    if |w| > 1 {
      var w' := w[..|w| - 1];
      WalkVisited(g, start, visited, w');
      assert w[|w| - 1] in Around(g, w'[|w'| - 1]);
    }
  }

  /** How many entries of `pending` are already visited. */
  function Stale(pending: seq<nat>, visited: set<nat>): nat {
    if |pending| == 0 then 0
    else Stale(pending[..|pending| - 1], visited) + (if pending[|pending| - 1] in visited then 1 else 0)
  }

  /** `get_basin_size`: a depth-first flood from `start` with an explicit stack; a cell can
      be pushed more than once before it is visited. The result is the size of the basin,
      between 1 and the number of cells. */
  method BasinSize(g: Grid, start: nat) returns (size: nat)
    requires InMap(g, start)
    ensures size == |Basin(g, start)|
    ensures 1 <= size <= |g.cells|
  {
    var pending := [start];
    var visited: set<nat> := {};
    StartInBasin(g, start);
    while |pending| > 0
      invariant forall k :: 0 <= k < |pending| ==> pending[k] in Basin(g, start)
      invariant visited <= Basin(g, start)
      invariant start in visited || start in pending
      invariant Closed(g, visited, pending)
      decreases |CellsBelow(|g.cells|) - visited|, Stale(pending, visited)
    {
      visited, pending := VisitLast(g, start, visited, pending);
    }
    ClosedHoldsBasin(g, start, visited);
    assert visited == Basin(g, start);
    size := |visited|;
    SubsetSize(visited, CellsBelow(|g.cells|));
  }

  /** One turn of the loop of `get_basin_size`: pop the last pending cell, mark it
      visited and push its unvisited neighbours that are not 9. Either a new cell is
      visited or one stale entry leaves the stack. */
  method VisitLast(g: Grid, start: nat, visited: set<nat>, pending: seq<nat>)
    returns (visited': set<nat>, pending': seq<nat>)
    requires InMap(g, start) && |pending| > 0
    requires forall k :: 0 <= k < |pending| ==> pending[k] in Basin(g, start)
    requires visited <= Basin(g, start)
    requires start in visited || start in pending
    requires Closed(g, visited, pending)
    ensures forall k :: 0 <= k < |pending'| ==> pending'[k] in Basin(g, start)
    ensures visited' <= Basin(g, start)
    ensures start in visited' || start in pending'
    ensures Closed(g, visited', pending')
    ensures || |CellsBelow(|g.cells|) - visited'| < |CellsBelow(|g.cells|) - visited|
            || (visited' == visited && Stale(pending', visited') < Stale(pending, visited))
  {
    var x := pending[|pending| - 1];
    var popped := pending[..|pending| - 1];
    assert pending == popped + [x];
    assert pending[..|pending| - 1] == popped;
    visited' := visited + {x};
    pending' := PushNeighbours(g, start, x, visited', popped);
    StillClosed(g, x, visited, pending, visited', popped, pending');
    StaleUnvisited(popped, pending'[|popped|..], visited');
    assert pending' == popped + pending'[|popped|..];
    if x in visited {
      assert visited' == visited;
    } else {
      assert CellsBelow(|g.cells|) - visited' < CellsBelow(|g.cells|) - visited;
    }
  }

  /** The cells of `ns` that the inner loop of `get_basin_size` pushes: those that are not
      9 and not yet visited, in order. */
  function Fresh(g: Grid, ns: seq<nat>, visited: set<nat>): seq<nat>
    requires forall k :: 0 <= k < |ns| ==> ns[k] < |g.cells|
    decreases |ns|
  {
    if |ns| == 0 then []
    else
      var last := ns[|ns| - 1];
      Fresh(g, ns[..|ns| - 1], visited) + (if g.cells[last] != 9 && last !in visited then [last] else [])
  }

  /** `Fresh` keeps exactly the cells of `ns` that are not 9 and not visited. */
  lemma {:induction false} FreshMembers(g: Grid, ns: seq<nat>, visited: set<nat>)
    requires forall k :: 0 <= k < |ns| ==> ns[k] < |g.cells|
    ensures forall q :: q in Fresh(g, ns, visited) <==> q in ns && g.cells[q] != 9 && q !in visited
    decreases |ns|
  {
    if |ns| > 0 {
      var last := ns[|ns| - 1];
      var front := ns[..|ns| - 1];
      FreshMembers(g, front, visited);
      assert ns == front + [last];
    }
  }

  lemma FreshStep(g: Grid, ns: seq<nat>, visited: set<nat>, i: nat)
    requires forall k :: 0 <= k < |ns| ==> ns[k] < |g.cells|
    requires i < |ns|
    ensures Fresh(g, ns[..i + 1], visited)
            == Fresh(g, ns[..i], visited) + (if g.cells[ns[i]] != 9 && ns[i] !in visited then [ns[i]] else [])
  {
    assert ns[..i + 1][..i] == ns[..i];
  }

  /** The inner loop of `get_basin_size`: push every neighbour of `x` that is not 9 and
      not yet visited onto the stack. */
  method PushNeighbours(g: Grid, start: nat, x: nat, visited: set<nat>, pending: seq<nat>)
    returns (pushed: seq<nat>)
    requires InMap(g, x) && x in Basin(g, start)
    requires forall k :: 0 <= k < |pending| ==> pending[k] in Basin(g, start)
    ensures |pending| <= |pushed| && pushed[..|pending|] == pending
    ensures forall k :: 0 <= k < |pushed| ==> pushed[k] in Basin(g, start)
    ensures forall k :: |pending| <= k < |pushed| ==> pushed[k] !in visited
    ensures forall q :: q in Around(g, x) && g.cells[q] != 9 ==> q in visited || q in pushed
  {
    pushed := PushFresh(g, Around(g, x), visited, pending);
    assert pushed[..|pending|] == pending;
    FreshInBasin(g, start, x, visited, pending, pushed);
  }

  /** The loop over the neighbours `ns`: push each one that is not 9 and not visited. */
  method PushFresh(g: Grid, ns: seq<nat>, visited: set<nat>, pending: seq<nat>)
    returns (pushed: seq<nat>)
    requires forall k :: 0 <= k < |ns| ==> ns[k] < |g.cells|
    ensures pushed == pending + Fresh(g, ns, visited)
  {
    pushed := pending;
    var i := 0;
    while i < |ns|
      invariant 0 <= i <= |ns|
      invariant pushed == pending + Fresh(g, ns[..i], visited)
    {
      var q := ns[i];
      FreshStep(g, ns, visited, i);
      ghost var before := Fresh(g, ns[..i], visited);
      if g.cells[q] != 9 && q !in visited {
        pushed := pushed + [q];
        assert pending + before + [q] == pending + (before + [q]);
      }
      i := i + 1;
    }
    assert ns[..i] == ns;
  }

  /** What the inner loop adds lies in the basin, is unvisited, and covers every
      neighbour that is not 9. */
  lemma FreshInBasin(g: Grid, start: nat, x: nat, visited: set<nat>, pending: seq<nat>,
                     pushed: seq<nat>)
    requires InMap(g, x) && x in Basin(g, start)
    requires forall k :: 0 <= k < |pending| ==> pending[k] in Basin(g, start)
    requires pushed == pending + Fresh(g, Around(g, x), visited)
    ensures forall k :: 0 <= k < |pushed| ==> pushed[k] in Basin(g, start)
    ensures forall k :: |pending| <= k < |pushed| ==> pushed[k] !in visited
    ensures forall q :: q in Around(g, x) && g.cells[q] != 9 ==> q in visited || q in pushed
  {
    var added := Fresh(g, Around(g, x), visited);
    FreshMembers(g, Around(g, x), visited);
    forall k | 0 <= k < |pushed|
      ensures pushed[k] in Basin(g, start)
    {
      if k >= |pending| {
        assert pushed[k] == added[k - |pending|];
        assert pushed[k] in added;
        ExtendWalk(g, start, x, pushed[k]);
      }
    }
    forall k | |pending| <= k < |pushed|
      ensures pushed[k] !in visited
    {
      assert pushed[k] == added[k - |pending|];
      assert pushed[k] in added;
    }
  }

  /** Popping `x`, visiting it and pushing its neighbours keeps every visited cell's
      neighbours visited or pending. */
  lemma StillClosed(g: Grid, x: nat, before: set<nat>, stacked: seq<nat>, visited: set<nat>,
                    popped: seq<nat>, pending: seq<nat>)
    requires Closed(g, before, stacked) && stacked == popped + [x] && visited == before + {x}
    requires |popped| <= |pending| && pending[..|popped|] == popped
    requires InMap(g, x) ==> forall q :: q in Around(g, x) && g.cells[q] != 9 ==> q in visited || q in pending
    ensures Closed(g, visited, pending)
  {
    forall v, q | v in visited && InMap(g, v) && q in Around(g, v) && g.cells[q] != 9
      ensures q in visited || q in pending
    {
      if q !in visited && v != x {
        assert q in stacked;
        assert q in popped;
        var k :| 0 <= k < |popped| && popped[k] == q;
        assert pending[k] == q;
      }
    }
  }

  /** Pushing cells that are not visited adds nothing stale. */
  lemma {:induction false} StaleUnvisited(a: seq<nat>, b: seq<nat>, visited: set<nat>)
    requires forall k :: 0 <= k < |b| ==> b[k] !in visited
    ensures Stale(a + b, visited) == Stale(a, visited)
  {
    if |b| > 0 {
      var b' := b[..|b| - 1];
      StaleUnvisited(a, b', visited);
      assert (a + b)[..|a + b| - 1] == a + b';
    } else {
      assert a + b == a;
    }
  }

  // ----- all basins --------------------------------------------------------------------

  /** Entries never increase from left to right. */
  predicate NonIncreasing(s: seq<nat>) {
    forall k, l :: 0 <= k < l < |s| ==> s[k] >= s[l]
  }

  predicate NonDecreasing(s: seq<nat>) {
    forall k, l :: 0 <= k < l < |s| ==> s[k] <= s[l]
  }

  /** `x` placed into the ascending list `s`. */
  function InsertAscending(x: nat, s: seq<nat>): seq<nat> {
    if |s| == 0 || x <= s[0] then [x] + s else [s[0]] + InsertAscending(x, s[1..])
  }

  lemma AscendingCons(x: nat, s: seq<nat>)
    requires NonDecreasing(s) && forall y :: y in s ==> x <= y
    ensures NonDecreasing([x] + s)
  {
    var t := [x] + s;
    forall k, l | 0 <= k < l < |t|
      ensures t[k] <= t[l]
    {
      assert t[l] == s[l - 1] && t[l] in s;
    }
  }

  lemma {:induction false} InsertAscendingSpec(x: nat, s: seq<nat>)
    requires NonDecreasing(s)
    ensures NonDecreasing(InsertAscending(x, s))
    ensures multiset(InsertAscending(x, s)) == multiset(s) + multiset{x}
  {
    if |s| > 0 && x > s[0] {
      var rest := s[1..];
      InsertAscendingSpec(x, rest);
      assert s == [s[0]] + rest;
      var r := InsertAscending(x, rest);
      forall y | y in r
        ensures s[0] <= y
      {
        assert y in multiset(r);
        if y != x {
          assert y in multiset(rest);
          assert y in rest;
        }
      }
      AscendingCons(s[0], r);
    } else {
      AscendingCons(x, s);
    }
  }

  /** `sort()`: the ascending rearrangement of `s`. */
  function SortAscending(s: seq<nat>): (r: seq<nat>)
    ensures NonDecreasing(r)
    ensures multiset(r) == multiset(s)
  {
    if |s| == 0 then []
    else
      assert s == [s[0]] + s[1..];
      var rest := SortAscending(s[1..]);
      InsertAscendingSpec(s[0], rest);
      InsertAscending(s[0], rest)
  }

  /** The basin sizes of the low points, in the order of the low points. */
  ghost function BasinSizes(g: Grid, lows: seq<nat>): (sizes: seq<nat>)
    requires forall k :: 0 <= k < |lows| ==> lows[k] < |g.cells|
  {
    seq(|lows|, k requires 0 <= k < |lows| => |Basin(g, lows[k])|)
  }

  /** `get_all_basins`: the basin size of every low point, largest first. */
  method AllBasins(g: Grid) returns (basins: seq<nat>)
    requires WellFormed(g) && |g.cells| != 1
    ensures NonIncreasing(basins)
    ensures multiset(basins) == multiset(BasinSizes(g, LowPoints(g)))
  {
    var sizes := SizesOf(g, LowPoints(g));
    var ascending := SortAscending(sizes);
    basins := Reversed(ascending);
    Descending(ascending);
  }

  /** The `map(get_basin_size)` of `get_all_basins`: the basin size of each low point. */
  method SizesOf(g: Grid, lows: seq<nat>) returns (sizes: seq<nat>)
    requires WellFormed(g) && forall k :: 0 <= k < |lows| ==> lows[k] < |g.cells|
    ensures sizes == BasinSizes(g, lows)
  {
    sizes := [];
    var i := 0;
    while i < |lows|
      invariant 0 <= i <= |lows| && |sizes| == i
      invariant forall k :: 0 <= k < i ==> sizes[k] == |Basin(g, lows[k])|
    {
      var s := BasinSize(g, lows[i]);
      sizes := sizes + [s];
      i := i + 1;
    }
  }

  /** An ascending list read back to front is descending, with the same entries. */
  lemma Descending(a: seq<nat>)
    requires NonDecreasing(a)
    ensures NonIncreasing(Reversed(a)) && multiset(Reversed(a)) == multiset(a)
  {
    ReversedPermutes(a);
    var r := Reversed(a);
    forall k, l | 0 <= k < l < |r| ensures r[k] >= r[l] {
      assert r[k] == a[|a| - 1 - k] && r[l] == a[|a| - 1 - l];
    }
  }

  /** The answer of part two: `take(3).fold(1, |acc, x| x * acc)`, the product of the
      first three sizes (or of all of them when there are fewer). */
  function TopThreeProduct(basins: seq<nat>): nat {
    if |basins| <= 3 then Product(basins) else Product(basins[..3])
  }

  function Product(s: seq<nat>): nat {
    if |s| == 0 then 1 else s[0] * Product(s[1..])
  }

  /** A product of three factors grows with each factor. */
  lemma MulMonotone(a: nat, b: nat, c: nat, x: nat, y: nat, z: nat)
    requires x <= a && y <= b && z <= c
    ensures x * y * z <= a * b * c
  {
    assert x * y <= a * b by {
      assert x * y <= a * y;
      assert a * y <= a * b;
    }
    assert x * y * z <= a * b * z;
  }

  /** On a list sorted largest first, the answer of part two is at least the product of
      any three different entries: it is the product of the three largest basins. */
  lemma TopThreeIsLargest(basins: seq<nat>, i: nat, j: nat, k: nat)
    requires NonIncreasing(basins) && i < j < k < |basins|
    ensures TopThreeProduct(basins) >= basins[i] * basins[j] * basins[k]
  {
    TopThreeIsFirstThree(basins);
    assert basins[0] >= basins[i] && basins[1] >= basins[j] && basins[2] >= basins[k];
    MulMonotone(basins[0], basins[1], basins[2], basins[i], basins[j], basins[k]);
  }

  lemma TopThreeIsFirstThree(basins: seq<nat>)
    requires |basins| >= 3
    ensures TopThreeProduct(basins) == basins[0] * basins[1] * basins[2]
  {
    var top := if |basins| <= 3 then basins else basins[..3];
    assert top == [basins[0], basins[1], basins[2]];
    ProductOfThree(top);
    assert basins[0] * (basins[1] * basins[2]) == basins[0] * basins[1] * basins[2];
  }

  lemma ProductOfThree(s: seq<nat>)
    requires |s| == 3
    ensures Product(s) == s[0] * (s[1] * s[2])
  {
    assert s[1..][1..][1..] == [];
    assert Product(s[1..][1..]) == s[2];
  }
}
