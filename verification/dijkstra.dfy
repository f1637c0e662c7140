/** Day 15, the chiton cave: `Cave::dijkstra_alg`, the lowest total risk of a walk from a
    start cell to the bottom-right cell. The binary heap is a multiset of `Chiton.State`
    from which the greatest state under `Chiton.Cmp` is popped; lazy deletion (a state
    whose cell is already visited is popped and dropped) is kept as in the source. */
module Dijkstra {
  import opened Wrappers
  import opened Grid
  import opened Chiton

  // ----- walks and their risk --------------------------------------------------------

  /** One step of a walk: `p` and `q` are in-bounds cells one row or one column apart,
      which by `Grid.Neighbors4Spec` is `q` being among the `get_neighbors` of `p`. */
  predicate Step(g: Grid, p: nat, q: nat) {
    && WellFormed(g) && g.rowLen > 0 && p < |g.cells| && q < |g.cells|
    && Adjacent4(g.rowLen, p, q)
  }

  /** A non-empty sequence of in-bounds cells, each a neighbour of the one before. */
  predicate IsWalk(g: Grid, w: seq<nat>) {
    && |w| > 0
    && (forall k :: 0 <= k < |w| ==> w[k] < |g.cells|)
    && (forall k :: 0 < k < |w| ==> Step(g, w[k - 1], w[k]))
  }

  /** A walk from `from` to `to`. */
  predicate Walk(g: Grid, from: nat, to: nat, w: seq<nat>) {
    IsWalk(g, w) && w[0] == from && w[|w| - 1] == to
  }

  /** The risk of a walk: the risk levels of every cell it enters, the first one not
      counted. */
  function Cost(g: Grid, w: seq<nat>): nat
    requires forall k :: 0 <= k < |w| ==> w[k] < |g.cells|
  {
    if |w| <= 1 then 0 else Cost(g, w[..|w| - 1]) + g.cells[w[|w| - 1]]
  }

  /** The bottom-right cell, the goal of the search. */
  function Goal(g: Grid): nat
    requires |g.cells| > 0
  {
    |g.cells| - 1
  }

  /** Entering one more cell adds its risk level. */
  lemma CostExtend(g: Grid, w: seq<nat>, x: nat)
    requires |w| > 0 && x < |g.cells|
    requires forall k :: 0 <= k < |w| ==> w[k] < |g.cells|
    ensures var v := w + [x];
            (forall k :: 0 <= k < |v| ==> v[k] < |g.cells|) && Cost(g, v) == Cost(g, w) + g.cells[x]
  {
    assert (w + [x])[..|w|] == w;
  }

  /** A walk extended by a neighbour of its last cell is a walk. */
  lemma WalkExtend(g: Grid, from: nat, w: seq<nat>, x: nat)
    requires IsWalk(g, w) && w[0] == from && Step(g, w[|w| - 1], x)
    ensures Walk(g, from, x, w + [x]) && Cost(g, w + [x]) == Cost(g, w) + g.cells[x]
  {
    CostExtend(g, w, x);
  }

  /** Risk never drops along a walk: every prefix costs at most the whole walk. */
  lemma {:induction false} CostPrefix(g: Grid, w: seq<nat>, k: nat)
    requires 0 < k <= |w|
    requires forall i :: 0 <= i < |w| ==> w[i] < |g.cells|
    ensures Cost(g, w[..k]) <= Cost(g, w)
    decreases |w|
  {
    if k < |w| {
      var front := w[..|w| - 1];
      assert front[..k] == w[..k];
      CostPrefix(g, front, k);
    } else {
      assert w[..k] == w;
    }
  }

  /** A prefix of a walk is a walk. */
  lemma WalkPrefix(g: Grid, w: seq<nat>, k: nat)
    requires IsWalk(g, w) && 0 < k <= |w|
    ensures IsWalk(g, w[..k]) && w[..k][0] == w[0] && w[..k][k - 1] == w[k - 1]
  {
  }

  // ----- walks exist --------------------------------------------------------------------

  /** Moving one column right, inside a row, is a step both ways. */
  lemma StepRight(g: Grid, p: nat)
    requires WellFormed(g) && g.rowLen > 0 && p < |g.cells| && p % g.rowLen < g.rowLen - 1
    ensures p + 1 < |g.cells| && Step(g, p, p + 1) && Step(g, p + 1, p)
  {
    Coords(g.rowLen, g.colLen, p);
    DivMod(p + 1, g.rowLen, p / g.rowLen, p % g.rowLen + 1);
    Coords(g.rowLen, g.colLen, p + 1);
  }

  /** Moving one row down, inside the grid, is a step both ways. */
  lemma StepDown(g: Grid, p: nat)
    requires WellFormed(g) && g.rowLen > 0 && p + g.rowLen < |g.cells|
    ensures Step(g, p, p + g.rowLen) && Step(g, p + g.rowLen, p)
  {
    var n := g.rowLen;
    Coords(n, g.colLen, p);
    assert (p / n + 1) * n == p / n * n + n;
    DivMod(p + n, n, p / n + 1, p % n);
  }

  /** The goal is the last cell of the last row. */
  lemma GoalCorner(g: Grid)
    requires WellFormed(g) && g.rowLen > 0 && |g.cells| > 0
    ensures Goal(g) % g.rowLen == g.rowLen - 1 && Goal(g) / g.rowLen == g.colLen - 1
  {
    var n := g.rowLen;
    assert g.colLen > 0;
    assert (g.colLen - 1) * n == g.colLen * n - n;
    DivMod(Goal(g), n, g.colLen - 1, n - 1);
  }

  /** A cell at the end of a row, before the goal, has a cell below it. */
  lemma EdgeBelow(g: Grid, p: nat)
    requires WellFormed(g) && g.rowLen > 0 && p + 1 < |g.cells| && p % g.rowLen == g.rowLen - 1
    ensures p + g.rowLen < |g.cells|
  {
    var n := g.rowLen;
    assert g.colLen > 0;
    assert |g.cells| - 1 == (g.colLen - 1) * n + n - 1 by {
      assert (g.colLen - 1) * n == g.colLen * n - n;
    }
    Coords(n, g.colLen, p);
    var k := p / n - (g.colLen - 1);
    assert k * n == p / n * n - (g.colLen - 1) * n;
    MulMono(k, n);
    assert p + n == (p / n + 1) * n + n - 1;
    assert (p / n + 1) * n <= (g.colLen - 1) * n by {
      MulMono(g.colLen - 1 - (p / n + 1), n);
      assert (g.colLen - 1 - (p / n + 1)) * n == (g.colLen - 1) * n - (p / n + 1) * n;
    }
  }

  /** From every cell there is a walk to the goal: right along the row, then down the
      last column. */
  lemma {:induction false} ToGoal(g: Grid, p: nat) returns (w: seq<nat>)
    requires WellFormed(g) && g.rowLen > 0 && p < |g.cells|
    ensures Walk(g, p, Goal(g), w)
    decreases |g.cells| - p
  {
    var n := g.rowLen;
    if p == Goal(g) {
      w := [p];
    } else if p % n < n - 1 {
      StepRight(g, p);
      var rest := ToGoal(g, p + 1);
      w := [p] + rest;
    } else {
      EdgeBelow(g, p);
      StepDown(g, p);
      var rest := ToGoal(g, p + n);
      w := [p] + rest;
    }
  }

  /** In a cave of two cells or more there is a walk of two cells or more from any cell
      to the goal; in a cave of one cell there is none. */
  lemma Reachable(g: Grid, start: nat)
    requires WellFormed(g) && g.rowLen > 0 && start < |g.cells|
    ensures (exists w :: Walk(g, start, Goal(g), w) && |w| >= 2) <==> |g.cells| >= 2
  {
    if |g.cells| >= 2 {
      var w := LongWalk(g, start);
    } else {
      forall w | Walk(g, start, Goal(g), w) && |w| >= 2
        ensures false
      {
        NoStepAlone(g, w[0], w[1]);
      }
    }
  }

  lemma LongWalk(g: Grid, start: nat) returns (w: seq<nat>)
    requires WellFormed(g) && g.rowLen > 0 && start < |g.cells| && |g.cells| >= 2
    ensures Walk(g, start, Goal(g), w) && |w| >= 2
  {
    if start != Goal(g) {
      w := ToGoal(g, start);
    } else {
      var q := Beside(g);
      w := [Goal(g), q, Goal(g)];
      assert Step(g, w[0], w[1]) && Step(g, w[1], w[2]);
    }
  }

  /** In a cave of two cells or more the goal has a neighbour. */
  lemma Beside(g: Grid) returns (q: nat)
    requires WellFormed(g) && g.rowLen > 0 && |g.cells| >= 2
    ensures q < |g.cells| && Step(g, q, Goal(g)) && Step(g, Goal(g), q)
  {
    GoalCorner(g);
    if g.rowLen > 1 {
      q := Goal(g) - 1;
      assert Goal(g) == Goal(g) / g.rowLen * g.rowLen + Goal(g) % g.rowLen;
      DivMod(q, g.rowLen, g.colLen - 1, g.rowLen - 2);
      StepRight(g, q);
    } else {
      q := Goal(g) - g.rowLen;
      StepDown(g, q);
    }
  }

  /** A cave of one cell has no step. */
  lemma NoStepAlone(g: Grid, p: nat, q: nat)
    requires |g.cells| == 1
    ensures !Step(g, p, q)
  {
  }

  // ----- the heap --------------------------------------------------------------------

  /** The state `BinaryHeap::pop` returns: the greatest under `Ord for State`, the one
      cheapest state at the largest position. No other state in the heap ranks equal. */
  method Greatest(heap: multiset<State>) returns (best: State)
    requires |heap| > 0
    ensures best in heap
    ensures forall t :: t in heap && t != best ==> Cmp(best, t) == Greater
    ensures forall t :: t in heap ==> best.cost <= t.cost
  {
    best :| best in heap;
    var rest := heap - multiset{best};
    while |rest| > 0
      invariant best in heap && rest <= heap
      invariant forall t :: t in heap && t !in rest && t != best ==> Cmp(best, t) == Greater
      decreases |rest|
    {
      var x :| x in rest;
      CmpSpec(best, x);
      if Cmp(x, best) == Greater {
        forall t | t in heap && t !in rest - multiset{x} && t != x
          ensures Cmp(x, t) == Greater
        {
          if t != best {
            CmpTransitive(x, best, t);
          }
        }
        best := x;
      }
      rest := rest - multiset{x};
    }
    forall t | t in heap
      ensures best.cost <= t.cost
    {
      CmpSpec(best, t);
    }
  }

  /** The states `dijkstra_alg` pushes on reaching `pos` at risk `cost`: each neighbour at
      `cost` plus its own risk level, in `get_neighbors` order. */
  function Pushes(g: Grid, pos: nat, cost: nat): seq<State>
    requires WellFormed(g) && g.rowLen > 0 && pos < |g.cells|
  {
    assert g.colLen > 0;
    var ns := Neighbors4(g.rowLen, g.colLen, pos);
    Neighbors4Inside(g.rowLen, g.colLen, pos);
    seq(|ns|, k requires 0 <= k < |ns| => State(ns[k], cost + g.cells[ns[k]]))
  }

  /** The pushed states are exactly the steps from `pos`, each at `cost` plus the risk
      level of the cell it enters. */
  lemma PushesSpec(g: Grid, pos: nat, cost: nat)
    requires WellFormed(g) && g.rowLen > 0 && pos < |g.cells|
    ensures PushedFrom(g, pos, cost, Pushes(g, pos, cost))
  {
    PushesSound(g, pos, cost);
    PushesComplete(g, pos, cost);
  }

  lemma PushesSound(g: Grid, pos: nat, cost: nat)
    requires WellFormed(g) && g.rowLen > 0 && pos < |g.cells|
    ensures forall s :: s in Pushes(g, pos, cost) ==> Step(g, pos, s.pos) && s.cost == cost + g.cells[s.pos]
  {
    assert g.colLen > 0;
    var ns := Neighbors4(g.rowLen, g.colLen, pos);
    Neighbors4Spec(g.rowLen, g.colLen, pos);
    var ss := Pushes(g, pos, cost);
    forall s | s in ss
      ensures Step(g, pos, s.pos) && s.cost == cost + g.cells[s.pos]
    {
      var k :| 0 <= k < |ss| && ss[k] == s;
      assert ns[k] in ns;
    }
  }

  lemma PushesComplete(g: Grid, pos: nat, cost: nat)
    requires WellFormed(g) && g.rowLen > 0 && pos < |g.cells|
    ensures forall s: State :: Step(g, pos, s.pos) && s.cost == cost + g.cells[s.pos] ==> s in Pushes(g, pos, cost)
  {
    assert g.colLen > 0;
    var ns := Neighbors4(g.rowLen, g.colLen, pos);
    Neighbors4Spec(g.rowLen, g.colLen, pos);
    var ss := Pushes(g, pos, cost);
    forall s: State | Step(g, pos, s.pos) && s.cost == cost + g.cells[s.pos]
      ensures s in ss
    {
      var k :| 0 <= k < |ns| && ns[k] == s.pos;
      assert ss[k] == s;
    }
  }

  // ----- the search invariant --------------------------------------------------------

  /** A cell the search may still have to settle: not yet visited, or the goal (which is
      never visited, but may be the start). */
  predicate Open(g: Grid, visited: set<nat>, y: nat)
    requires |g.cells| > 0
  {
    y !in visited || y == Goal(g)
  }

  /** Every visited cell is in bounds and has a settled risk; only the start may be the
      goal. */
  ghost predicate Bounded(g: Grid, start: nat, visited: set<nat>, settled: map<nat, nat>) {
    && WellFormed(g) && g.rowLen > 0
    && start in visited
    && (forall x :: x in visited ==> x < |g.cells| && x in settled)
    && (forall x :: x in visited && x == |g.cells| - 1 ==> x == start)
  }

  /** No walk to a visited cell is cheaper than its settled risk. */
  ghost predicate Settled(g: Grid, start: nat, visited: set<nat>, settled: map<nat, nat>)
    requires Bounded(g, start, visited, settled)
  {
    forall x, w :: x in visited && Walk(g, start, x, w) ==> settled[x] <= Cost(g, w)
  }

  /** Every open neighbour of a visited cell is in the heap at the settled risk plus its
      own risk level. */
  ghost predicate Frontier(g: Grid, start: nat, heap: multiset<State>, visited: set<nat>, settled: map<nat, nat>)
    requires Bounded(g, start, visited, settled)
  {
    forall x, y: nat :: x in visited && Step(g, x, y) && Open(g, visited, y) ==>
      State(y, settled[x] + g.cells[y]) in heap
  }

  /** Every state in the heap is the end and the risk of a real walk of two cells or more. */
  ghost predicate Witnessed(g: Grid, start: nat, heap: multiset<State>, paths: map<State, seq<nat>>) {
    forall s :: s in heap ==>
      s in paths && Walk(g, start, s.pos, paths[s]) && |paths[s]| >= 2 && Cost(g, paths[s]) == s.cost
  }

  ghost predicate Invariant(g: Grid, start: nat, heap: multiset<State>, visited: set<nat>,
                            settled: map<nat, nat>, paths: map<State, seq<nat>>) {
    && Bounded(g, start, visited, settled)
    && Settled(g, start, visited, settled)
    && Frontier(g, start, heap, visited, settled)
    && Witnessed(g, start, heap, paths)
  }

  /** A walk from the start that ends in an open cell leaves the visited cells somewhere:
      at a step from a visited cell to an open one. */
  lemma Exit(g: Grid, start: nat, visited: set<nat>, w: seq<nat>) returns (k: nat)
    requires WellFormed(g) && g.rowLen > 0 && |g.cells| > 0 && start in visited
    requires |w| >= 2 && Walk(g, start, w[|w| - 1], w) && Open(g, visited, w[|w| - 1])
    ensures 0 < k < |w| && w[k - 1] in visited && Open(g, visited, w[k])
  {
    k := 1;
    while !Open(g, visited, w[k])
      invariant 0 < k < |w| && w[k - 1] in visited
      decreases |w| - k
    {
      k := k + 1;
    }
  }

  /** Every walk of two cells or more from the start to an open cell costs at least the
      risk of the state the heap pops. */
  lemma Lower(g: Grid, start: nat, heap: multiset<State>, visited: set<nat>, settled: map<nat, nat>,
              paths: map<State, seq<nat>>, top: State, w: seq<nat>)
    requires Invariant(g, start, heap, visited, settled, paths)
    requires forall t :: t in heap ==> top.cost <= t.cost
    requires |w| >= 2 && Walk(g, start, w[|w| - 1], w) && Open(g, visited, w[|w| - 1])
    ensures top.cost <= Cost(g, w)
  {
    var k := Exit(g, start, visited, w);
    var x, y := w[k - 1], w[k];
    var front := w[..k];
    WalkPrefix(g, w, k);
    assert Walk(g, start, x, front);
    assert Step(g, x, y);
    var c := ExitCost(g, start, heap, visited, settled, paths, x, y, front);
    assert top.cost <= c + g.cells[y];
    assert w[..k + 1] == front + [y];
    CostExtend(g, front, y);
    CostPrefix(g, w, k + 1);
  }

  /** Where a walk leaves the visited cells, the heap holds the step out at no more than
      the walk's risk so far plus the cell it enters. */
  lemma ExitCost(g: Grid, start: nat, heap: multiset<State>, visited: set<nat>, settled: map<nat, nat>,
                 paths: map<State, seq<nat>>, x: nat, y: nat, front: seq<nat>) returns (c: nat)
    requires Invariant(g, start, heap, visited, settled, paths)
    requires x in visited && Walk(g, start, x, front) && Step(g, x, y) && Open(g, visited, y)
    ensures c <= Cost(g, front) && State(y, c + g.cells[y]) in heap
  {
    c := settled[x];
  }

  /** While a walk of two cells or more from the start to an open cell exists, the heap
      is not empty. */
  lemma Pending(g: Grid, start: nat, heap: multiset<State>, visited: set<nat>, settled: map<nat, nat>,
                paths: map<State, seq<nat>>, w: seq<nat>)
    requires Invariant(g, start, heap, visited, settled, paths)
    requires |w| >= 2 && Walk(g, start, w[|w| - 1], w) && Open(g, visited, w[|w| - 1])
    ensures |heap| > 0
  {
    var k := Exit(g, start, visited, w);
    WalkPrefix(g, w, k);
    assert State(w[k], settled[w[k - 1]] + g.cells[w[k]]) in heap;
  }

  /** The search starts with the start cell visited and its neighbours in the heap. */
  lemma Initially(g: Grid, start: nat, pushes: seq<State>) returns (paths: map<State, seq<nat>>)
    requires WellFormed(g) && g.rowLen > 0 && start < |g.cells|
    requires PushedFrom(g, start, 0, pushes)
    ensures Invariant(g, start, multiset(pushes), {start}, map[start := 0], paths)
  {
    var heap := multiset(pushes);
    paths := map s | s in pushes :: [start, s.pos];
    forall s | s in heap
      ensures s in paths && Walk(g, start, s.pos, paths[s]) && |paths[s]| >= 2 && Cost(g, paths[s]) == s.cost
    {
      WalkExtend(g, start, [start], s.pos);
    }
  }

  /** Dropping a popped state whose cell is already visited keeps the invariant. */
  lemma DropVisited(g: Grid, start: nat, heap: multiset<State>, visited: set<nat>,
                    settled: map<nat, nat>, paths: map<State, seq<nat>>, top: State)
    requires Invariant(g, start, heap, visited, settled, paths)
    requires top in heap && top.pos in visited && top.pos != |g.cells| - 1
    ensures Invariant(g, start, heap - multiset{top}, visited, settled, paths)
  {
    var rest := heap - multiset{top};
    forall x, y: nat | x in visited && Step(g, x, y) && Open(g, visited, y)
      ensures State(y, settled[x] + g.cells[y]) in rest
    {
      assert State(y, settled[x] + g.cells[y]) != top;
    }
  }

  /** The states pushed on visiting `y` at risk `cost`, as `PushesSpec` describes them. */
  ghost predicate PushedFrom(g: Grid, y: nat, cost: nat, pushes: seq<State>) {
    forall s :: s in pushes <==> Step(g, y, s.pos) && s.cost == cost + g.cells[s.pos]
  }

  /** Visiting the popped state's cell at the popped risk, and pushing its neighbours,
      keeps the invariant. */
  lemma VisitKeeps(g: Grid, start: nat, heap: multiset<State>, visited: set<nat>,
                   settled: map<nat, nat>, paths: map<State, seq<nat>>, top: State, pushes: seq<State>)
    requires Invariant(g, start, heap, visited, settled, paths)
    requires top in heap && top.pos !in visited && top.pos != |g.cells| - 1
    requires forall t :: t in heap ==> top.cost <= t.cost
    requires PushedFrom(g, top.pos, top.cost, pushes)
    ensures top.pos < |g.cells|
    ensures Invariant(g, start, heap - multiset{top} + multiset(pushes), visited + {top.pos},
                      settled[top.pos := top.cost], Reach(paths, paths[top], pushes))
  {
    var y := top.pos;
    var visited' := visited + {y};
    var settled' := settled[y := top.cost];
    assert Bounded(g, start, visited', settled');
    VisitSettled(g, start, heap, visited, settled, paths, top);
    VisitFrontier(g, start, heap, visited, settled, top, pushes);
    VisitWitnessed(g, start, heap, paths, top, pushes);
  }

  lemma VisitSettled(g: Grid, start: nat, heap: multiset<State>, visited: set<nat>,
                     settled: map<nat, nat>, paths: map<State, seq<nat>>, top: State)
    requires Invariant(g, start, heap, visited, settled, paths)
    requires top in heap && top.pos !in visited && top.pos != |g.cells| - 1
    requires forall t :: t in heap ==> top.cost <= t.cost
    requires Bounded(g, start, visited + {top.pos}, settled[top.pos := top.cost])
    ensures Settled(g, start, visited + {top.pos}, settled[top.pos := top.cost])
  {
    var y := top.pos;
    var visited' := visited + {y};
    var settled' := settled[y := top.cost];
    forall x, w | x in visited' && Walk(g, start, x, w)
      ensures settled'[x] <= Cost(g, w)
    {
      if x == y {
        assert |w| >= 2;
        Lower(g, start, heap, visited, settled, paths, top, w);
      }
    }
  }

  lemma VisitFrontier(g: Grid, start: nat, heap: multiset<State>, visited: set<nat>,
                      settled: map<nat, nat>, top: State, pushes: seq<State>)
    requires Bounded(g, start, visited, settled) && Frontier(g, start, heap, visited, settled)
    requires top in heap && top.pos !in visited && top.pos != |g.cells| - 1
    requires PushedFrom(g, top.pos, top.cost, pushes)
    requires Bounded(g, start, visited + {top.pos}, settled[top.pos := top.cost])
    ensures Frontier(g, start, heap - multiset{top} + multiset(pushes), visited + {top.pos},
                     settled[top.pos := top.cost])
  {
    var y := top.pos;
    var visited' := visited + {y};
    var settled' := settled[y := top.cost];
    var heap' := heap - multiset{top} + multiset(pushes);
    forall x, z: nat | x in visited' && Step(g, x, z) && Open(g, visited', z)
      ensures State(z, settled'[x] + g.cells[z]) in heap'
    {
      if x == y {
        assert State(z, top.cost + g.cells[z]) in pushes;
      } else {
        assert Open(g, visited, z);
        assert State(z, settled[x] + g.cells[z]) in heap;
        assert State(z, settled[x] + g.cells[z]) != top;
      }
    }
  }

  lemma VisitWitnessed(g: Grid, start: nat, heap: multiset<State>, paths: map<State, seq<nat>>,
                       top: State, pushes: seq<State>)
    requires Witnessed(g, start, heap, paths) && top in heap
    requires PushedFrom(g, top.pos, top.cost, pushes)
    ensures Witnessed(g, start, heap - multiset{top} + multiset(pushes), Reach(paths, paths[top], pushes))
  {
    var heap' := heap - multiset{top} + multiset(pushes);
    var paths' := Reach(paths, paths[top], pushes);
    forall s | s in heap'
      ensures s in paths' && Walk(g, start, s.pos, paths'[s]) && |paths'[s]| >= 2
              && Cost(g, paths'[s]) == s.cost
    {
      if s in pushes {
        WalkExtend(g, start, paths[top], s.pos);
      } else {
        assert s in heap;
      }
    }
  }

  /** The witnesses after pushing `pushes` from the cell reached by `walk`. */
  ghost function Reach(paths: map<State, seq<nat>>, walk: seq<nat>, pushes: seq<State>): (m: map<State, seq<nat>>)
    ensures forall s :: s in pushes ==> s in m && m[s] == walk + [s.pos]
    ensures forall s :: s in paths && s !in pushes ==> s in m && m[s] == paths[s]
  {
    map s | s in paths.Keys + (set p | p in pushes) :: if s in pushes then walk + [s.pos] else paths[s]
  }

  // ----- the search ------------------------------------------------------------------

  /** The lowest risk `dijkstra_alg` promises: `risk` is the risk of a walk of two cells or
      more from `start` to the goal, and no such walk costs less. */
  ghost predicate Lowest(g: Grid, start: nat, risk: nat)
    requires |g.cells| > 0
  {
    && (exists w :: Walk(g, start, Goal(g), w) && |w| >= 2 && Cost(g, w) == risk)
    && (forall w :: Walk(g, start, Goal(g), w) && |w| >= 2 ==> risk <= Cost(g, w))
  }

  /** A least state at the goal carries the lowest risk of any walk there. */
  lemma GoalIsLowest(g: Grid, start: nat, heap: multiset<State>, visited: set<nat>,
                     settled: map<nat, nat>, paths: map<State, seq<nat>>, top: State)
    requires Invariant(g, start, heap, visited, settled, paths)
    requires top in heap && top.pos == |g.cells| - 1
    requires forall t :: t in heap ==> top.cost <= t.cost
    ensures Lowest(g, start, top.cost)
  {
    forall w | Walk(g, start, Goal(g), w) && |w| >= 2
      ensures top.cost <= Cost(g, w)
    {
      Lower(g, start, heap, visited, settled, paths, top, w);
    }
    assert Walk(g, start, Goal(g), paths[top]) && |paths[top]| >= 2 && Cost(g, paths[top]) == top.cost;
  }

  /** Visiting a least state's cell keeps the invariant and adds one cell of the grid to
      the visited ones. */
  lemma VisitStep(g: Grid, start: nat, heap: multiset<State>, visited: set<nat>,
                  settled: map<nat, nat>, paths: map<State, seq<nat>>, top: State)
    requires Invariant(g, start, heap, visited, settled, paths)
    requires top in heap && top.pos !in visited && top.pos != |g.cells| - 1
    requires forall t :: t in heap ==> top.cost <= t.cost
    ensures WellFormed(g) && g.rowLen > 0 && top.pos < |g.cells| && top in paths
    ensures var pushes := Pushes(g, top.pos, top.cost);
            Invariant(g, start, heap - multiset{top} + multiset(pushes), visited + {top.pos},
                      settled[top.pos := top.cost], Reach(paths, paths[top], pushes))
    ensures |visited + {top.pos}| == |visited| + 1 && |visited + {top.pos}| <= |g.cells|
  {
    var pushes := Pushes(g, top.pos, top.cost);
    PushesSpec(g, top.pos, top.cost);
    VisitKeeps(g, start, heap, visited, settled, paths, top, pushes);
    assert Bounded(g, start, visited, settled);
    VisitedGrows(|g.cells|, visited, top.pos);
  }

  lemma VisitedGrows(n: nat, visited: set<nat>, y: nat)
    requires forall x :: x in visited ==> x < n
    requires y < n && y !in visited
    ensures |visited + {y}| == |visited| + 1 && |visited + {y}| <= n
  {
    SubsetSize(visited + {y}, CellsBelow(n));
  }

  /** One turn of the `while let` loop: pop the greatest state; at the goal, its risk is
      the answer; at a cell not yet visited, visit it and push its neighbours; otherwise
      drop it. */
  method Turn(g: Grid, start: nat, heap: multiset<State>, visited: set<nat>,
              ghost settled: map<nat, nat>, ghost paths: map<State, seq<nat>>)
    returns (r: Option<nat>, heap': multiset<State>, visited': set<nat>,
             ghost settled': map<nat, nat>, ghost paths': map<State, seq<nat>>)
    requires Invariant(g, start, heap, visited, settled, paths) && |heap| > 0
    ensures r.Some? ==> Lowest(g, start, r.value)
    ensures r.None? ==> Invariant(g, start, heap', visited', settled', paths')
    ensures r.None? ==> || (visited' == visited && |heap'| < |heap|)
                        || (|visited'| == |visited| + 1 && |visited'| <= |g.cells|)
  {
    var top := Greatest(heap);
    if top.pos == |g.cells| - 1 {
      GoalIsLowest(g, start, heap, visited, settled, paths, top);
      return Some(top.cost), heap, visited, settled, paths;
    }
    if top.pos !in visited {
      VisitStep(g, start, heap, visited, settled, paths, top);
      var pushes := Pushes(g, top.pos, top.cost);
      paths' := Reach(paths, paths[top], pushes);
      settled' := settled[top.pos := top.cost];
      visited' := visited + {top.pos};
      heap' := heap - multiset{top} + multiset(pushes);
    } else {
      DropVisited(g, start, heap, visited, settled, paths, top);
      heap', visited', settled', paths' := heap - multiset{top}, visited, settled, paths;
    }
    r := None;
  }

  /** `dijkstra_alg`: the lowest risk of a walk of two cells or more from `start` to the
      bottom-right cell, or `None` when there is no such walk. */
  method LowestRisk(g: Grid, start: nat) returns (r: Option<nat>)
    requires WellFormed(g) && g.rowLen > 0 && start < |g.cells|
    ensures r.Some? ==> exists w :: Walk(g, start, Goal(g), w) && |w| >= 2 && Cost(g, w) == r.value
    ensures r.Some? ==> forall w :: Walk(g, start, Goal(g), w) && |w| >= 2 ==> r.value <= Cost(g, w)
    ensures r.None? ==> forall w :: Walk(g, start, Goal(g), w) ==> |w| < 2
    ensures r.None? <==> |g.cells| == 1
  {
    Reachable(g, start);
    var first := Pushes(g, start, 0);
    PushesSpec(g, start, 0);
    var heap := multiset(first);
    var visited := {start};
    ghost var settled: map<nat, nat> := map[start := 0];
    ghost var paths := Initially(g, start, first);
    while |heap| > 0
      invariant Invariant(g, start, heap, visited, settled, paths)
      invariant |visited| <= |g.cells|
      decreases |g.cells| - |visited|, |heap|
    {
      r, heap, visited, settled, paths := Turn(g, start, heap, visited, settled, paths);
      if r.Some? {
        return;
      }
    }
    forall w | Walk(g, start, Goal(g), w) && |w| >= 2
      ensures false
    {
      Pending(g, start, heap, visited, settled, paths, w);
    }
    return None;
  }
}
