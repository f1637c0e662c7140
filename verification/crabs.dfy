/** Day 7, aligning the crab submarines: every crab moves horizontally to one common
    position, and the cheapest position is found by trying every position between the
    leftmost and the rightmost crab. */
module Crabs {

  function Abs(x: int): nat {
    if x < 0 then -x else x
  }

  /** `(0..=n).sum()`, the fuel a crab spends to move `n` steps when each step costs one
      more than the last. */
  function RangeSum(n: nat): nat {
    if n == 0 then 0 else RangeSum(n - 1) + n
  }

  /** Gauss's closed form of the step costs. */
  lemma {:induction false} RangeSumClosedForm(n: nat)
    ensures RangeSum(n) == n * (n + 1) / 2
  {
    if n > 0 {
      RangeSumClosedForm(n - 1);
      assert n * (n + 1) == (n - 1) * n + 2 * n;
    }
  }

  /** `l1_error` over the crabs from `i` on. */
  function L1From(crabs: seq<int>, i: nat, guess: int): nat
    requires i <= |crabs|
    decreases |crabs| - i
  {
    if i == |crabs| then 0 else Abs(crabs[i] - guess) + L1From(crabs, i + 1, guess)
  }

  /** `l1_error`: the total distance of the crabs from `guess`. */
  function L1Error(crabs: seq<int>, guess: int): nat {
    L1From(crabs, 0, guess)
  }

  /** `crab_walk` over the crabs from `i` on. */
  function WalkFrom(crabs: seq<int>, i: nat, guess: int): nat
    requires i <= |crabs|
    decreases |crabs| - i
  {
    if i == |crabs| then 0 else RangeSum(Abs(crabs[i] - guess)) + WalkFrom(crabs, i + 1, guess)
  }

  /** `crab_walk`: the total of the growing step costs of every crab. */
  function CrabWalk(crabs: seq<int>, guess: int): nat {
    WalkFrom(crabs, 0, guess)
  }

  /** Over the crabs from `i` on, a crab walk costs at least the plain distance, and
      both costs vanish exactly when every one of those crabs already sits at `guess`. */
  lemma {:induction false} CostsFrom(crabs: seq<int>, i: nat, guess: int)
    requires i <= |crabs|
    ensures L1From(crabs, i, guess) <= WalkFrom(crabs, i, guess)
    ensures L1From(crabs, i, guess) == 0 <==> forall k :: i <= k < |crabs| ==> crabs[k] == guess
    ensures WalkFrom(crabs, i, guess) == 0 <==> forall k :: i <= k < |crabs| ==> crabs[k] == guess
    decreases |crabs| - i
  {
    if i < |crabs| {
      CostsFrom(crabs, i + 1, guess);
      var d := Abs(crabs[i] - guess);
      assert d <= RangeSum(d) && (RangeSum(d) == 0 <==> d == 0);
    }
  }

  /** `l1_error` and `crab_walk` are zero exactly at a position every crab already
      shares, and the crab walk never costs less than the plain distance. */
  lemma CostsAgree(crabs: seq<int>, guess: int)
    ensures L1Error(crabs, guess) <= CrabWalk(crabs, guess)
    ensures L1Error(crabs, guess) == 0 <==> forall k :: 0 <= k < |crabs| ==> crabs[k] == guess
    ensures CrabWalk(crabs, guess) == 0 <==> forall k :: 0 <= k < |crabs| ==> crabs[k] == guess
  {
    CostsFrom(crabs, 0, guess);
  }

  /** The smallest crab position from `i` on. */
  function MinFrom(crabs: seq<int>, i: nat): (m: int)
    requires i < |crabs|
    ensures exists k :: i <= k < |crabs| && crabs[k] == m
    ensures forall k :: i <= k < |crabs| ==> m <= crabs[k]
    decreases |crabs| - i
  {
    if i == |crabs| - 1 then crabs[i]
    else
      var rest := MinFrom(crabs, i + 1);
      if crabs[i] <= rest then crabs[i] else rest
  }

  /** The largest crab position from `i` on. */
  function MaxFrom(crabs: seq<int>, i: nat): (m: int)
    requires i < |crabs|
    ensures exists k :: i <= k < |crabs| && crabs[k] == m
    ensures forall k :: i <= k < |crabs| ==> crabs[k] <= m
    decreases |crabs| - i
  {
    if i == |crabs| - 1 then crabs[i]
    else
      var rest := MaxFrom(crabs, i + 1);
      if crabs[i] >= rest then crabs[i] else rest
  }

  /** The cheapest of the guesses `lo..=hi`. */
  function CheapestFrom(crabs: seq<int>, cost: (seq<int>, int) -> nat, lo: int, hi: int): (c: nat)
    requires lo <= hi
    ensures exists g :: lo <= g <= hi && c == cost(crabs, g)
    ensures forall g :: lo <= g <= hi ==> c <= cost(crabs, g)
    decreases hi - lo
  {
    if lo == hi then cost(crabs, lo)
    else
      var rest := CheapestFrom(crabs, cost, lo + 1, hi);
      if cost(crabs, lo) <= rest then cost(crabs, lo) else rest
  }

  /** `min_cost`: the cheapest cost over every position from the leftmost to the rightmost
      crab; at least one crab is needed (`min().unwrap()` panics otherwise). */
  function MinCost(crabs: seq<int>, cost: (seq<int>, int) -> nat): (c: nat)
    requires |crabs| > 0
    ensures exists g :: MinFrom(crabs, 0) <= g <= MaxFrom(crabs, 0) && c == cost(crabs, g)
    ensures forall g :: MinFrom(crabs, 0) <= g <= MaxFrom(crabs, 0) ==> c <= cost(crabs, g)
  {
    CheapestFrom(crabs, cost, MinFrom(crabs, 0), MaxFrom(crabs, 0))
  }

  // ----- the search range is enough --------------------------------------------------

  lemma {:induction false} RangeSumMonotone(a: nat, b: nat)
    requires a <= b
    ensures RangeSum(a) <= RangeSum(b)
    decreases b - a
  {
    if a < b {
      RangeSumMonotone(a, b - 1);
    }
  }

  /** Moving the guess left of every crab from `i` on towards them lowers both costs. */
  lemma {:induction false} LeftOfAll(crabs: seq<int>, i: nat, g: int, h: int)
    requires i <= |crabs| && g <= h
    requires forall k :: i <= k < |crabs| ==> h <= crabs[k]
    ensures L1From(crabs, i, h) <= L1From(crabs, i, g)
    ensures WalkFrom(crabs, i, h) <= WalkFrom(crabs, i, g)
    decreases |crabs| - i
  {
    if i < |crabs| {
      LeftOfAll(crabs, i + 1, g, h);
      RangeSumMonotone(Abs(crabs[i] - h), Abs(crabs[i] - g));
    }
  }

  /** Moving the guess right of every crab from `i` on towards them lowers both costs. */
  lemma {:induction false} RightOfAll(crabs: seq<int>, i: nat, g: int, h: int)
    requires i <= |crabs| && h <= g
    requires forall k :: i <= k < |crabs| ==> crabs[k] <= h
    ensures L1From(crabs, i, h) <= L1From(crabs, i, g)
    ensures WalkFrom(crabs, i, h) <= WalkFrom(crabs, i, g)
    decreases |crabs| - i
  {
    if i < |crabs| {
      RightOfAll(crabs, i + 1, g, h);
      RangeSumMonotone(Abs(crabs[i] - h), Abs(crabs[i] - g));
    }
  }

  /** The guess nearest to `g` inside the search range is no more expensive than `g`,
      for both cost functions. */
  lemma Nearest(crabs: seq<int>, g: int) returns (h: int)
    requires |crabs| > 0
    ensures MinFrom(crabs, 0) <= h <= MaxFrom(crabs, 0)
    ensures L1Error(crabs, h) <= L1Error(crabs, g) && CrabWalk(crabs, h) <= CrabWalk(crabs, g)
  {
    var lo, hi := MinFrom(crabs, 0), MaxFrom(crabs, 0);
    if g < lo {
      LeftOfAll(crabs, 0, g, lo);
      h := lo;
    } else if g > hi {
      RightOfAll(crabs, 0, g, hi);
      h := hi;
    } else {
      h := g;
    }
  }

  /** Searching only between the leftmost and rightmost crab loses nothing: for both cost
      functions `min_cost` is the cheapest over every position. */
  lemma MinCostIsGlobal(crabs: seq<int>, g: int)
    requires |crabs| > 0
    ensures MinCost(crabs, L1Error) <= L1Error(crabs, g)
    ensures MinCost(crabs, CrabWalk) <= CrabWalk(crabs, g)
  {
    var h := Nearest(crabs, g);
    assert MinCost(crabs, L1Error) <= L1Error(crabs, h);
    assert MinCost(crabs, CrabWalk) <= CrabWalk(crabs, h);
  }

  const SAMPLE: seq<int> := [16, 1, 2, 0, 4, 2, 7, 1, 2, 14]

  lemma SampleRange()
    ensures MinFrom(SAMPLE, 0) == 0 && MaxFrom(SAMPLE, 0) == 16
  {
    assert SAMPLE[3] == 0 && SAMPLE[0] == 16;
    assert forall k :: 0 <= k < |SAMPLE| ==> 0 <= SAMPLE[k] <= 16;
  }

  lemma SampleL1Bound(g: int)
    requires 0 <= g <= 16
    ensures L1Error(SAMPLE, g) >= 37
  {
    if g <= 8 {
      SampleL1BoundLow(g);
    } else {
      SampleL1BoundHigh(g);
    }
  }

  lemma SampleL1BoundLow(g: int)
    requires 0 <= g <= 8
    ensures L1Error(SAMPLE, g) >= 37
  {
    if g == 0 {
    }
    else if g == 1 {
    }
    else if g == 2 {
    }
    else if g == 3 {
    }
    else if g == 4 {
    }
    else if g == 5 {
    }
    else if g == 6 {
    }
    else if g == 7 {
    }
    else if g == 8 {
    }
  }

  lemma SampleL1BoundHigh(g: int)
    requires 9 <= g <= 16
    ensures L1Error(SAMPLE, g) >= 37
  {
    if g == 9 {
    }
    else if g == 10 {
    }
    else if g == 11 {
    }
    else if g == 12 {
    }
    else if g == 13 {
    }
    else if g == 14 {
    }
    else if g == 15 {
    }
    else if g == 16 {
    }
  }

  lemma SampleL1At2()
    ensures L1Error(SAMPLE, 2) == 37
  {
  }

  /** The worked example: the cheapest position costs 37 fuel. */
  lemma SampleL1()
    ensures MinCost(SAMPLE, L1Error) == 37
  {
    SampleRange();
    var g :| 0 <= g <= 16 && MinCost(SAMPLE, L1Error) == L1Error(SAMPLE, g);
    SampleL1Bound(g);
    SampleL1At2();
  }

  /** The step costs of up to 16 steps. */
  lemma Triangles()
    ensures && RangeSum(1) == 1
            && RangeSum(2) == 3
            && RangeSum(3) == 6
            && RangeSum(4) == 10
            && RangeSum(5) == 15
            && RangeSum(6) == 21
            && RangeSum(7) == 28
            && RangeSum(8) == 36
            && RangeSum(9) == 45
            && RangeSum(10) == 55
            && RangeSum(11) == 66
            && RangeSum(12) == 78
            && RangeSum(13) == 91
            && RangeSum(14) == 105
            && RangeSum(15) == 120
            && RangeSum(16) == 136
  {
    assert RangeSum(1) == 1;
    assert RangeSum(2) == 3;
    assert RangeSum(3) == 6;
    assert RangeSum(4) == 10;
    assert RangeSum(5) == 15;
    assert RangeSum(6) == 21;
    assert RangeSum(7) == 28;
    assert RangeSum(8) == 36;
    assert RangeSum(9) == 45;
    assert RangeSum(10) == 55;
    assert RangeSum(11) == 66;
    assert RangeSum(12) == 78;
    assert RangeSum(13) == 91;
    assert RangeSum(14) == 105;
    assert RangeSum(15) == 120;
    assert RangeSum(16) == 136;
  }

  lemma SampleWalkBound(g: int)
    requires 0 <= g <= 16
    ensures CrabWalk(SAMPLE, g) >= 168
  {
    if g <= 8 {
      SampleWalkBoundLow(g);
    } else {
      SampleWalkBoundHigh(g);
    }
  }

  lemma SampleWalkBoundLow(g: int)
    requires 0 <= g <= 8
    ensures CrabWalk(SAMPLE, g) >= 168
  {
    Triangles();
    if g == 0 {
    }
    else if g == 1 {
    }
    else if g == 2 {
    }
    else if g == 3 {
    }
    else if g == 4 {
    }
    else if g == 5 {
    }
    else if g == 6 {
    }
    else if g == 7 {
    }
    else if g == 8 {
    }
  }

  lemma SampleWalkBoundHigh(g: int)
    requires 9 <= g <= 16
    ensures CrabWalk(SAMPLE, g) >= 168
  {
    Triangles();
    if g == 9 {
    }
    else if g == 10 {
    }
    else if g == 11 {
    }
    else if g == 12 {
    }
    else if g == 13 {
    }
    else if g == 14 {
    }
    else if g == 15 {
    }
    else if g == 16 {
    }
  }

  lemma SampleWalkAt5()
    ensures CrabWalk(SAMPLE, 5) == 168
  {
    Triangles();
  }

  /** With growing step costs the cheapest position costs 168 fuel. */
  lemma SampleCrabWalk()
    ensures MinCost(SAMPLE, CrabWalk) == 168
  {
    SampleRange();
    var g :| 0 <= g <= 16 && MinCost(SAMPLE, CrabWalk) == CrabWalk(SAMPLE, g);
    SampleWalkBound(g);
    SampleWalkAt5();
  }
}
