/** Day 11, the dumbo octopuses: a grid of energy levels where every step raises each
    level by one, an octopus above 9 flashes, resets to 0 and raises its eight neighbours,
    and no octopus flashes twice in one step. */
module Octopus {
  import opened Wrappers
  import opened Grid
  import Digits = Grid

  datatype Octopus = Octopus(val: nat, flashed: bool)

  /** The grid of octopuses, row-major like every digit grid. */
  datatype Octopi = Octopi(octopi: seq<Octopus>, rowLen: nat, colLen: nat)

  /** The state between steps: a full grid of energy levels 0..9, none marked flashed. */
  predicate Ready(o: Octopi) {
    && |o.octopi| == o.rowLen * o.colLen
    && forall i :: 0 <= i < |o.octopi| ==> o.octopi[i].val <= 9 && !o.octopi[i].flashed
  }

  /** `from_str`: the digit grid, each digit an octopus that has not flashed. The errors are
      those of the digit grid: empty input, a character that is not an ASCII digit, a row
      whose length differs from the first. */
  function Parse(s: string): (r: Result<Octopi, ParseError>)
    ensures r.Ok? <==> Digits.Parse(s).Ok?
    ensures r.Err? ==> r.error == Digits.Parse(s).error
    ensures r.Ok? ==> var g := Digits.Parse(s).value;
            && r.value.rowLen == g.rowLen && r.value.colLen == g.colLen
            && |r.value.octopi| == |g.cells|
            && (forall i :: 0 <= i < |g.cells| ==> r.value.octopi[i] == Octopus(g.cells[i], false))
            && Ready(r.value)
  {
    match Digits.Parse(s)
    case Err(e) => Err(e)
    case Ok(g) =>
      ParsedCellsAreDigits(s);
      Ok(Octopi(seq(|g.cells|, i requires 0 <= i < |g.cells| => Octopus(g.cells[i], false)), g.rowLen, g.colLen))
  }

  lemma Dimensions(o: Octopi, i: nat)
    requires |o.octopi| == o.rowLen * o.colLen && i < |o.octopi|
    ensures o.rowLen > 0 && o.colLen > 0
  {
  }

  /** `get_neighbors`: the eight surrounding octopuses that exist. */
  function Around(o: Octopi, i: nat): (ns: seq<nat>)
    requires |o.octopi| == o.rowLen * o.colLen && i < |o.octopi|
    ensures Distinct(ns) && i !in ns
    ensures forall k :: 0 <= k < |ns| ==> ns[k] < |o.octopi|
    ensures forall q: nat :: q in ns <==> q < |o.octopi| && Adjacent8(o.rowLen, i, q)
  {
    Dimensions(o, i);
    AroundFacts(o.rowLen, o.colLen, i);
    Neighbors8(o.rowLen, o.colLen, i)
  }

  lemma AroundFacts(rowLen: nat, colLen: nat, i: nat)
    requires rowLen > 0 && colLen > 0 && i < rowLen * colLen
    ensures var ns := Neighbors8(rowLen, colLen, i);
            && Distinct(ns) && i !in ns
            && (forall k :: 0 <= k < |ns| ==> ns[k] < rowLen * colLen)
            && (forall q: nat :: q in ns <==> q < rowLen * colLen && Adjacent8(rowLen, i, q))
  {
    Neighbors8Spec(rowLen, colLen, i);
    var ns := Neighbors8(rowLen, colLen, i);
    forall k | 0 <= k < |ns| ensures ns[k] < rowLen * colLen {
      assert ns[k] in ns;
    }
  }

  lemma AroundSymmetric(o: Octopi, p: nat, q: nat)
    requires |o.octopi| == o.rowLen * o.colLen && p < |o.octopi| && q < |o.octopi|
    ensures q in Around(o, p) <==> p in Around(o, q)
  {
    Dimensions(o, p);
    NeighborsSymmetric(o.rowLen, o.colLen, p, q);
  }

  // ----- counting ----------------------------------------------------------------------

  /** The indices of the octopuses marked flashed. */
  function FlashedSet(os: seq<Octopus>): set<nat> {
    set i: nat | i < |os| && os[i].flashed
  }

  /** How many entries of `ns` are in `s`. */
  function CountIn(ns: seq<nat>, s: set<nat>): nat {
    if |ns| == 0 then 0 else (if ns[0] in s then 1 else 0) + CountIn(ns[1..], s)
  }

  lemma HeadNotInTail(ns: seq<nat>)
    requires Distinct(ns) && |ns| > 0
    ensures Distinct(ns[1..]) && ns[0] !in ns[1..]
  {
    forall k | 0 <= k < |ns[1..]| ensures ns[1..][k] != ns[0] {
      assert ns[1..][k] == ns[k + 1];
    }
  }

  lemma {:induction false} CountInGrows(ns: seq<nat>, s: set<nat>, x: nat)
    requires Distinct(ns)
    ensures CountIn(ns, s + {x}) == CountIn(ns, s) + (if x in ns && x !in s then 1 else 0)
  {
    if |ns| > 0 {
      HeadNotInTail(ns);
      CountInGrows(ns[1..], s, x);
      assert x in ns <==> x == ns[0] || x in ns[1..];
    }
  }

  /** A list without repeats holds each value at most once. */
  lemma {:induction false} DistinctOnce(ns: seq<nat>, x: nat)
    requires Distinct(ns)
    ensures multiset(ns)[x] == if x in ns then 1 else 0
  {
    if |ns| > 0 {
      assert ns == [ns[0]] + ns[1..];
      HeadNotInTail(ns);
      DistinctOnce(ns[1..], x);
    }
  }

  /** `(0..n).collect()`. */
  function Indices(n: nat): (ids: seq<nat>)
    ensures |ids| == n && forall k :: 0 <= k < n ==> ids[k] == k
  {
    seq(n, k requires 0 <= k < n => k)
  }

  lemma IndicesOnce(n: nat, x: nat)
    ensures multiset(Indices(n))[x] == if x < n then 1 else 0
  {
    var ids := Indices(n);
    assert Distinct(ids);
    DistinctOnce(ids, x);
    if x < n {
      assert ids[x] == x;
    }
  }

  // ----- one step ----------------------------------------------------------------------

  /** The raises octopus `i` receives when the octopuses in `f` flash: the step's own
      raise plus one per flashing neighbour, on top of its level before the step. */
  function Raised(o: Octopi, i: nat, f: set<nat>): nat
    requires |o.octopi| == o.rowLen * o.colLen && i < |o.octopi|
  {
    o.octopi[i].val + 1 + CountIn(Around(o, i), f)
  }

  /** Octopus `i` during the worklist of `step`: a flashed one sits at 0 and was raised
      above 9; any other has its level plus its pending raises equal to what it receives
      from the flashes so far. */
  predicate Accounted(o: Octopi, os: seq<Octopus>, pending: seq<nat>, f: set<nat>, i: nat)
    requires |o.octopi| == o.rowLen * o.colLen && |os| == |o.octopi| && i < |os|
  {
    && os[i].val <= 9
    && if os[i].flashed then os[i].val == 0 && Raised(o, i, f) >= 10
       else os[i].val + multiset(pending)[i] == Raised(o, i, f)
  }

  /** What the worklist of `step` keeps true, for every octopus. */
  predicate Tracking(o: Octopi, os: seq<Octopus>, pending: seq<nat>)
    requires |o.octopi| == o.rowLen * o.colLen
  {
    && |os| == |o.octopi|
    && (forall k :: 0 <= k < |pending| ==> pending[k] < |os|)
    && forall i :: 0 <= i < |os| ==> Accounted(o, os, pending, FlashedSet(os), i)
  }

  /** Before the loop: every octopus is pending once and nothing has flashed. */
  lemma TrackingStarts(o: Octopi)
    requires Ready(o)
    ensures Tracking(o, o.octopi, Indices(|o.octopi|))
  {
    assert FlashedSet(o.octopi) == {};
    forall i | 0 <= i < |o.octopi|
      ensures Accounted(o, o.octopi, Indices(|o.octopi|), {}, i)
    {
      CountInNone(Around(o, i));
      IndicesOnce(|o.octopi|, i);
    }
  }

  lemma {:induction false} CountInNone(ns: seq<nat>)
    ensures CountIn(ns, {}) == 0
  {
    if |ns| > 0 {
      CountInNone(ns[1..]);
    }
  }

  /** One turn of the loop of `step`: pop an octopus; unless it already flashed, raise
      its level, and when that goes above 9 reset it to 0, mark it and push its
      neighbours. Either one more octopus has flashed, or the stack shrank. */
  method Touch(o: Octopi, os: seq<Octopus>, pending: seq<nat>) returns (os': seq<Octopus>, pending': seq<nat>)
    requires |o.octopi| == o.rowLen * o.colLen && |pending| > 0
    requires Tracking(o, os, pending)
    ensures Tracking(o, os', pending')
    ensures || |CellsBelow(|o.octopi|) - FlashedSet(os')| < |CellsBelow(|o.octopi|) - FlashedSet(os)|
            || (FlashedSet(os') == FlashedSet(os) && |pending'| < |pending|)
    ensures Forced(o, FlashedSet(os)) ==> Forced(o, FlashedSet(os'))
  {
    var x := pending[|pending| - 1];
    var popped := pending[..|pending| - 1];
    assert pending == popped + [x];
    if os[x].flashed {
      os', pending' := os, popped;
      TouchFlashed(o, os, popped, x);
    } else if os[x].val + 1 <= 9 {
      os' := os[x := Octopus(os[x].val + 1, false)];
      pending' := popped;
      TouchRaised(o, os, popped, x);
    } else {
      os' := os[x := Octopus(0, true)];
      pending' := popped + Around(o, x);
      TouchFlashes(o, os, popped, x);
      FewerUnflashed(|o.octopi|, FlashedSet(os), x);
      if Forced(o, FlashedSet(os)) {
        assert Accounted(o, os, pending, FlashedSet(os), x);
        assert x in multiset(pending);
        FlashForced(o, FlashedSet(os), x);
      }
    }
  }

  /** A set of octopuses that accounts for its own flashes: every octopus that the flashes
      of `s` would raise above 9 is in `s`. */
  predicate Closed(o: Octopi, s: set<nat>)
    requires |o.octopi| == o.rowLen * o.colLen
  {
    forall i :: 0 <= i < |o.octopi| && Raised(o, i, s) > 9 ==> i in s
  }

  /** The octopuses of `f` cannot help flashing: every closed set holds them. */
  ghost predicate Forced(o: Octopi, f: set<nat>)
    requires |o.octopi| == o.rowLen * o.colLen
  {
    forall s: set<nat> :: Closed(o, s) ==> f <= s
  }

  /** More flashes raise a neighbour list at least as much. */
  lemma {:induction false} CountInMono(ns: seq<nat>, f: set<nat>, s: set<nat>)
    requires f <= s
    ensures CountIn(ns, f) <= CountIn(ns, s)
  {
    if |ns| > 0 {
      CountInMono(ns[1..], f, s);
    }
  }

  /** An octopus that the forced flashes raise above 9 is forced to flash too. */
  lemma FlashForced(o: Octopi, f: set<nat>, x: nat)
    requires |o.octopi| == o.rowLen * o.colLen && x < |o.octopi|
    requires Forced(o, f) && Raised(o, x, f) > 9
    ensures Forced(o, f + {x})
  {
    forall s: set<nat> | Closed(o, s) ensures f + {x} <= s {
      CountInMono(Around(o, x), f, s);
      assert Raised(o, x, s) > 9;
    }
  }

  lemma FewerUnflashed(n: nat, f: set<nat>, x: nat)
    requires x < n && x !in f
    ensures |CellsBelow(n) - (f + {x})| < |CellsBelow(n) - f|
  {
    var cells := CellsBelow(n);
    assert cells - (f + {x}) == (cells - f) - {x};
  }

  lemma PoppedBounds(os: seq<Octopus>, popped: seq<nat>, x: nat)
    requires forall k :: 0 <= k < |popped + [x]| ==> (popped + [x])[k] < |os|
    ensures x < |os| && forall k :: 0 <= k < |popped| ==> popped[k] < |os|
  {
    assert x == (popped + [x])[|popped|];
    forall k | 0 <= k < |popped| ensures popped[k] < |os| {
      assert popped[k] == (popped + [x])[k];
    }
  }

  lemma TouchFlashed(o: Octopi, os: seq<Octopus>, popped: seq<nat>, x: nat)
    requires |o.octopi| == o.rowLen * o.colLen
    requires Tracking(o, os, popped + [x]) && x < |os| && os[x].flashed
    ensures Tracking(o, os, popped)
  {
    PoppedBounds(os, popped, x);
    var f := FlashedSet(os);
    assert multiset(popped + [x]) == multiset(popped) + multiset{x};
    forall i | 0 <= i < |os| ensures Accounted(o, os, popped, f, i) {
      assert Accounted(o, os, popped + [x], f, i);
    }
  }

  lemma TouchRaised(o: Octopi, os: seq<Octopus>, popped: seq<nat>, x: nat)
    requires |o.octopi| == o.rowLen * o.colLen
    requires Tracking(o, os, popped + [x]) && x < |os| && !os[x].flashed && os[x].val + 1 <= 9
    ensures Tracking(o, os[x := Octopus(os[x].val + 1, false)], popped)
  {
    PoppedBounds(os, popped, x);
    var os' := os[x := Octopus(os[x].val + 1, false)];
    var f := FlashedSet(os);
    assert multiset(popped + [x]) == multiset(popped) + multiset{x};
    assert FlashedSet(os') == f;
    forall i | 0 <= i < |os| ensures Accounted(o, os', popped, f, i) {
      assert Accounted(o, os, popped + [x], f, i);
    }
  }

  /** A new flash at `x` raises exactly the neighbours of `x`. */
  lemma RaisedGrows(o: Octopi, i: nat, f: set<nat>, x: nat)
    requires |o.octopi| == o.rowLen * o.colLen && i < |o.octopi| && x < |o.octopi| && x !in f
    ensures Raised(o, i, f + {x}) == Raised(o, i, f) + (if i in Around(o, x) then 1 else 0)
  {
    CountInGrows(Around(o, i), f, x);
    AroundSymmetric(o, x, i);
  }

  lemma TouchFlashes(o: Octopi, os: seq<Octopus>, popped: seq<nat>, x: nat)
    requires |o.octopi| == o.rowLen * o.colLen
    requires Tracking(o, os, popped + [x]) && x < |os| && !os[x].flashed && os[x].val + 1 > 9
    ensures Tracking(o, os[x := Octopus(0, true)], popped + Around(o, x))
    ensures FlashedSet(os[x := Octopus(0, true)]) == FlashedSet(os) + {x} && x !in FlashedSet(os)
  {
    PoppedBounds(os, popped, x);
    PushedBounds(o, popped, x);
    FlashMarks(os, x);
    FlashesAccounted(o, os, popped, x, os[x := Octopus(0, true)], popped + Around(o, x));
  }

  lemma FlashesAccounted(o: Octopi, os: seq<Octopus>, popped: seq<nat>, x: nat,
                         os': seq<Octopus>, pending': seq<nat>)
    requires |o.octopi| == o.rowLen * o.colLen
    requires Tracking(o, os, popped + [x]) && x < |os| && !os[x].flashed && os[x].val + 1 > 9
    requires os' == os[x := Octopus(0, true)] && pending' == popped + Around(o, x)
    requires FlashedSet(os') == FlashedSet(os) + {x}
    ensures forall i :: 0 <= i < |os'| ==> Accounted(o, os', pending', FlashedSet(os'), i)
  {
    forall i | 0 <= i < |os'| ensures Accounted(o, os', pending', FlashedSet(os'), i) {
      FlashAccounted(o, os, popped, x, i);
    }
  }

  lemma FlashMarks(os: seq<Octopus>, x: nat)
    requires x < |os| && !os[x].flashed
    ensures FlashedSet(os[x := Octopus(0, true)]) == FlashedSet(os) + {x} && x !in FlashedSet(os)
  {
  }

  lemma PushedBounds(o: Octopi, popped: seq<nat>, x: nat)
    requires |o.octopi| == o.rowLen * o.colLen && x < |o.octopi|
    requires forall k :: 0 <= k < |popped| ==> popped[k] < |o.octopi|
    ensures forall k :: 0 <= k < |popped + Around(o, x)| ==> (popped + Around(o, x))[k] < |o.octopi|
  {
    var ns := Around(o, x);
    forall k | 0 <= k < |popped + ns| ensures (popped + ns)[k] < |o.octopi| {
      if k >= |popped| {
        assert (popped + ns)[k] == ns[k - |popped|];
      }
    }
  }

  /** Octopus `i` after the flash at `x`: it is raised once more exactly when it is a
      neighbour of `x`, and exactly then one more raise is pending for it. */
  lemma FlashAccounted(o: Octopi, os: seq<Octopus>, popped: seq<nat>, x: nat, i: nat)
    requires |o.octopi| == o.rowLen * o.colLen && |os| == |o.octopi| && x < |os| && i < |os|
    requires !os[x].flashed && os[x].val + 1 > 9
    requires Accounted(o, os, popped + [x], FlashedSet(os), i)
    ensures Accounted(o, os[x := Octopus(0, true)], popped + Around(o, x), FlashedSet(os) + {x}, i)
  {
    var f, ns := FlashedSet(os), Around(o, x);
    var os' := os[x := Octopus(0, true)];
    assert x !in f;
    RaisedGrows(o, i, f, x);
    var before := multiset(popped + [x])[i];
    var after := multiset(popped + ns)[i];
    var extra := if i in ns then 1 else 0;
    assert Raised(o, i, f + {x}) == Raised(o, i, f) + extra;
    assert before == multiset(popped)[i] + (if i == x then 1 else 0) by {
      assert multiset(popped + [x]) == multiset(popped) + multiset{x};
    }
    assert after == multiset(popped)[i] + extra by {
      assert multiset(popped + ns) == multiset(popped) + multiset(ns);
      DistinctOnce(ns, i);
    }
    if i == x {
      assert x !in ns;
      assert os'[i] == Octopus(0, true);
    } else {
      assert os'[i] == os[i];
    }
  }

  /** The flashed octopuses of a finished loop, counted the way `filter().count()` does. */
  function FlashCount(os: seq<Octopus>): (n: nat)
    ensures n == |FlashedSet(os)|
  {
    if |os| == 0 then 0
    else
      var last := os[|os| - 1];
      var rest := FlashCount(os[..|os| - 1]);
      assert FlashedSet(os) == FlashedSet(os[..|os| - 1]) + (if last.flashed then {|os| - 1} else {});
      rest + (if last.flashed then 1 else 0)
  }

  /** The octopuses with level 0. */
  function ZeroSet(os: seq<Octopus>): set<nat> {
    set i: nat | i < |os| && os[i].val == 0
  }

  /** `o'` is the grid one step after `o`, as the puzzle describes it. The octopuses at 0
      are those that flashed: each was raised above 9 by its own raise and its flashing
      neighbours, every other octopus ends at its level plus one plus its flashing
      neighbours, and no flash happens that the others do not force (the flashes lie in
      every closed set). The flash marks are cleared. */
  ghost predicate Stepped(o: Octopi, o': Octopi) {
    && Ready(o) && Ready(o') && o'.rowLen == o.rowLen && o'.colLen == o.colLen
    && |o'.octopi| == |o.octopi|
    && var z := ZeroSet(o'.octopi);
       && (forall i :: 0 <= i < |o.octopi| && o'.octopi[i].val == 0 ==> Raised(o, i, z) > 9)
       && (forall i :: 0 <= i < |o.octopi| && o'.octopi[i].val != 0 ==> o'.octopi[i].val == Raised(o, i, z))
       && Forced(o, z)
  }

  /** A step has one outcome: its flashes are the least closed set, and they fix every
      level. */
  lemma SteppedUnique(o: Octopi, a: Octopi, b: Octopi)
    requires Stepped(o, a) && Stepped(o, b)
    ensures a == b
  {
    var za, zb := ZeroSet(a.octopi), ZeroSet(b.octopi);
    SteppedClosed(o, a);
    SteppedClosed(o, b);
    assert za == zb;
    forall i | 0 <= i < |a.octopi| ensures a.octopi[i] == b.octopi[i] {
      assert i in za <==> a.octopi[i].val == 0;
      assert i in zb <==> b.octopi[i].val == 0;
    }
  }

  /** The flashes of a step are closed: nothing outside them reaches above 9. */
  lemma SteppedClosed(o: Octopi, o': Octopi)
    requires Stepped(o, o')
    ensures Closed(o, ZeroSet(o'.octopi))
  {
    var z := ZeroSet(o'.octopi);
    forall i | 0 <= i < |o.octopi| && Raised(o, i, z) > 9 ensures i in z {
      assert o'.octopi[i].val <= 9;
    }
  }

  /** `step`: one step of the simulation, returning the number of flashes. */
  method Step(o: Octopi) returns (flashes: nat, o': Octopi)
    requires Ready(o)
    ensures Stepped(o, o')
    ensures flashes == |ZeroSet(o'.octopi)| && flashes <= |o.octopi|
  {
    var os := o.octopi;
    var pending := Indices(|os|);
    TrackingStarts(o);
    assert FlashedSet(os) == {};
    while |pending| > 0
      invariant Tracking(o, os, pending)
      invariant Forced(o, FlashedSet(os))
      decreases |CellsBelow(|o.octopi|) - FlashedSet(os)|, |pending|
    {
      os, pending := Touch(o, os, pending);
    }
    flashes := FlashCount(os);
    var cleared := Cleared(os);
    o' := Octopi(cleared, o.rowLen, o.colLen);
    Settled(o, os);
  }

  /** `has_flashed = false` for every octopus. */
  function Cleared(os: seq<Octopus>): (r: seq<Octopus>)
    ensures |r| == |os| && forall i :: 0 <= i < |os| ==> r[i] == Octopus(os[i].val, false)
  {
    seq(|os|, i requires 0 <= i < |os| => Octopus(os[i].val, false))
  }

  /** With the stack empty, level 0 marks exactly the flashed octopuses, each level is what
      the flashes raised it to, and clearing the marks gives the outcome of the step. */
  lemma Settled(o: Octopi, os: seq<Octopus>)
    requires Ready(o) && Tracking(o, os, []) && Forced(o, FlashedSet(os))
    ensures var o' := Octopi(Cleared(os), o.rowLen, o.colLen);
            && Stepped(o, o')
            && FlashedSet(os) == ZeroSet(o'.octopi) && |ZeroSet(o'.octopi)| <= |o.octopi|
  {
    var f := FlashedSet(os);
    var cleared := Cleared(os);
    forall i | 0 <= i < |os| ensures os[i].val == 0 <==> os[i].flashed {
      assert Accounted(o, os, [], f, i);
    }
    assert ZeroSet(cleared) == f;
    SubsetSize(f, CellsBelow(|os|));
    forall i | 0 <= i < |os| ensures Accounted(o, os, [], f, i) && cleared[i].val == os[i].val {
    }
  }

  /** The flashes of the steps along `trace`: the octopuses at 0 after each step. */
  function TraceFlashes(trace: seq<Octopi>): nat {
    if |trace| <= 1 then 0
    else TraceFlashes(trace[..|trace| - 1]) + |ZeroSet(trace[|trace| - 1].octopi)|
  }

  /** One more step keeps every link of a trace a step, and adds its flashes to the total. */
  lemma TraceGrows(trace: seq<Octopi>, next: Octopi, size: nat)
    requires |trace| >= 1 && Stepped(trace[|trace| - 1], next)
    requires forall j :: 0 <= j < |trace| - 1 ==> Stepped(trace[j], trace[j + 1])
    ensures var t := trace + [next];
            && (forall j :: 0 <= j < |t| - 1 ==> Stepped(t[j], t[j + 1]))
            && TraceFlashes(t) == TraceFlashes(trace) + |ZeroSet(next.octopi)|
            && |trace| * size == (|trace| - 1) * size + size
  {
    var t := trace + [next];
    assert t[..|trace|] == trace;
    forall j | 0 <= j < |t| - 1 ensures Stepped(t[j], t[j + 1]) {
      if j < |trace| - 1 {
        assert t[j] == trace[j] && t[j + 1] == trace[j + 1];
      }
    }
  }

  /** `(0..n).map(|_| octopi.step()).sum()`: `n` steps in a row, each one the step the
      puzzle describes, and the sum of their flashes. */
  method Run(o: Octopi, n: nat) returns (total: nat, o': Octopi, ghost trace: seq<Octopi>)
    requires Ready(o)
    ensures |trace| == n + 1 && trace[0] == o && trace[n] == o'
    ensures forall k :: 0 <= k < n ==> Stepped(trace[k], trace[k + 1])
    ensures total == TraceFlashes(trace) && total <= n * |o.octopi|
    ensures Ready(o') && |o'.octopi| == |o.octopi|
  {
    total, o', trace := 0, o, [o];
    var k := 0;
    while k < n
      invariant 0 <= k <= n
      invariant |trace| == k + 1 && trace[0] == o && trace[k] == o'
      invariant forall j :: 0 <= j < k ==> Stepped(trace[j], trace[j + 1])
      invariant total == TraceFlashes(trace) && total <= k * |o.octopi|
      invariant Ready(o') && |o'.octopi| == |o.octopi|
    {
      var flashes, next := Step(o');
      TraceGrows(trace, next, |o.octopi|);
      trace := trace + [next];
      total, o' := total + flashes, next;
      k := k + 1;
    }
  }
}
