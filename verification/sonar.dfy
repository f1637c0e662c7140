/** Day 1, the sonar sweep: how often a depth reading is larger than the one before it,
    for the raw readings and for the sums of each three-reading window. Readings are
    `u32` values, one per line. */
module Sonar {
  import opened Wrappers
  import opened Text

  const U32_MAX: nat := U32_LIMIT - 1

  predicate AllU32(depths: seq<nat>) {
    forall i :: 0 <= i < |depths| ==> depths[i] < U32_LIMIT
  }

  /** The body of `num_increasing`'s fold from reading `i` on, carrying the count so far
      and the previous reading. */
  function IncreaseFold(depths: seq<nat>, i: nat, count: nat, prev: nat): nat
    requires i <= |depths|
    decreases |depths| - i
  {
    if i == |depths| then count
    else if depths[i] > prev then IncreaseFold(depths, i + 1, count + 1, depths[i])
    else IncreaseFold(depths, i + 1, count, depths[i])
  }

  /** `num_increasing`: the fold starts with a count of 0 and `u32::MAX` as the previous
      reading, so the first reading is never counted. */
  function NumIncreasing(depths: seq<nat>): nat {
    IncreaseFold(depths, 0, 0, U32_MAX)
  }

  /** Reference count: the readings larger than their predecessor, counted from the end. */
  function Increases(depths: seq<nat>): nat
    decreases |depths|
  {
    if |depths| < 2 then 0
    else Increases(depths[..|depths| - 1]) + (if depths[|depths| - 1] > depths[|depths| - 2] then 1 else 0)
  }

  lemma {:induction false} IncreaseFoldCounts(depths: seq<nat>, i: nat, count: nat)
    requires 1 <= i <= |depths|
    ensures IncreaseFold(depths, i, count, depths[i - 1]) == count + Increases(depths) - Increases(depths[..i])
    ensures Increases(depths[..i]) <= Increases(depths)
    decreases |depths| - i
  {
    assert depths[..|depths|] == depths;
    if i < |depths| {
      assert depths[..i + 1][..i] == depths[..i];
      IncreaseFoldCounts(depths, i + 1, if depths[i] > depths[i - 1] then count + 1 else count);
    }
  }

  /** `num_increasing` counts exactly the readings that exceed the previous one: none for
      an empty input, at most `len - 1` otherwise. */
  lemma NumIncreasingCounts(depths: seq<nat>)
    requires AllU32(depths)
    ensures NumIncreasing(depths) == Increases(depths)
    ensures |depths| > 0 ==> NumIncreasing(depths) <= |depths| - 1
  {
    if |depths| > 0 {
      assert depths[..1] == [depths[0]];
      assert !(depths[0] > U32_MAX);
      IncreaseFoldCounts(depths, 1, 0);
      IncreasesBound(depths);
    }
  }

  lemma {:induction false} IncreasesBound(depths: seq<nat>)
    requires |depths| > 0
    ensures Increases(depths) <= |depths| - 1
    decreases |depths|
  {
    if |depths| >= 2 {
      IncreasesBound(depths[..|depths| - 1]);
    }
  }

  /** `depths.windows(3).map(|o| o.iter().sum())`. */
  function WindowSums(depths: seq<nat>): (sums: seq<nat>)
    ensures |sums| == if |depths| < 3 then 0 else |depths| - 2
    ensures forall i :: 0 <= i < |sums| ==> sums[i] == depths[i] + depths[i + 1] + depths[i + 2]
  {
    WindowsFrom(depths, 0)
  }

  /** The sums of the windows starting at `i` or later. */
  function WindowsFrom(depths: seq<nat>, i: nat): (sums: seq<nat>)
    requires i <= |depths|
    ensures |sums| == if |depths| - i < 3 then 0 else |depths| - i - 2
    ensures forall k :: 0 <= k < |sums| ==> sums[k] == depths[i + k] + depths[i + k + 1] + depths[i + k + 2]
    decreases |depths| - i
  {
    if |depths| - i < 3 then []
    else [depths[i] + depths[i + 1] + depths[i + 2]] + WindowsFrom(depths, i + 1)
  }

  /** Reference count for the windows: readings larger than the one three places back. */
  function GapIncreases(depths: seq<nat>): nat
    decreases |depths|
  {
    if |depths| < 4 then 0
    else GapIncreases(depths[..|depths| - 1]) + (if depths[|depths| - 1] > depths[|depths| - 4] then 1 else 0)
  }

  /** A window sum grows exactly when the reading entering the window is larger than the
      one leaving it, so the window count compares readings three apart. */
  lemma {:induction false} WindowIncreases(depths: seq<nat>)
    ensures Increases(WindowSums(depths)) == GapIncreases(depths)
    decreases |depths|
  {
    if |depths| >= 4 {
      var init := depths[..|depths| - 1];
      WindowIncreases(init);
      var w, wi := WindowSums(depths), WindowSums(init);
      WindowSumsSnoc(depths);
      IncreasesSnoc(w);
    }
  }

  /** Dropping the last reading drops the last window, and the last two windows differ
      by the reading that enters minus the one that leaves. */
  lemma WindowSumsSnoc(depths: seq<nat>)
    requires |depths| >= 4
    ensures var w := WindowSums(depths);
            var m := |depths|;
            |w| >= 2 && w[..|w| - 1] == WindowSums(depths[..m - 1])
            && (w[|w| - 1] > w[|w| - 2] <==> depths[m - 1] > depths[m - 4])
  {
    var w, wi := WindowSums(depths), WindowSums(depths[..|depths| - 1]);
    assert |w[..|w| - 1]| == |wi|;
    forall i | 0 <= i < |wi| ensures w[i] == wi[i] {
    }
  }

  lemma IncreasesSnoc(w: seq<nat>)
    requires |w| >= 2
    ensures Increases(w) == Increases(w[..|w| - 1]) + (if w[|w| - 1] > w[|w| - 2] then 1 else 0)
  {
  }

  /** `parse_file`: every line must be a `u32`; the first one that is not fails the file. */
  function ParseFile(data: string): (r: Result<seq<nat>, IntError>)
    ensures r.Ok? <==> forall l :: l in Lines(data) ==> ParseUnsigned(l, U32_LIMIT).Ok?
    ensures r.Ok? ==> |r.value| == |Lines(data)| && AllU32(r.value)
    ensures r.Ok? ==> forall i :: 0 <= i < |r.value| ==> r.value[i] == ParseUnsigned(Lines(data)[i], U32_LIMIT).value
  {
    ParseEach(Lines(data))
  }

  function ParseEach(lines: seq<string>): (r: Result<seq<nat>, IntError>)
    ensures r.Ok? <==> forall l :: l in lines ==> ParseUnsigned(l, U32_LIMIT).Ok?
    ensures r.Ok? ==> |r.value| == |lines| && AllU32(r.value)
    ensures r.Ok? ==> forall i :: 0 <= i < |r.value| ==> r.value[i] == ParseUnsigned(lines[i], U32_LIMIT).value
    decreases |lines|
  {
    if |lines| == 0 then Ok([])
    else
      match ParseUnsigned(lines[0], U32_LIMIT)
      case Err(e) => Err(e)
      case Ok(v) =>
        match ParseEach(lines[1..])
        case Err(e) =>
          assert forall l :: l in lines[1..] ==> l in lines;
          Err(e)
        case Ok(rest) =>
          assert forall l :: l in lines ==> l == lines[0] || l in lines[1..];
          Ok([v] + rest)
  }

  /** The worked example: 7 readings are larger than the previous one, and 5 window sums
      are larger than the previous window's. */
  lemma SampleCounts()
    ensures NumIncreasing([199, 200, 208, 210, 200, 207, 240, 269, 260, 263]) == 7
  {
  }

  lemma SampleWindows()
    ensures NumIncreasing(WindowSums([199, 200, 208, 210, 200, 207, 240, 269, 260, 263])) == 5
  {
  }
}
