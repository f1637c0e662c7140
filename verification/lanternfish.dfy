/** Day 6, lanternfish: every fish carries a timer; a fish at 0 resets to 6 and spawns a
    new fish at 8, every other fish counts down. The school is kept as a histogram of
    nine counters, one per timer value. */
module Lanternfish {
  import opened Wrappers
  import opened Text

  const TIMERS: nat := 9

  /** `[u64; 9]`: how many fish have each timer value. */
  type School = f: seq<nat> | |f| == TIMERS witness [0, 0, 0, 0, 0, 0, 0, 0, 0]

  /** A single fish's timer. */
  type Timer = t: nat | t < TIMERS

  const EMPTY: School := [0, 0, 0, 0, 0, 0, 0, 0, 0]

  /** The one way `build` reports bad input. */
  datatype BuildError = InvalidInput

  /** `fish.iter().sum()`. */
  function Total(fish: School): nat {
    fish[0] + fish[1] + fish[2] + fish[3] + fish[4] + fish[5] + fish[6] + fish[7] + fish[8]
  }

  /** The comma-separated pieces of the trimmed input. */
  function Tokens(data: string): seq<string> {
    Split(Trim(data), ",")
  }

  /** The pieces from `i` on are read without a panic: each piece reached before the first
      one that is not a `usize` is a valid timer, so `fish[x]` is in bounds. */
  predicate NoPanicFrom(tokens: seq<string>, i: nat)
    requires i <= |tokens|
    decreases |tokens| - i
  {
    i == |tokens|
    || match ParseUnsigned(tokens[i], USIZE_LIMIT)
       case Err(_) => true
       case Ok(x) => x < TIMERS && NoPanicFrom(tokens, i + 1)
  }

  /** Every piece from `i` on is a number. */
  predicate AllNumbers(tokens: seq<string>, i: nat)
    requires i <= |tokens|
  {
    forall j :: i <= j < |tokens| ==> ParseUnsigned(tokens[j], USIZE_LIMIT).Ok?
  }

  /** How many pieces from `i` on read as the number `k`. */
  function CountFrom(tokens: seq<string>, i: nat, k: nat): nat
    requires i <= |tokens|
    decreases |tokens| - i
  {
    if i == |tokens| then 0
    else CountFrom(tokens, i + 1, k) + (if ParseUnsigned(tokens[i], USIZE_LIMIT) == Ok(k) then 1 else 0)
  }

  /** The loop of `build` from piece `i` on: each timer read adds one fish to its counter;
      the first piece that is not a number fails the whole input. */
  function BuildFrom(tokens: seq<string>, i: nat, fish: School): (r: Result<School, BuildError>)
    requires i <= |tokens| && NoPanicFrom(tokens, i)
    ensures r.Ok? <==> AllNumbers(tokens, i)
    ensures r.Ok? ==> forall k :: 0 <= k < TIMERS ==> r.value[k] == fish[k] + CountFrom(tokens, i, k)
    ensures r.Ok? ==> Total(r.value) == Total(fish) + (|tokens| - i)
    decreases |tokens| - i
  {
    if i == |tokens| then Ok(fish)
    else
      match ParseUnsigned(tokens[i], USIZE_LIMIT)
      case Err(_) => Err(InvalidInput)
      case Ok(x) =>
        CountFromStep(tokens, i, x);
        BuildFrom(tokens, i + 1, AddFish(fish, x))
  }

  /** A piece read as `x` adds one to the count of `x` and nothing to the others. */
  lemma CountFromStep(tokens: seq<string>, i: nat, x: nat)
    requires i < |tokens| && ParseUnsigned(tokens[i], USIZE_LIMIT) == Ok(x)
    ensures forall k :: CountFrom(tokens, i, k) == CountFrom(tokens, i + 1, k) + (if k == x then 1 else 0)
  {
  }

  /** `fish[x] += 1`. */
  function AddFish(fish: School, x: Timer): (more: School)
    ensures forall k :: 0 <= k < TIMERS ==> more[k] == fish[k] + (if k == x then 1 else 0)
    ensures Total(more) == Total(fish) + 1
  {
    fish[x := fish[x] + 1]
  }

  /** `Ocean::build`: counter `k` holds how many pieces read as `k`, so the school has one
      fish per piece; any piece that is not a number fails with `InvalidInput`. */
  function Build(data: string): (r: Result<School, BuildError>)
    requires NoPanicFrom(Tokens(data), 0)
    ensures r.Ok? <==> AllNumbers(Tokens(data), 0)
    ensures r.Ok? ==> forall k :: 0 <= k < TIMERS ==> r.value[k] == CountFrom(Tokens(data), 0, k)
    ensures r.Ok? ==> Total(r.value) == |Tokens(data)|
  {
    EmptyIsEmpty();
    BuildFrom(Tokens(data), 0, EMPTY)
  }

  lemma EmptyIsEmpty()
    ensures Total(EMPTY) == 0 && forall k :: 0 <= k < TIMERS ==> EMPTY[k] == 0
  {
  }

  /** `step_time`: every counter moves down one timer value; the fish at 0 restart at 6
      and spawn as many new fish at 8. */
  function StepTime(fish: School): (next: School)
    ensures Total(next) == Total(fish) + fish[0]
  {
    var next: School := [fish[1], fish[2], fish[3], fish[4], fish[5], fish[6], fish[7] + fish[0], fish[8], fish[0]];
    next
  }

  /** `steps` calls of `step_time`. */
  function Steps(fish: School, steps: nat): School
    decreases steps
  {
    if steps == 0 then fish else Steps(StepTime(fish), steps - 1)
  }

  // ----- the school as individual fish ---------------------------------------------

  /** One day for one fish. */
  function Tick(t: Timer): seq<Timer> {
    if t == 0 then [6, 8] else [t - 1]
  }

  /** One day for every fish, each fish followed by the fish it spawned. */
  function TickAll(timers: seq<Timer>): seq<Timer>
    decreases |timers|
  {
    if |timers| == 0 then [] else TickAll(timers[..|timers| - 1]) + Tick(timers[|timers| - 1])
  }

  /** The histogram of individual fish. */
  function Histogram(timers: seq<Timer>): (fish: School)
    ensures forall k :: 0 <= k < TIMERS ==> fish[k] == multiset(timers)[k]
  {
    seq(TIMERS, k => multiset(timers)[k])
  }

  function Add(f: School, g: School): (h: School)
    ensures forall k :: 0 <= k < TIMERS ==> h[k] == f[k] + g[k]
  {
    seq(TIMERS, k requires 0 <= k < TIMERS => f[k] + g[k])
  }

  lemma StepTimeAdds(f: School, g: School)
    ensures StepTime(Add(f, g)) == Add(StepTime(f), StepTime(g))
  {
  }

  lemma HistogramAppend(a: seq<Timer>, b: seq<Timer>)
    ensures Histogram(a + b) == Add(Histogram(a), Histogram(b))
  {
    assert multiset(a + b) == multiset(a) + multiset(b);
  }

  lemma StepTimeOneFish(t: Timer)
    ensures StepTime(Histogram([t])) == Histogram(Tick(t))
  {
  }

  /** Counting fish per timer and then stepping the counters is the same as stepping every
      fish and then counting: the histogram is a faithful model of the school. */
  lemma {:induction false} StepTimeSimulates(timers: seq<Timer>)
    ensures StepTime(Histogram(timers)) == Histogram(TickAll(timers))
    decreases |timers|
  {
    if |timers| == 0 {
      assert Histogram(timers) == EMPTY;
    } else {
      var init, last := timers[..|timers| - 1], timers[|timers| - 1];
      assert timers == init + [last];
      StepTimeSimulates(init);
      HistogramAppend(init, [last]);
      StepTimeAdds(Histogram(init), Histogram([last]));
      StepTimeOneFish(last);
      HistogramAppend(TickAll(init), Tick(last));
    }
  }

  /** `days` days for every fish. */
  function TickDays(timers: seq<Timer>, days: nat): seq<Timer>
    decreases days
  {
    if days == 0 then timers else TickDays(TickAll(timers), days - 1)
  }

  /** Any number of `step_time` calls on the counters follows the fish one by one. */
  lemma {:induction false} StepsSimulate(timers: seq<Timer>, days: nat)
    ensures Steps(Histogram(timers), days) == Histogram(TickDays(timers, days))
    decreases days
  {
    if days > 0 {
      StepTimeSimulates(timers);
      StepsSimulate(TickAll(timers), days - 1);
    }
  }

  /** The worked school 3,4,3,1,2 as counters. */
  const SAMPLE: School := [0, 1, 1, 2, 1, 0, 0, 0, 0]

  lemma SampleHistogram()
    ensures Histogram([3, 4, 3, 1, 2]) == SAMPLE
  {
    var s: seq<Timer> := [3, 4, 3, 1, 2];
    var m := multiset(s);
    assert m[0] == 0 && m[1] == 1 && m[2] == 1 && m[3] == 2 && m[4] == 1;
    assert m[5] == 0 && m[6] == 0 && m[7] == 0 && m[8] == 0;
    var h := Histogram(s);
    assert forall k :: 0 <= k < TIMERS ==> h[k] == SAMPLE[k];
  }

  lemma {:induction false} StepsAdd(fish: School, a: nat, b: nat)
    ensures Steps(fish, a + b) == Steps(Steps(fish, a), b)
    decreases a
  {
    if a > 0 {
      StepsAdd(StepTime(fish), a - 1, b);
    }
  }

  /** Days 1 to 6 of the worked school. */
  lemma SampleDays1To6()
    ensures Steps(SAMPLE, 6) == [0, 0, 1, 1, 3, 2, 2, 1, 0]
  {
  }

  /** Days 7 to 12 of the worked school. */
  lemma SampleDays7To12()
    ensures Steps([0, 0, 1, 1, 3, 2, 2, 1, 0], 6) == [2, 1, 0, 1, 1, 4, 3, 3, 2]
  {
  }

  /** Days 13 to 18 of the worked school. */
  lemma SampleDays13To18()
    ensures Steps([2, 1, 0, 1, 1, 4, 3, 3, 2], 6) == [3, 5, 3, 2, 2, 1, 5, 1, 4]
  {
  }

  /** 26 fish after 18 days. */
  lemma Sample18()
    ensures Total(Steps(SAMPLE, 18)) == 26
  {
    SampleDays1To6();
    SampleDays7To12();
    SampleDays13To18();
    StepsAdd(SAMPLE, 6, 6);
    StepsAdd(SAMPLE, 12, 6);
  }
}
