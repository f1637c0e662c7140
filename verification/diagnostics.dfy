/** Day 3, the binary diagnostic report: every line is a string of '0'/'1' characters.
    Gamma takes the most common bit of every column and epsilon the least common one; the
    oxygen and CO2 ratings repeatedly keep only the lines whose bit at the next column
    matches the most (least) common bit among the lines still kept. Ties go to '1' for the
    most common bit and to '0' for the least common one. */
module Diagnostics {
  import opened Wrappers
  import opened Text

  /** The failures the report distinguishes, one per message of the original. */
  datatype DiagError =
    | NoLines          // the report has no line at all
    | NotABit          // `char_to_u8` met a character other than '0' or '1'
    | NonBinaryInput   // a column being counted holds a character other than '0' or '1'
    | BitPastEnd       // a column being counted is past the end of some line
    | EmptyCandidates  // a rating's filter kept no line

  /** A `u8` that `to_number` accepts: larger values panic. */
  type Bit = b: nat | b <= 1

  datatype Rule = MostCommon | LeastCommon

  datatype LifeSupportRating = Oxygen | CO2

  /** The bit criterion each rating filters with. */
  function RuleOf(rating: LifeSupportRating): Rule {
    match rating
    case Oxygen => MostCommon
    case CO2 => LeastCommon
  }

  /** `char_to_u8`. */
  function CharToU8(c: char): (r: Result<Bit, DiagError>)
    ensures r.Ok? <==> c == '0' || c == '1'
    ensures r.Ok? ==> BitChar(r.value) == c
    ensures r.Err? ==> r.error == NotABit
  {
    match c
    case '1' => Ok(1)
    case '0' => Ok(0)
    case _ => Err(NotABit)
  }

  function BitChar(b: Bit): char {
    if b == 1 then '1' else '0'
  }

  // ----- counting one column ----------------------------------------------------------

  /** Line `l` has a '0' or '1' at `place`. */
  predicate ReadableAt(l: string, place: nat) {
    place < |l| && (l[place] == '0' || l[place] == '1')
  }

  /** The error `most_common_bit` reports for an unreadable line. */
  function ColumnError(l: string, place: nat): DiagError {
    if place < |l| then NonBinaryInput else BitPastEnd
  }

  /** How many of the lines have a '1' at `place`. */
  function Ones(lines: seq<string>, place: nat): nat
    decreases |lines|
  {
    if |lines| == 0 then 0
    else
      var l := lines[|lines| - 1];
      Ones(lines[..|lines| - 1], place) + (if place < |l| && l[place] == '1' then 1 else 0)
  }

  /** The loop of `most_common_bit` from line `i` on, `ones` being the count so far. */
  function CountFrom(lines: seq<string>, place: nat, i: nat, ones: nat): Result<char, DiagError>
    requires i <= |lines|
    decreases |lines| - i
  {
    if i == |lines| then Ok(if 2 * ones >= |lines| then '1' else '0')
    else
      var l := lines[i];
      if place >= |l| then Err(BitPastEnd)
      else if l[place] == '1' then CountFrom(lines, place, i + 1, ones + 1)
      else if l[place] == '0' then CountFrom(lines, place, i + 1, ones)
      else Err(NonBinaryInput)
  }

  /** The loop adds the ones of the remaining lines to the count so far, and stops at the
      first line it cannot read. */
  lemma {:induction false} CountFromSpec(lines: seq<string>, place: nat, i: nat, ones: nat)
    requires i <= |lines|
    ensures var r := CountFrom(lines, place, i, ones);
            && (r.Ok? <==> forall k :: i <= k < |lines| ==> ReadableAt(lines[k], place))
            && (r.Ok? ==> (r.value == '1' <==> 2 * (ones + Ones(lines, place) - Ones(lines[..i], place)) >= |lines|))
            && (r.Ok? ==> r.value == '0' || r.value == '1')
            && (r.Err? ==> exists k :: i <= k < |lines| && !ReadableAt(lines[k], place)
                                       && r.error == ColumnError(lines[k], place)
                                       && forall j :: i <= j < k ==> ReadableAt(lines[j], place))
    decreases |lines| - i
  {
    assert lines[..|lines|] == lines;
    if i < |lines| {
      assert lines[..i + 1][..i] == lines[..i];
      var l := lines[i];
      if place < |l| && l[place] == '1' {
        CountFromSpec(lines, place, i + 1, ones + 1);
      } else if place < |l| && l[place] == '0' {
        CountFromSpec(lines, place, i + 1, ones);
      }
    }
  }

  /** `most_common_bit`: '1' exactly when at least half of the lines have a '1' at
      `place`; an error names the first line that has no bit there. */
  function MostCommonBit(lines: seq<string>, place: nat): (r: Result<char, DiagError>)
    ensures r.Ok? <==> forall k :: 0 <= k < |lines| ==> ReadableAt(lines[k], place)
    ensures r.Ok? ==> (r.value == '1' <==> 2 * Ones(lines, place) >= |lines|)
    ensures r.Ok? ==> r.value == '0' || r.value == '1'
    ensures r.Err? ==> exists k :: 0 <= k < |lines| && !ReadableAt(lines[k], place)
                                   && r.error == ColumnError(lines[k], place)
                                   && forall j :: 0 <= j < k ==> ReadableAt(lines[j], place)
  {
    assert lines[..0] == [];
    CountFromSpec(lines, place, 0, 0);
    CountFrom(lines, place, 0, 0)
  }

  /** `least_common_bit`: the complement of the most common bit, so ties give '0'. */
  function LeastCommonBit(lines: seq<string>, place: nat): (r: Result<char, DiagError>)
    ensures r.Ok? <==> MostCommonBit(lines, place).Ok?
    ensures r.Ok? ==> (r.value == '1' <==> MostCommonBit(lines, place).value == '0')
    ensures r.Ok? ==> r.value == '0' || r.value == '1'
    ensures r.Err? ==> r == MostCommonBit(lines, place)
  {
    match MostCommonBit(lines, place)
    case Ok(b) => Ok(if b == '1' then '0' else '1')
    case Err(e) => Err(e)
  }

  function CommonBit(lines: seq<string>, place: nat, rule: Rule): Result<char, DiagError> {
    match rule
    case MostCommon => MostCommonBit(lines, place)
    case LeastCommon => LeastCommonBit(lines, place)
  }

  // ----- gamma and epsilon ------------------------------------------------------------

  /** The common bit of every column from `place` up to `len`, as numbers; the first column
      that cannot be counted fails. */
  function ColumnBits(lines: seq<string>, place: nat, len: nat, rule: Rule): (r: Result<seq<Bit>, DiagError>)
    requires place <= len
    ensures r.Ok? <==> forall p :: place <= p < len ==> CommonBit(lines, p, rule).Ok?
    ensures r.Ok? ==> |r.value| == len - place
    ensures r.Ok? ==> forall p :: place <= p < len ==> BitChar(r.value[p - place]) == CommonBit(lines, p, rule).value
    decreases len - place
  {
    if place == len then Ok([])
    else
      match CommonBit(lines, place, rule)
      case Err(e) => Err(e)
      case Ok(c) =>
        match CharToU8(c)
        case Err(e) => Err(e)
        case Ok(b) =>
          match ColumnBits(lines, place + 1, len, rule)
          case Err(e) => Err(e)
          case Ok(rest) => Ok([b] + rest)
  }

  /** Epsilon is the bitwise complement of gamma. */
  lemma {:induction false} EpsilonComplementsGamma(lines: seq<string>, place: nat, len: nat)
    requires place <= len
    ensures ColumnBits(lines, place, len, LeastCommon).Ok? <==> ColumnBits(lines, place, len, MostCommon).Ok?
    ensures ColumnBits(lines, place, len, MostCommon).Ok? ==>
              var g, e := ColumnBits(lines, place, len, MostCommon).value, ColumnBits(lines, place, len, LeastCommon).value;
              |e| == |g| && forall i :: 0 <= i < |g| ==> e[i] != g[i]
    decreases len - place
  {
    if place < len {
      EpsilonComplementsGamma(lines, place + 1, len);
    }
  }

  // ----- bits to numbers --------------------------------------------------------------

  function Pow2(n: nat): (p: nat)
    ensures p >= 1
  {
    if n == 0 then 1 else 2 * Pow2(n - 1)
  }

  /** `(bit as u32).rotate_left(place)`: 0 stays 0, and a 32-bit rotation brings the 1
      back to place 0 after 32 places. */
  function RotateBit(bit: Bit, place: nat): nat {
    if bit == 0 then 0 else Pow2(place % 32)
  }

  /** The terms of `to_number`'s fold that come from `bits[..n]`: the fold reads the bits
      from the back, so `bits[k]` sits at place `|bits| - 1 - k`. */
  function ToNumberFrom(bits: seq<Bit>, n: nat): nat
    requires n <= |bits|
  {
    if n == 0 then 0
    else RotateBit(bits[n - 1], |bits| - n) + ToNumberFrom(bits, n - 1)
  }

  /** `to_number`; a bit above 1 panics, so bits are `Bit`s. */
  function ToNumber(bits: seq<Bit>): nat {
    ToNumberFrom(bits, |bits|)
  }

  /** The big-endian value of the bits: the first bit is the most significant. */
  function BitsValue(bits: seq<Bit>): nat
    decreases |bits|
  {
    if |bits| == 0 then 0 else 2 * BitsValue(bits[..|bits| - 1]) + bits[|bits| - 1]
  }

  lemma {:induction false} ToNumberFromExact(bits: seq<Bit>, n: nat)
    requires n <= |bits| <= 32
    ensures ToNumberFrom(bits, n) == BitsValue(bits[..n]) * Pow2(|bits| - n)
    decreases n
  {
    if n > 0 {
      var m := |bits| - n;
      var v, b, p, q := BitsValue(bits[..n - 1]), bits[n - 1], Pow2(m), Pow2(m + 1);
      ToNumberFromExact(bits, n - 1);
      assert ToNumberFrom(bits, n) == RotateBit(b, m) + v * q;
      RotateBitValue(b, m);
      assert BitsValue(bits[..n]) == 2 * v + b by {
        assert bits[..n][..n - 1] == bits[..n - 1];
      }
      Distribute(v, b, p, q);
    }
  }

  /** Below 32 places the rotation is a plain shift. */
  lemma RotateBitValue(b: Bit, m: nat)
    requires m < 32
    ensures RotateBit(b, m) == b * Pow2(m)
  {
    assert m % 32 == m;
    if b == 1 {
      assert b * Pow2(m) == Pow2(m);
    }
  }

  lemma Distribute(v: nat, b: nat, p: nat, q: nat)
    requires q == 2 * p
    ensures b * p + v * q == (2 * v + b) * p
  {
  }

  /** Up to 32 bits `to_number` reads the bits as a binary numeral, first bit most
      significant. */
  lemma ToNumberValue(bits: seq<Bit>)
    requires |bits| <= 32
    ensures ToNumber(bits) == BitsValue(bits)
  {
    ToNumberFromExact(bits, |bits|);
    assert bits[..|bits|] == bits;
  }

  /** Complementary bit strings add up to all ones. */
  lemma {:induction false} ComplementSum(g: seq<Bit>, e: seq<Bit>)
    requires |g| == |e| && forall i :: 0 <= i < |g| ==> e[i] != g[i]
    ensures BitsValue(g) + BitsValue(e) == Pow2(|g|) - 1
    decreases |g|
  {
    if |g| > 0 {
      var n := |g|;
      ComplementSum(g[..n - 1], e[..n - 1]);
    }
  }

  // ----- the ratings ------------------------------------------------------------------

  function MaxLen(lines: seq<string>): nat
    decreases |lines|
  {
    if |lines| == 0 then 0
    else
      var m := MaxLen(lines[..|lines| - 1]);
      if |lines[|lines| - 1]| > m then |lines[|lines| - 1]| else m
  }

  lemma {:induction false} MaxLenBounds(lines: seq<string>)
    ensures forall k :: 0 <= k < |lines| ==> |lines[k]| <= MaxLen(lines)
    decreases |lines|
  {
    if |lines| > 0 {
      MaxLenBounds(lines[..|lines| - 1]);
    }
  }

  lemma {:induction false} MaxLenOfSubset(sub: seq<string>, lines: seq<string>)
    requires forall l :: l in sub ==> l in lines
    ensures MaxLen(sub) <= MaxLen(lines)
    decreases |sub|
  {
    MaxLenBounds(lines);
    if |sub| > 0 {
      var last := sub[|sub| - 1];
      assert last in lines;
      MaxLenOfSubset(sub[..|sub| - 1], lines);
    }
  }

  /** The filter of `get_life_rating` from line `i` on: the lines whose bit at `place`
      is `bit`, in order. */
  function KeepFrom(numbers: seq<string>, i: nat, place: nat, bit: char): seq<string>
    requires i <= |numbers|
    decreases |numbers| - i
  {
    if i == |numbers| then []
    else
      var l := numbers[i];
      (if place < |l| && l[place] == bit then [l] else []) + KeepFrom(numbers, i + 1, place, bit)
  }

  lemma {:induction false} KeepFromSpec(numbers: seq<string>, i: nat, place: nat, bit: char)
    requires i <= |numbers|
    ensures var kept := KeepFrom(numbers, i, place, bit);
            && (forall l :: l in kept <==> l in numbers[i..] && place < |l| && l[place] == bit)
            && |kept| <= |numbers| - i
    decreases |numbers| - i
  {
    if i < |numbers| {
      assert numbers[i..] == [numbers[i]] + numbers[i + 1..];
      KeepFromSpec(numbers, i + 1, place, bit);
    }
  }

  /** The filter of `get_life_rating`: exactly the lines with `bit` at `place`. */
  function Keep(numbers: seq<string>, place: nat, bit: char): (kept: seq<string>)
    ensures forall l :: l in kept <==> l in numbers && place < |l| && l[place] == bit
    ensures |kept| <= |numbers|
  {
    assert numbers[0..] == numbers;
    KeepFromSpec(numbers, 0, place, bit);
    KeepFrom(numbers, 0, place, bit)
  }

  /** The loop of `get_life_rating` from column `place` on: while more than one line is
      kept, count the column among the kept lines and keep those that match. The column
      cannot run past every line, because counting a column past a line's end fails. */
  function RatingFrom(numbers: seq<string>, place: nat, rule: Rule): (r: Result<seq<string>, DiagError>)
    ensures r.Ok? ==> |r.value| <= 1 && forall l :: l in r.value ==> l in numbers
    ensures |numbers| <= 1 ==> r == Ok(numbers)
    decreases MaxLen(numbers) + 1 - place
  {
    if |numbers| <= 1 then Ok(numbers)
    else
      match CommonBit(numbers, place, rule)
      case Err(e) => Err(e)
      case Ok(bit) =>
        MaxLenBounds(numbers);
        assert place < |numbers[0]| <= MaxLen(numbers) by {
          assert ReadableAt(numbers[0], place);
        }
        var kept := Keep(numbers, place, bit);
        MaxLenOfSubset(kept, numbers);
        RatingFrom(kept, place + 1, rule)
  }

  /** `get_life_rating`: the one line left by the filtering, read as bits; it fails when
      the filtering keeps no line or when that line holds a non-bit character. */
  function LifeRating(lines: seq<string>, rating: LifeSupportRating): (r: Result<seq<Bit>, DiagError>)
    ensures r.Ok? ==> exists l :: l in lines && |r.value| == |l|
                                 && forall i :: 0 <= i < |l| ==> BitChar(r.value[i]) == l[i]
  {
    match RatingFrom(lines, 0, RuleOf(rating))
    case Err(e) => Err(e)
    case Ok(left) =>
      if |left| == 0 then Err(EmptyCandidates)
      else LineBits(left[0])
  }

  /** The characters of a line from `i` on as bits; the first non-bit fails. */
  function LineBitsFrom(l: string, i: nat): (r: Result<seq<Bit>, DiagError>)
    requires i <= |l|
    ensures r.Ok? <==> forall k :: i <= k < |l| ==> l[k] == '0' || l[k] == '1'
    ensures r.Ok? ==> |r.value| == |l| - i && forall k :: i <= k < |l| ==> BitChar(r.value[k - i]) == l[k]
    decreases |l| - i
  {
    if i == |l| then Ok([])
    else
      match CharToU8(l[i])
      case Err(e) => Err(e)
      case Ok(b) =>
        match LineBitsFrom(l, i + 1)
        case Err(e) => Err(e)
        case Ok(rest) => Ok([b] + rest)
  }

  /** The characters of a line as bits; the first non-bit fails. */
  function LineBits(l: string): (r: Result<seq<Bit>, DiagError>)
    ensures r.Ok? <==> forall i :: 0 <= i < |l| ==> l[i] == '0' || l[i] == '1'
    ensures r.Ok? ==> |r.value| == |l| && forall i :: 0 <= i < |l| ==> BitChar(r.value[i]) == l[i]
  {
    LineBitsFrom(l, 0)
  }

  // ----- the report -------------------------------------------------------------------

  datatype Report = Report(gamma: seq<Bit>, epsilon: seq<Bit>, oxygen: seq<Bit>, co2: seq<Bit>)

  /** `Diagnostics::new` on the lines of the report: the first line fixes the width of
      gamma and epsilon. */
  function NewFromLines(lines: seq<string>): (r: Result<Report, DiagError>)
    ensures |lines| == 0 ==> r == Err(NoLines)
    ensures r.Ok? ==> && |r.value.gamma| == |lines[0]| && |r.value.epsilon| == |lines[0]|
                      && forall i :: 0 <= i < |lines[0]| ==> r.value.epsilon[i] != r.value.gamma[i]
  {
    if |lines| == 0 then Err(NoLines)
    else
      var len := |lines[0]|;
      var gamma :- ColumnBits(lines, 0, len, MostCommon);
      var epsilon :- ColumnBits(lines, 0, len, LeastCommon);
      var oxygen :- LifeRating(lines, Oxygen);
      var co2 :- LifeRating(lines, CO2);
      EpsilonComplementsGamma(lines, 0, len);
      Ok(Report(gamma, epsilon, oxygen, co2))
  }

  /** `Diagnostics::new`. */
  function New(data: string): Result<Report, DiagError> {
    NewFromLines(Lines(data))
  }

  /** `power_consumption`. */
  function PowerConsumption(r: Report): nat {
    ToNumber(r.gamma) * ToNumber(r.epsilon)
  }

  /** `life_support_rating`. */
  function LifeSupport(r: Report): nat {
    ToNumber(r.oxygen) * ToNumber(r.co2)
  }

  /** Gamma and epsilon add up to all ones, so the power consumption is gamma times its
      complement. */
  lemma PowerIsGammaTimesComplement(lines: seq<string>)
    requires NewFromLines(lines).Ok? && |lines[0]| <= 32
    ensures var r := NewFromLines(lines).value;
            PowerConsumption(r) == ToNumber(r.gamma) * (Pow2(|r.gamma|) - 1 - ToNumber(r.gamma))
  {
    var r := NewFromLines(lines).value;
    ToNumberValue(r.gamma);
    ToNumberValue(r.epsilon);
    ComplementSum(r.gamma, r.epsilon);
  }

  /** The life support rating is the product of the two ratings' binary values. */
  lemma LifeSupportIsProduct(r: Report)
    requires |r.oxygen| <= 32 && |r.co2| <= 32
    ensures LifeSupport(r) == BitsValue(r.oxygen) * BitsValue(r.co2)
  {
    ToNumberValue(r.oxygen);
    ToNumberValue(r.co2);
  }

  // ----- the oxygen filter never empties ----------------------------------------------

  lemma {:induction false} OnesWitness(lines: seq<string>, place: nat)
    requires Ones(lines, place) > 0
    ensures exists k :: 0 <= k < |lines| && place < |lines[k]| && lines[k][place] == '1'
    decreases |lines|
  {
    var init := lines[..|lines| - 1];
    if Ones(init, place) > 0 {
      OnesWitness(init, place);
      var k :| 0 <= k < |init| && place < |init[k]| && init[k][place] == '1';
      assert lines[k] == init[k];
    }
  }

  lemma {:induction false} ZerosWitness(lines: seq<string>, place: nat)
    requires forall k :: 0 <= k < |lines| ==> ReadableAt(lines[k], place)
    requires Ones(lines, place) < |lines|
    ensures exists k :: 0 <= k < |lines| && place < |lines[k]| && lines[k][place] == '0'
    decreases |lines|
  {
    var init, l := lines[..|lines| - 1], lines[|lines| - 1];
    if l[place] != '0' {
      assert forall k :: 0 <= k < |init| ==> init[k] == lines[k];
      ZerosWitness(init, place);
      var k :| 0 <= k < |init| && place < |init[k]| && init[k][place] == '0';
      assert lines[k] == init[k];
    }
  }

  /** The oxygen filter always keeps a line: the most common bit occurs at least once. */
  lemma {:induction false} OxygenKeepsOne(numbers: seq<string>, place: nat)
    requires |numbers| >= 1
    ensures RatingFrom(numbers, place, MostCommon).Ok? ==> |RatingFrom(numbers, place, MostCommon).value| == 1
    decreases MaxLen(numbers) + 1 - place
  {
    if |numbers| > 1 && MostCommonBit(numbers, place).Ok? {
      var bit := MostCommonBit(numbers, place).value;
      if bit == '1' {
        OnesWitness(numbers, place);
      } else {
        ZerosWitness(numbers, place);
      }
      var k :| 0 <= k < |numbers| && place < |numbers[k]| && numbers[k][place] == bit;
      var kept := Keep(numbers, place, bit);
      assert numbers[k] in kept;
      MaxLenBounds(numbers);
      assert ReadableAt(numbers[0], place);
      MaxLenOfSubset(kept, numbers);
      OxygenKeepsOne(kept, place + 1);
    }
  }

  /** The CO2 filter can keep no line: when every line has the same bit in a column, the
      least common bit is the other one, and the rating fails. */
  lemma Co2CanEmpty()
    ensures LifeRating(["10", "11"], CO2) == Err(EmptyCandidates)
  {
    var lines := ["10", "11"];
    assert Ones(lines, 0) == 2 by {
      assert lines[..1] == ["10"];
      assert lines[..1][..0] == [];
    }
    assert Keep(lines, 0, '0') == [] by {
      assert lines[..1] == ["10"];
      assert lines[..1][..0] == [];
    }
  }


  // ----- the worked example -----------------------------------------------------------

  const SAMPLE: seq<string> := ["00100", "11110", "10110", "10111", "10101", "01111",
                                "00111", "11100", "10000", "11001", "00010", "01010"]

  /** One round of the rating loop, when more than one line is left. */
  lemma RatingStep(numbers: seq<string>, place: nat, rule: Rule, bit: char)
    requires |numbers| > 1 && CommonBit(numbers, place, rule) == Ok(bit)
    ensures RatingFrom(numbers, place, rule) == RatingFrom(Keep(numbers, place, bit), place + 1, rule)
  {
  }

  lemma SampleGamma()
    ensures ColumnBits(SAMPLE, 0, 5, MostCommon) == Ok([1, 0, 1, 1, 0])
  {
    assert MostCommonBit(SAMPLE, 0) == Ok('1');
    assert MostCommonBit(SAMPLE, 1) == Ok('0');
    assert MostCommonBit(SAMPLE, 2) == Ok('1');
    assert MostCommonBit(SAMPLE, 3) == Ok('1');
    assert MostCommonBit(SAMPLE, 4) == Ok('0');
    var r := ColumnBits(SAMPLE, 0, 5, MostCommon);
    assert r.Ok? && |r.value| == 5;
    assert BitChar(r.value[0]) == '1';
    assert BitChar(r.value[1]) == '0';
    assert BitChar(r.value[2]) == '1';
    assert BitChar(r.value[3]) == '1';
    assert BitChar(r.value[4]) == '0';
    assert r.value == [1, 0, 1, 1, 0];
  }

  lemma SampleEpsilon()
    ensures ColumnBits(SAMPLE, 0, 5, LeastCommon) == Ok([0, 1, 0, 0, 1])
  {
    SampleGamma();
    EpsilonComplementsGamma(SAMPLE, 0, 5);
    var e := ColumnBits(SAMPLE, 0, 5, LeastCommon).value;
    assert e[0] == 0 && e[1] == 1 && e[2] == 0 && e[3] == 0 && e[4] == 1;
    assert e == [0, 1, 0, 0, 1];
  }

  const OXYGEN_1: seq<string> := ["11110", "10110", "10111", "10101", "11100", "10000", "11001"]
  const OXYGEN_2: seq<string> := ["10110", "10111", "10101", "10000"]
  const OXYGEN_3: seq<string> := ["10110", "10111", "10101"]
  const OXYGEN_4: seq<string> := ["10110", "10111"]

  lemma SampleOxygen1()
    ensures RatingFrom(SAMPLE, 0, MostCommon) == RatingFrom(OXYGEN_1, 1, MostCommon)
  {
    assert MostCommonBit(SAMPLE, 0) == Ok('1');
    assert KeepFrom(SAMPLE, 6, 0, '1') == ["11100", "10000", "11001"];
    assert KeepFrom(SAMPLE, 3, 0, '1') == ["10111", "10101", "11100", "10000", "11001"];
    assert KeepFrom(SAMPLE, 0, 0, '1') == OXYGEN_1;
    RatingStep(SAMPLE, 0, MostCommon, '1');
  }

  lemma SampleOxygen2()
    ensures RatingFrom(OXYGEN_1, 1, MostCommon) == RatingFrom(OXYGEN_2, 2, MostCommon)
  {
    assert MostCommonBit(OXYGEN_1, 1) == Ok('0');
    assert KeepFrom(OXYGEN_1, 3, 1, '0') == ["10101", "10000"];
    assert KeepFrom(OXYGEN_1, 0, 1, '0') == OXYGEN_2;
    RatingStep(OXYGEN_1, 1, MostCommon, '0');
  }

  lemma SampleOxygen3()
    ensures RatingFrom(OXYGEN_2, 2, MostCommon) == RatingFrom(OXYGEN_3, 3, MostCommon)
  {
    assert MostCommonBit(OXYGEN_2, 2) == Ok('1');
    assert KeepFrom(OXYGEN_2, 0, 2, '1') == OXYGEN_3;
    RatingStep(OXYGEN_2, 2, MostCommon, '1');
  }

  lemma SampleOxygen4()
    ensures RatingFrom(OXYGEN_3, 3, MostCommon) == RatingFrom(OXYGEN_4, 4, MostCommon)
  {
    assert MostCommonBit(OXYGEN_3, 3) == Ok('1');
    assert Keep(OXYGEN_3, 3, '1') == OXYGEN_4;
    RatingStep(OXYGEN_3, 3, MostCommon, '1');
  }

  lemma SampleOxygen5()
    ensures RatingFrom(OXYGEN_4, 4, MostCommon) == Ok(["10111"])
  {
    assert MostCommonBit(OXYGEN_4, 4) == Ok('1');
    assert Keep(OXYGEN_4, 4, '1') == ["10111"];
    RatingStep(OXYGEN_4, 4, MostCommon, '1');
  }

  lemma SampleLineBits()
    ensures LineBits("10111") == Ok([1, 0, 1, 1, 1]) && LineBits("01010") == Ok([0, 1, 0, 1, 0])
  {
    var oxygen, co2 := LineBitsFrom("10111", 0), LineBitsFrom("01010", 0);
    assert oxygen.Ok? && oxygen.value == [1, 0, 1, 1, 1];
    assert co2.Ok? && co2.value == [0, 1, 0, 1, 0];
  }

  /** The oxygen generator rating of the example is 10111. */
  lemma SampleOxygen()
    ensures LifeRating(SAMPLE, Oxygen) == Ok([1, 0, 1, 1, 1])
  {
    SampleOxygen1();
    SampleOxygen2();
    SampleOxygen3();
    SampleOxygen4();
    SampleOxygen5();
    SampleLineBits();
  }

  const CO2_1: seq<string> := ["00100", "01111", "00111", "00010", "01010"]
  const CO2_2: seq<string> := ["01111", "01010"]

  lemma SampleCo21()
    ensures RatingFrom(SAMPLE, 0, LeastCommon) == RatingFrom(CO2_1, 1, LeastCommon)
  {
    assert MostCommonBit(SAMPLE, 0) == Ok('1');
    assert KeepFrom(SAMPLE, 6, 0, '0') == ["00111", "00010", "01010"];
    assert KeepFrom(SAMPLE, 3, 0, '0') == ["01111", "00111", "00010", "01010"];
    assert KeepFrom(SAMPLE, 0, 0, '0') == CO2_1;
    RatingStep(SAMPLE, 0, LeastCommon, '0');
  }

  lemma SampleCo22()
    ensures RatingFrom(CO2_1, 1, LeastCommon) == Ok(["01010"])
  {
    assert MostCommonBit(CO2_1, 1) == Ok('0');
    assert Keep(CO2_1, 1, '1') == CO2_2;
    RatingStep(CO2_1, 1, LeastCommon, '1');
    assert MostCommonBit(CO2_2, 2) == Ok('1');
    assert Keep(CO2_2, 2, '0') == ["01010"];
    RatingStep(CO2_2, 2, LeastCommon, '0');
  }

  /** The CO2 scrubber rating of the example is 01010. */
  lemma SampleCo2()
    ensures LifeRating(SAMPLE, CO2) == Ok([0, 1, 0, 1, 0])
  {
    SampleCo21();
    SampleCo22();
    SampleLineBits();
  }

  /** The worked example: power consumption 22 * 9 = 198 and life support 23 * 10 = 230. */
  lemma SampleReport()
    ensures NewFromLines(SAMPLE).Ok?
    ensures PowerConsumption(NewFromLines(SAMPLE).value) == 198
    ensures LifeSupport(NewFromLines(SAMPLE).value) == 230
  {
    SampleGamma();
    SampleEpsilon();
    SampleOxygen();
    SampleCo2();
    var r := NewFromLines(SAMPLE);
    assert r == Ok(Report([1, 0, 1, 1, 0], [0, 1, 0, 0, 1], [1, 0, 1, 1, 1], [0, 1, 0, 1, 0]));
    SampleNumbers();
  }

  lemma SampleNumbers()
    ensures ToNumber([1, 0, 1, 1, 0]) == 22 && ToNumber([0, 1, 0, 0, 1]) == 9
    ensures ToNumber([1, 0, 1, 1, 1]) == 23 && ToNumber([0, 1, 0, 1, 0]) == 10
  {
    assert ToNumber([1, 0, 1, 1, 0]) == ToNumberFrom([1, 0, 1, 1, 0], 5);
    assert ToNumberFrom([1, 0, 1, 1, 0], 5) == 22;
    assert ToNumber([0, 1, 0, 0, 1]) == ToNumberFrom([0, 1, 0, 0, 1], 5);
    assert ToNumberFrom([0, 1, 0, 0, 1], 5) == 9;
    assert ToNumber([1, 0, 1, 1, 1]) == ToNumberFrom([1, 0, 1, 1, 1], 5);
    assert ToNumberFrom([1, 0, 1, 1, 1], 5) == 23;
    assert ToNumber([0, 1, 0, 1, 0]) == ToNumberFrom([0, 1, 0, 1, 0], 5);
    assert ToNumberFrom([0, 1, 0, 1, 0], 5) == 10;
  }
}
