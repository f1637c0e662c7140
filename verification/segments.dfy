/** Day 8, the seven-segment search: each display's ten digit patterns are wired to
    scrambled segment letters, and the wiring is recovered from how the patterns of each
    length contain one another. A pattern is kept with its letters sorted, so the same
    segments always give the same key. */
module Segments {
  import opened Wrappers
  import opened Text

  // ----- sorted letters ---------------------------------------------------------------

  predicate Sorted(s: string) {
    forall i, j :: 0 <= i < j < |s| ==> s[i] <= s[j]
  }

  lemma SortedCons(c: char, s: string)
    requires Sorted(s) && forall x :: x in s ==> c <= x
    ensures Sorted([c] + s)
  {
    var t := [c] + s;
    forall i, j | 0 <= i < j < |t|
      ensures t[i] <= t[j]
    {
      if i > 0 {
        assert t[i] == s[i - 1] && t[j] == s[j - 1];
      } else {
        assert t[j] == s[j - 1] && t[j] in s;
      }
    }
  }

  /** Put `c` into the sorted `s`. */
  function Insert(c: char, s: string): string
    decreases |s|
  {
    if |s| == 0 || c <= s[0] then [c] + s else [s[0]] + Insert(c, s[1..])
  }

  lemma {:induction false} InsertSpec(c: char, s: string)
    requires Sorted(s)
    ensures Sorted(Insert(c, s)) && multiset(Insert(c, s)) == multiset(s) + multiset{c}
    ensures |Insert(c, s)| == |s| + 1
    decreases |s|
  {
    if |s| > 0 && c > s[0] {
      var rest := s[1..];
      InsertSpec(c, rest);
      assert s == [s[0]] + rest;
      var r := Insert(c, rest);
      assert Insert(c, s) == [s[0]] + r;
      forall x | x in r
        ensures s[0] <= x
      {
        assert x in multiset(r);
        if x != c {
          assert x in multiset(rest);
          assert x in rest;
        }
      }
      SortedCons(s[0], r);
    } else {
      SortedCons(c, s);
    }
  }

  /** `chars().collect::<Vec<_>>().sort()`: the letters in ascending order. */
  function SortFrom(s: string, i: nat): string
    requires i <= |s|
    decreases |s| - i
  {
    if i == |s| then [] else Insert(s[i], SortFrom(s, i + 1))
  }

  lemma {:induction false} SortFromSpec(s: string, i: nat)
    requires i <= |s|
    ensures Sorted(SortFrom(s, i)) && multiset(SortFrom(s, i)) == multiset(s[i..])
    decreases |s| - i
  {
    if i < |s| {
      var rest := SortFrom(s, i + 1);
      SortFromSpec(s, i + 1);
      InsertSpec(s[i], rest);
      assert SortFrom(s, i) == Insert(s[i], rest);
      MultisetCons(s[i..]);
      assert s[i..][1..] == s[i + 1..];
    }
  }

  /** A sequence's multiset is its head's plus its tail's. */
  lemma MultisetCons(s: string)
    requires |s| > 0
    ensures multiset(s) == multiset{s[0]} + multiset(s[1..])
  {
    assert s == [s[0]] + s[1..];
  }

  /** The tail of a sorted string is sorted. */
  lemma SortedTail(s: string)
    requires Sorted(s) && |s| > 0
    ensures Sorted(s[1..])
  {
    var t := s[1..];
    forall i, j | 0 <= i < j < |t|
      ensures t[i] <= t[j]
    {
      assert t[i] == s[i + 1] && t[j] == s[j + 1];
    }
  }

  /** The head of a sorted string is its least letter. */
  lemma HeadIsLeast(s: string, x: char)
    requires Sorted(s) && x in multiset(s)
    ensures s[0] <= x
  {
    var k :| 0 <= k < |s| && s[k] == x;
    if k > 0 {
      assert s[0] <= s[k];
    }
  }

  /** The letters of `s` sorted: a sorted rearrangement of the same letters. */
  function SortChars(s: string): (r: string)
    ensures Sorted(r) && multiset(r) == multiset(s) && |r| == |s|
  {
    SortFromSpec(s, 0);
    assert s[0..] == s;
    assert |multiset(SortFrom(s, 0))| == |SortFrom(s, 0)|;
    SortFrom(s, 0)
  }

  /** Two sorted strings with the same letters are equal: sorting gives every arrangement
      of the same letters one key. */
  lemma {:induction false} SortedUnique(a: string, b: string)
    requires Sorted(a) && Sorted(b) && multiset(a) == multiset(b)
    ensures a == b
    decreases |a|
  {
    assert |a| == |multiset(a)| == |multiset(b)| == |b|;
    if |a| > 0 {
      SameHeads(a, b);
      SortedTail(a);
      SortedTail(b);
      SortedUnique(a[1..], b[1..]);
      assert a == [a[0]] + a[1..] && b == [b[0]] + b[1..];
    }
  }

  /** Two sorted strings with the same letters start with the same letter, and the rest
      have the same letters. */
  lemma SameHeads(a: string, b: string)
    requires Sorted(a) && Sorted(b) && multiset(a) == multiset(b) && |a| > 0
    ensures |b| > 0 && a[0] == b[0] && multiset(a[1..]) == multiset(b[1..])
  {
    assert |a| == |multiset(a)| == |multiset(b)| == |b|;
    MultisetCons(a);
    MultisetCons(b);
    assert a[0] in multiset(a) && b[0] in multiset(b);
    HeadIsLeast(a, b[0]);
    HeadIsLeast(b, a[0]);
    assert multiset(a[1..]) == multiset(a) - multiset{a[0]};
    assert multiset(b[1..]) == multiset(b) - multiset{b[0]};
  }

  /** `to_set`: the letters of a pattern. */
  function ToSet(s: string): (letters: set<char>)
    ensures forall c :: c in letters <==> c in s
  {
    set c | c in s
  }

  // ----- reading an entry -------------------------------------------------------------

  /** `DiaryEntry`: the ten signal patterns, the output patterns, and the decoder built from
      the signal patterns. */
  datatype Entry = Entry(signal: seq<string>, output: seq<string>, decoder: map<string, Digit>)

  /** The decoder only ever holds digits. */
  type Digit = d: nat | d <= 9

  /** A pattern as it is kept: trimmed, then its letters sorted. */
  function Canon(piece: string): (key: string)
    ensures Sorted(key) && multiset(key) == multiset(Trim(piece))
  {
    SortChars(Trim(piece))
  }

  /** The space-separated pieces of one half of an entry, each made canonical. */
  function Patterns(half: string): (keys: seq<string>)
    ensures |keys| == |Split(half, " ")|
    ensures forall k :: 0 <= k < |keys| ==> keys[k] == Canon(Split(half, " ")[k]) && Sorted(keys[k])
  {
    var pieces := Split(half, " ");
    seq(|pieces|, k requires 0 <= k < |pieces| => Canon(pieces[k]))
  }

  /** The two halves of an entry: the trimmed line cut at every '|', each piece trimmed. */
  function Halves(line: string): (halves: seq<string>)
    ensures |halves| == |Split(Trim(line), "|")|
  {
    var pieces := Split(Trim(line), "|");
    seq(|pieces|, k requires 0 <= k < |pieces| => Trim(pieces[k]))
  }

  // ----- building the decoder ---------------------------------------------------------

  /** Some signal pattern is `n` bytes long, so `find(..).unwrap()` does not panic. */
  predicate HasLength(signal: seq<string>, n: nat) {
    exists i :: 0 <= i < |signal| && ByteLen(signal[i]) == n
  }

  /** The four lengths `build_decoder` looks up are all there. */
  predicate Decodable(signal: seq<string>) {
    HasLength(signal, 2) && HasLength(signal, 4) && HasLength(signal, 3) && HasLength(signal, 7)
  }

  /** `signal.iter().find(|o| o.len() == n)` from `i` on. */
  function FindLengthFrom(signal: seq<string>, n: nat, i: nat): (r: string)
    requires i <= |signal| && exists j :: i <= j < |signal| && ByteLen(signal[j]) == n
    ensures exists j :: i <= j < |signal| && signal[j] == r && ByteLen(r) == n
                        && forall k :: i <= k < j ==> ByteLen(signal[k]) != n
    decreases |signal| - i
  {
    if ByteLen(signal[i]) == n then signal[i] else FindLengthFrom(signal, n, i + 1)
  }

  /** The first signal pattern `n` bytes long. */
  function FindLength(signal: seq<string>, n: nat): (r: string)
    requires HasLength(signal, n)
    ensures r in signal
    ensures exists j :: 0 <= j < |signal| && signal[j] == r && ByteLen(r) == n
                        && forall k :: 0 <= k < j ==> ByteLen(signal[k]) != n
  {
    FindLengthFrom(signal, n, 0)
  }

  /** The digit a six-letter pattern is taken for: 6 when it has every segment of eight
      that seven lacks, else 9 when it has all of four, else 0. */
  function SixLetterDigit(s: string, four: set<char>, seven: set<char>, eight: set<char>): Digit {
    if eight - seven <= ToSet(s) then 6
    else if four <= ToSet(s) then 9
    else 0
  }

  /** The digit a five-letter pattern is taken for: 5 when six has all its segments, else 2
      when it has every segment of eight that four lacks, else 3. */
  function FiveLetterDigit(s: string, six: set<char>, four: set<char>, eight: set<char>): Digit {
    if ToSet(s) <= six then 5
    else if eight - four <= ToSet(s) then 2
    else 3
  }

  /** The digit a pattern of `len` letters (six or five) is taken for, from the sets the
      source compares it with. */
  function Classify(s: string, len: nat, x: set<char>, y: set<char>, z: set<char>): Digit {
    if len == 6 then SixLetterDigit(s, x, y, z) else FiveLetterDigit(s, x, y, z)
  }

  /** The test of a loop of `build_decoder`: `s` has `len` letters and is taken for `digit`. */
  predicate Taken(s: string, len: nat, digit: Digit, x: set<char>, y: set<char>, z: set<char>) {
    ByteLen(s) == len && Classify(s, len, x, y, z) == digit
  }

  /** The last pattern of `signal` that passes `test`, or the empty string when none does. */
  function LastPassing(signal: seq<string>, test: string -> bool): (r: string)
    ensures r == "" || r in signal
    ensures r != "" ==> test(r)
    decreases |signal|
  {
    if |signal| == 0 then ""
    else
      var n := |signal| - 1;
      if test(signal[n]) then signal[n]
      else
        var r := LastPassing(signal[..n], test);
        assert r in signal[..n] ==> r in signal;
        r
  }

  /** `LastPassing` keeps the last pattern that passes, and stays empty when none does. */
  lemma {:induction false} LastPassingIsLast(signal: seq<string>, test: string -> bool)
    ensures (exists i :: 0 <= i < |signal| && test(signal[i])) ==>
              exists i :: 0 <= i < |signal| && signal[i] == LastPassing(signal, test) && test(signal[i])
                          && forall j :: i < j < |signal| ==> !test(signal[j])
    ensures (forall i :: 0 <= i < |signal| ==> !test(signal[i])) ==> LastPassing(signal, test) == ""
    decreases |signal|
  {
    if |signal| > 0 {
      var n := |signal| - 1;
      if !test(signal[n]) {
        LastPassingIsLast(signal[..n], test);
        assert forall i :: 0 <= i < n ==> signal[..n][i] == signal[i];
      }
    }
  }

  /** One of the loops of `build_decoder` over the patterns of `len` letters: the variable
      for `digit` ends as a pattern of `signal` taken for `digit`, or stays the empty string
      it starts as. */
  function LastTaken(signal: seq<string>, len: nat, digit: Digit, x: set<char>, y: set<char>, z: set<char>): (r: string)
    ensures r == "" || r in signal
    ensures r != "" ==> Taken(r, len, digit, x, y, z)
  {
    LastPassing(signal, s => Taken(s, len, digit, x, y, z))
  }

  /** The pattern a loop keeps for `digit` is the last one it takes for `digit`; it stays
      empty when it takes none. */
  lemma LastTakenIsLast(signal: seq<string>, len: nat, digit: Digit, x: set<char>, y: set<char>, z: set<char>)
    ensures var r := LastTaken(signal, len, digit, x, y, z);
            (exists i :: 0 <= i < |signal| && Taken(signal[i], len, digit, x, y, z)) ==>
              exists i :: 0 <= i < |signal| && signal[i] == r && Taken(r, len, digit, x, y, z)
                          && forall j :: i < j < |signal| ==> !Taken(signal[j], len, digit, x, y, z)
    ensures (forall i :: 0 <= i < |signal| ==> !Taken(signal[i], len, digit, x, y, z)) ==> LastTaken(signal, len, digit, x, y, z) == ""
  {
    LastPassingIsLast(signal, s => Taken(s, len, digit, x, y, z));
  }

  /** `build_decoder`: 1, 4, 7 and 8 by length, then the six-letter and the five-letter
      patterns by containment, inserted in the source's order (a later insert of the same
      key replaces an earlier one). */
  function BuildDecoder(signal: seq<string>): (decoder: map<string, Digit>)
    requires Decodable(signal)
    ensures forall k :: k in decoder ==> k == "" || k in signal
  {
    var one := FindLength(signal, 2);
    var four := FindLength(signal, 4);
    var seven := FindLength(signal, 3);
    var eight := FindLength(signal, 7);
    var fourSet, sevenSet, eightSet := ToSet(four), ToSet(seven), ToSet(eight);
    var six := LastTaken(signal, 6, 6, fourSet, sevenSet, eightSet);
    var nine := LastTaken(signal, 6, 9, fourSet, sevenSet, eightSet);
    var zero := LastTaken(signal, 6, 0, fourSet, sevenSet, eightSet);
    var sixSet := ToSet(six);
    var two := LastTaken(signal, 5, 2, sixSet, fourSet, eightSet);
    var three := LastTaken(signal, 5, 3, sixSet, fourSet, eightSet);
    var five := LastTaken(signal, 5, 5, sixSet, fourSet, eightSet);
    Inserted(one, four, seven, eight, six, nine, zero, two, three, five)
  }

  /** The decoder's ten inserts, in the source's order. */
  function Inserted(one: string, four: string, seven: string, eight: string, six: string,
                    nine: string, zero: string, two: string, three: string, five: string): map<string, Digit>
  {
    map[one := 1][four := 4][seven := 7][eight := 8][six := 6][nine := 9][zero := 0]
      [two := 2][three := 3][five := 5]
  }

  /** `DiaryEntry::from_str`: the signal patterns before the '|', the output patterns after
      it, and the decoder built from the signal. A line without '|' makes `entry[1]` panic
      and a signal lacking one of the lengths 2, 3, 4, 7 makes `build_decoder` panic. The
      `Result` is never an error. */
  function ParseEntry(line: string): (e: Entry)
    requires |Halves(line)| >= 2 && Decodable(Patterns(Halves(line)[0]))
    ensures e.signal == Patterns(Halves(line)[0]) && e.output == Patterns(Halves(line)[1])
    ensures e.decoder == BuildDecoder(e.signal)
  {
    var halves := Halves(line);
    var signal := Patterns(halves[0]);
    Entry(signal, Patterns(halves[1]), BuildDecoder(signal))
  }

  // ----- reading the display ----------------------------------------------------------

  /** `decode`: the digit of a pattern; an unknown pattern makes `unwrap` panic. */
  function Decode(e: Entry, s: string): Digit
    requires s in e.decoder
  {
    e.decoder[s]
  }

  /** How many output patterns `get_output` reads: `zip` stops after four. */
  function Shown(e: Entry): nat {
    if |e.output| < 4 then |e.output| else 4
  }

  /** Every output pattern `get_output` reads is known to the decoder. */
  predicate Readable(e: Entry) {
    forall i :: 0 <= i < Shown(e) ==> e.output[i] in e.decoder
  }

  function Pow10(n: nat): nat {
    if n == 0 then 1 else 10 * Pow10(n - 1)
  }

  /** The digit in place `i` (thousands first): the decoded output pattern, or 0 past the
      last pattern read. */
  function Place(e: Entry, i: nat): Digit
    requires Readable(e)
  {
    if i < Shown(e) then Decode(e, e.output[i]) else 0
  }

  /** The sum of `get_output` over the places from `i` on. */
  function OutputFrom(e: Entry, i: nat): nat
    requires Readable(e) && i <= Shown(e)
    decreases Shown(e) - i
  {
    if i == Shown(e) then 0 else Pow10(3 - i) * Decode(e, e.output[i]) + OutputFrom(e, i + 1)
  }

  /** `get_output`: the output patterns read as a four-digit decimal number, the first
      pattern in the thousands: its decimal digits are exactly the decoded patterns, zero
      past the last one read, and it has no more than four. */
  function GetOutput(e: Entry): (value: nat)
    requires Readable(e)
    ensures value < 10000
    ensures value / 1000 == Place(e, 0) && value / 100 % 10 == Place(e, 1)
    ensures value / 10 % 10 == Place(e, 2) && value % 10 == Place(e, 3)
  {
    OutputPlaces(e);
    DecimalDigits(Place(e, 0), Place(e, 1), Place(e, 2), Place(e, 3));
    OutputFrom(e, 0)
  }

  lemma OutputPlaces(e: Entry)
    requires Readable(e)
    ensures OutputFrom(e, 0) == 1000 * Place(e, 0) + 100 * Place(e, 1) + 10 * Place(e, 2) + Place(e, 3)
  {
    assert Pow10(3) == 1000 && Pow10(2) == 100 && Pow10(1) == 10 && Pow10(0) == 1;
    var n := Shown(e);
    assert OutputFrom(e, n) == 0;
    if n >= 4 {
      assert OutputFrom(e, 3) == Place(e, 3);
    }
    if n >= 3 {
      assert OutputFrom(e, 2) == 10 * Place(e, 2) + Place(e, 3);
    }
    if n >= 2 {
      assert OutputFrom(e, 1) == 100 * Place(e, 1) + 10 * Place(e, 2) + Place(e, 3);
    }
  }

  lemma DecimalDigits(a: nat, b: nat, c: nat, d: nat)
    requires a <= 9 && b <= 9 && c <= 9 && d <= 9
    ensures var v := 1000 * a + 100 * b + 10 * c + d;
            v < 10000 && v / 1000 == a && v / 100 % 10 == b && v / 10 % 10 == c && v % 10 == d
  {
    var v := 1000 * a + 100 * b + 10 * c + d;
    assert v / 1000 == a by {
      assert 1000 * a <= v < 1000 * (a + 1);
    }
    assert v / 100 == 10 * a + b by {
      assert 100 * (10 * a + b) <= v < 100 * (10 * a + b + 1);
    }
    assert v / 10 == 100 * a + 10 * b + c by {
      assert 10 * (100 * a + 10 * b + c) <= v < 10 * (100 * a + 10 * b + c + 1);
    }
  }

  /** The byte lengths only the digits 1, 7, 4 and 8 have. */
  predicate IsEasy(s: string) {
    var n := ByteLen(s);
    n == 2 || n == 3 || n == 4 || n == 7
  }

  /** The easy output patterns of one entry from `i` on. */
  function EasyFrom(output: seq<string>, i: nat): (n: nat)
    requires i <= |output|
    ensures n <= |output| - i
    decreases |output| - i
  {
    if i == |output| then 0 else (if IsEasy(output[i]) then 1 else 0) + EasyFrom(output, i + 1)
  }

  /** `easy_chars`: the output patterns, over all entries, whose length is 2, 3, 4 or 7. */
  function EasyChars(entries: seq<Entry>): (n: nat)
    decreases |entries|
  {
    if |entries| == 0 then 0
    else EasyChars(entries[..|entries| - 1]) + EasyFrom(entries[|entries| - 1].output, 0)
  }

  // ----- the decoder recovers any wiring -----------------------------------------------

  /** The segments a..g (numbered 0..6) each digit lights on a working display. */
  const STANDARD: seq<seq<nat>> := [
    [0, 1, 2, 4, 5, 6], [2, 5], [0, 2, 3, 4, 6], [0, 2, 3, 5, 6], [1, 2, 3, 5],
    [0, 1, 3, 5, 6], [0, 1, 3, 4, 5, 6], [0, 2, 5], [0, 1, 2, 3, 4, 5, 6], [0, 1, 2, 3, 5, 6]]

  /** The same segments as sets. */
  const SEGMENTS: seq<set<nat>> := [
    {0, 1, 2, 4, 5, 6}, {2, 5}, {0, 2, 3, 4, 6}, {0, 2, 3, 5, 6}, {1, 2, 3, 5},
    {0, 1, 3, 5, 6}, {0, 1, 3, 4, 5, 6}, {0, 2, 5}, {0, 1, 2, 3, 4, 5, 6}, {0, 1, 2, 3, 5, 6}]

  /** The segments digit `d` lights, as a set. */
  function Segs(d: Digit): (segs: set<nat>)
    ensures segs == SEGMENTS[d]
    ensures forall i :: i in segs ==> i < 7
  {
    var segs := set i | i in STANDARD[d];
    assert segs == SEGMENTS[d] by {
      if d == 0 { assert STANDARD[d] == [0, 1, 2, 4, 5, 6]; }
      else if d == 1 { assert STANDARD[d] == [2, 5]; }
      else if d == 2 { assert STANDARD[d] == [0, 2, 3, 4, 6]; }
      else if d == 3 { assert STANDARD[d] == [0, 2, 3, 5, 6]; }
      else if d == 4 { assert STANDARD[d] == [1, 2, 3, 5]; }
      else if d == 5 { assert STANDARD[d] == [0, 1, 3, 5, 6]; }
      else if d == 6 { assert STANDARD[d] == [0, 1, 3, 4, 5, 6]; }
      else if d == 7 { assert STANDARD[d] == [0, 2, 5]; }
      else if d == 8 { assert STANDARD[d] == [0, 1, 2, 3, 4, 5, 6]; }
      else { assert STANDARD[d] == [0, 1, 2, 3, 5, 6]; }
    }
    segs
  }

  /** A scrambled display: segment `i` is driven by wire `p[i]`, a different ASCII wire for
      each, so that a pattern's byte length is its number of segments. */
  predicate IsWiring(p: seq<char>) {
    |p| == 7 && IsAscii(p) && forall i, j :: 0 <= i < j < 7 ==> p[i] != p[j]
  }

  /** The wires digit `d` lights on the display `p`, in segment order. */
  function Wire(p: seq<char>, d: Digit): string
    requires |p| == 7
  {
    seq(|STANDARD[d]|, k requires 0 <= k < |STANDARD[d]| => p[STANDARD[d][k]])
  }

  /** The pattern digit `d` shows on the display `p`, as the decoder keeps it. */
  function Key(p: seq<char>, d: Digit): string
    requires |p| == 7
  {
    SortChars(Wire(p, d))
  }

  /** The wires driving the segments `a`. */
  function Image(p: seq<char>, a: set<nat>): set<char>
    requires |p| == 7
  {
    set i | i in a && i < 7 :: p[i]
  }

  lemma KeyShape(p: seq<char>, d: Digit)
    requires |p| == 7
    ensures |Key(p, d)| == |STANDARD[d]|
    ensures ToSet(Key(p, d)) == Image(p, Segs(d))
  {
    var w := Wire(p, d);
    forall c
      ensures c in Key(p, d) <==> c in Image(p, Segs(d))
    {
      assert c in Key(p, d) <==> c in multiset(w);
      if c in w {
        var k :| 0 <= k < |w| && w[k] == c;
        assert STANDARD[d][k] in Segs(d);
      }
      if c in Image(p, Segs(d)) {
        var i :| i in Segs(d) && i < 7 && p[i] == c;
        var k :| 0 <= k < |STANDARD[d]| && STANDARD[d][k] == i;
        assert w[k] == c;
      }
    }
  }

  /** A wiring keeps set containment: the wires of `a` are among the wires of `b` exactly
      when the segments of `a` are among those of `b`. */
  lemma ImageSubset(p: seq<char>, a: set<nat>, b: set<nat>)
    requires IsWiring(p) && (forall i :: i in a ==> i < 7) && (forall i :: i in b ==> i < 7)
    ensures Image(p, a) <= Image(p, b) <==> a <= b
  {
    if Image(p, a) <= Image(p, b) {
      forall i | i in a
        ensures i in b
      {
        assert p[i] in Image(p, b);
        var j :| j in b && j < 7 && p[j] == p[i];
        assert i == j;
      }
    }
  }

  lemma ImageDifference(p: seq<char>, a: set<nat>, b: set<nat>)
    requires IsWiring(p) && (forall i :: i in a ==> i < 7) && (forall i :: i in b ==> i < 7)
    ensures Image(p, a) - Image(p, b) == Image(p, a - b)
  {
    forall c | c in Image(p, a) - Image(p, b)
      ensures c in Image(p, a - b)
    {
      var i :| i in a && i < 7 && p[i] == c;
      assert i !in b;
    }
    forall c | c in Image(p, a - b)
      ensures c in Image(p, a) - Image(p, b)
    {
      var i :| i in a - b && i < 7 && p[i] == c;
    }
  }

  /** How the source's set tests come out on a scrambled display: as they do on the
      standard segments. */
  lemma KeyContains(p: seq<char>, d: Digit, e: Digit)
    requires IsWiring(p)
    ensures ToSet(Key(p, d)) <= ToSet(Key(p, e)) <==> Segs(d) <= Segs(e)
  {
    KeyShape(p, d);
    KeyShape(p, e);
    ImageSubset(p, Segs(d), Segs(e));
  }

  lemma KeyDifferenceContained(p: seq<char>, d: Digit, e: Digit, f: Digit)
    requires IsWiring(p)
    ensures ToSet(Key(p, d)) - ToSet(Key(p, e)) <= ToSet(Key(p, f)) <==> Segs(d) - Segs(e) <= Segs(f)
  {
    KeyShape(p, d);
    KeyShape(p, e);
    KeyShape(p, f);
    ImageDifference(p, Segs(d), Segs(e));
    ImageSubset(p, Segs(d) - Segs(e), Segs(f));
  }

  /** The six-letter test takes the pattern of 0, 6 or 9 for its own digit. */
  lemma SixLetterRight(p: seq<char>, d: Digit)
    requires IsWiring(p) && (d == 0 || d == 6 || d == 9)
    ensures SixLetterDigit(Key(p, d), ToSet(Key(p, 4)), ToSet(Key(p, 7)), ToSet(Key(p, 8))) == d
  {
    KeyDifferenceContained(p, 8, 7, d);
    KeyContains(p, 4, d);
    SixLetterSegments(d);
  }

  /** On the standard display: of 0, 6 and 9, only 6 lights every segment of 8 that 7
      lacks, and only 9 lights every segment of 4. */
  lemma SixLetterSegments(d: Digit)
    requires d == 0 || d == 6 || d == 9
    ensures Segs(8) - Segs(7) <= Segs(d) <==> d == 6
    ensures Segs(4) <= Segs(d) <==> d == 9
  {
    if d == 0 {
      assert 3 !in Segs(d);
    } else if d == 9 {
      assert 4 !in Segs(d);
    } else {
      assert 2 !in Segs(d);
    }
  }

  /** The five-letter test takes the pattern of 2, 3 or 5 for its own digit. */
  lemma FiveLetterRight(p: seq<char>, d: Digit)
    requires IsWiring(p) && (d == 2 || d == 3 || d == 5)
    ensures FiveLetterDigit(Key(p, d), ToSet(Key(p, 6)), ToSet(Key(p, 4)), ToSet(Key(p, 8))) == d
  {
    KeyContains(p, d, 6);
    KeyDifferenceContained(p, 8, 4, d);
    FiveLetterSegments(d);
  }

  /** On the standard display: of 2, 3 and 5, only 5 lies inside 6, and only 2 lights
      every segment of 8 that 4 lacks. */
  lemma FiveLetterSegments(d: Digit)
    requires d == 2 || d == 3 || d == 5
    ensures Segs(d) <= Segs(6) <==> d == 5
    ensures Segs(8) - Segs(4) <= Segs(d) <==> d == 2
  {
    if d == 2 {
      assert 2 !in Segs(6);
    } else if d == 3 {
      assert 2 !in Segs(6);
      assert 4 !in Segs(d);
    } else {
      assert 4 !in Segs(d);
    }
  }

  /** Different digits show different patterns. */
  lemma KeysDiffer(p: seq<char>, d: Digit, e: Digit)
    requires IsWiring(p) && d != e
    ensures Key(p, d) != Key(p, e)
  {
    KeyContains(p, d, e);
    KeyContains(p, e, d);
    SegmentsDiffer(d, e);
  }

  lemma SegmentsDiffer(d: Digit, e: Digit)
    requires d != e
    ensures SEGMENTS[d] != SEGMENTS[e]
  {
    var w := [0, 1, 2, 3, 4, 5, 6];
    if |SEGMENTS[d]| == |SEGMENTS[e]| {
      if d == 0 || d == 6 || d == 9 {
        assert 3 in SEGMENTS[d] <==> d != 0;
        assert 4 in SEGMENTS[d] <==> d != 9;
      } else if d == 2 || d == 3 || d == 5 {
        assert 1 in SEGMENTS[d] <==> d == 5;
        assert 4 in SEGMENTS[d] <==> d == 2;
      }
    }
  }

  /** `pattern` is the pattern of some digit on the display wired by `p`. */
  predicate IsSomeKey(p: seq<char>, pattern: string)
    requires |p| == 7
  {
    exists d: Digit :: pattern == Key(p, d)
  }

  /** The ten patterns of a display wired by `p`, in any order, and nothing else. */
  predicate Scrambled(p: seq<char>, signal: seq<string>) {
    && IsWiring(p)
    && (forall i :: 0 <= i < |signal| ==> IsSomeKey(p, signal[i]))
    && (forall d: Digit :: Key(p, d) in signal)
  }

  /** The pattern lengths: only 1, 7, 4 and 8 have two, three, four and seven letters. */
  lemma KeyLength(p: seq<char>, d: Digit)
    requires |p| == 7
    ensures |Key(p, d)| == 2 <==> d == 1
    ensures |Key(p, d)| == 3 <==> d == 7
    ensures |Key(p, d)| == 4 <==> d == 4
    ensures |Key(p, d)| == 7 <==> d == 8
    ensures |Key(p, d)| == 6 <==> d == 0 || d == 6 || d == 9
    ensures |Key(p, d)| == 5 <==> d == 2 || d == 3 || d == 5
  {
    KeyShape(p, d);
  }

  /** On ASCII wires a pattern is as many bytes long as it has letters. */
  lemma KeyBytes(p: seq<char>, d: Digit)
    requires |p| == 7 && IsAscii(p)
    ensures ByteLen(Key(p, d)) == |Key(p, d)|
  {
    var k := Key(p, d);
    forall i | 0 <= i < |k|
      ensures k[i] as int < 0x80
    {
      assert k[i] in multiset(Wire(p, d));
      var j :| 0 <= j < |STANDARD[d]| && Wire(p, d)[j] == k[i];
    }
    ByteLenAscii(k);
  }

  /** A length only digit `d` has picks out its pattern. */
  lemma FoundByLength(p: seq<char>, signal: seq<string>, n: nat, d: Digit)
    requires Scrambled(p, signal) && |Key(p, d)| == n
    requires forall e: Digit :: |Key(p, e)| == n ==> e == d
    ensures HasLength(signal, n) && FindLength(signal, n) == Key(p, d)
  {
    forall e: Digit
      ensures ByteLen(Key(p, e)) == |Key(p, e)|
    {
      KeyBytes(p, e);
    }
    var i :| 0 <= i < |signal| && signal[i] == Key(p, d);
    var j :| 0 <= j < |signal| && signal[j] == FindLength(signal, n);
    var e: Digit :| signal[j] == Key(p, e);
  }

  /** A loop that classifies every pattern of its length correctly keeps the pattern of
      its own digit. */
  lemma TakenByTest(p: seq<char>, signal: seq<string>, len: nat, d: Digit, x: set<char>, y: set<char>, z: set<char>)
    requires Scrambled(p, signal) && |Key(p, d)| == len
    requires forall e: Digit :: |Key(p, e)| == len ==> Classify(Key(p, e), len, x, y, z) == e
    ensures LastTaken(signal, len, d, x, y, z) == Key(p, d)
  {
    forall e: Digit
      ensures ByteLen(Key(p, e)) == |Key(p, e)|
    {
      KeyBytes(p, e);
    }
    var i :| 0 <= i < |signal| && signal[i] == Key(p, d);
    assert ByteLen(signal[i]) == len && Classify(signal[i], len, x, y, z) == d;
    var r := LastTaken(signal, len, d, x, y, z);
    LastTakenIsLast(signal, len, d, x, y, z);
    var j :| 0 <= j < |signal| && signal[j] == r && ByteLen(r) == len && Classify(r, len, x, y, z) == d;
    var e: Digit :| signal[j] == Key(p, e);
  }

  /** The patterns of the digits 0 to 9 on the display `p`. */
  function Keys(p: seq<char>): (keys: seq<string>)
    requires |p| == 7
    ensures |keys| == 10 && forall d: Digit :: keys[d] == Key(p, d)
  {
    seq(10, d requires 0 <= d < 10 => Key(p, d))
  }

  /** The decoder ten patterns listed by digit call for, built in the source's order. */
  function DecoderOf(keys: seq<string>): map<string, Digit>
    requires |keys| == 10
  {
    Inserted(keys[1], keys[4], keys[7], keys[8], keys[6], keys[9], keys[0], keys[2], keys[3], keys[5])
  }

  /** The six-letter loop of `build_decoder` on a scrambled display. */
  lemma SixLettersFound(p: seq<char>, signal: seq<string>)
    requires Scrambled(p, signal)
    ensures var four, seven, eight := ToSet(Key(p, 4)), ToSet(Key(p, 7)), ToSet(Key(p, 8));
            && LastTaken(signal, 6, 6, four, seven, eight) == Key(p, 6)
            && LastTaken(signal, 6, 9, four, seven, eight) == Key(p, 9)
            && LastTaken(signal, 6, 0, four, seven, eight) == Key(p, 0)
  {
    var four, seven, eight := ToSet(Key(p, 4)), ToSet(Key(p, 7)), ToSet(Key(p, 8));
    forall e: Digit | |Key(p, e)| == 6
      ensures Classify(Key(p, e), 6, four, seven, eight) == e
    {
      KeyLength(p, e);
      SixLetterRight(p, e);
    }
    KeyLength(p, 6);
    KeyLength(p, 9);
    KeyLength(p, 0);
    TakenByTest(p, signal, 6, 6, four, seven, eight);
    TakenByTest(p, signal, 6, 9, four, seven, eight);
    TakenByTest(p, signal, 6, 0, four, seven, eight);
  }

  /** The five-letter loop of `build_decoder` on a scrambled display, once six is known. */
  lemma FiveLettersFound(p: seq<char>, signal: seq<string>)
    requires Scrambled(p, signal)
    ensures var six, four, eight := ToSet(Key(p, 6)), ToSet(Key(p, 4)), ToSet(Key(p, 8));
            && LastTaken(signal, 5, 2, six, four, eight) == Key(p, 2)
            && LastTaken(signal, 5, 3, six, four, eight) == Key(p, 3)
            && LastTaken(signal, 5, 5, six, four, eight) == Key(p, 5)
  {
    var six, four, eight := ToSet(Key(p, 6)), ToSet(Key(p, 4)), ToSet(Key(p, 8));
    forall e: Digit | |Key(p, e)| == 5
      ensures Classify(Key(p, e), 5, six, four, eight) == e
    {
      KeyLength(p, e);
      FiveLetterRight(p, e);
    }
    KeyLength(p, 2);
    KeyLength(p, 3);
    KeyLength(p, 5);
    TakenByTest(p, signal, 5, 2, six, four, eight);
    TakenByTest(p, signal, 5, 3, six, four, eight);
    TakenByTest(p, signal, 5, 5, six, four, eight);
  }

  /** The lookups by length of `build_decoder` on a scrambled display. */
  lemma LengthsFound(p: seq<char>, signal: seq<string>)
    requires Scrambled(p, signal)
    ensures Decodable(signal)
    ensures && FindLength(signal, 2) == Key(p, 1) && FindLength(signal, 4) == Key(p, 4)
            && FindLength(signal, 3) == Key(p, 7) && FindLength(signal, 7) == Key(p, 8)
  {
    forall e: Digit
      ensures && (|Key(p, e)| == 2 <==> e == 1) && (|Key(p, e)| == 4 <==> e == 4)
              && (|Key(p, e)| == 3 <==> e == 7) && (|Key(p, e)| == 7 <==> e == 8)
    {
      KeyLength(p, e);
    }
    FoundByLength(p, signal, 2, 1);
    FoundByLength(p, signal, 4, 4);
    FoundByLength(p, signal, 3, 7);
    FoundByLength(p, signal, 7, 8);
  }

  /** The ten inserts of `build_decoder`, spelled out. */
  lemma BuildDecoderSteps(signal: seq<string>)
    requires Decodable(signal)
    ensures var four, seven, eight := ToSet(FindLength(signal, 4)), ToSet(FindLength(signal, 3)), ToSet(FindLength(signal, 7));
            var six := ToSet(LastTaken(signal, 6, 6, four, seven, eight));
            BuildDecoder(signal) ==
              Inserted(FindLength(signal, 2), FindLength(signal, 4), FindLength(signal, 3), FindLength(signal, 7),
                       LastTaken(signal, 6, 6, four, seven, eight), LastTaken(signal, 6, 9, four, seven, eight),
                       LastTaken(signal, 6, 0, four, seven, eight), LastTaken(signal, 5, 2, six, four, eight),
                       LastTaken(signal, 5, 3, six, four, eight), LastTaken(signal, 5, 5, six, four, eight))
  {
  }

  /** `build_decoder` on a scrambled display inserts the ten patterns of the wiring. */
  lemma BuildsWiredDecoder(p: seq<char>, signal: seq<string>)
    requires Scrambled(p, signal)
    ensures Decodable(signal) && BuildDecoder(signal) == DecoderOf(Keys(p))
  {
    LengthsFound(p, signal);
    SixLettersFound(p, signal);
    FiveLettersFound(p, signal);
    BuildDecoderSteps(signal);
    var keys := Keys(p);
    assert DecoderOf(keys) == Inserted(Key(p, 1), Key(p, 4), Key(p, 7), Key(p, 8), Key(p, 6),
                                       Key(p, 9), Key(p, 0), Key(p, 2), Key(p, 3), Key(p, 5));
  }

  /** With ten different keys, listed by digit, the decoder's inserts map each key to its
      digit: no insert replaces another. */
  lemma InsertedLookup(keys: seq<string>)
    requires |keys| == 10 && forall d, e :: 0 <= d < e < 10 ==> keys[d] != keys[e]
    ensures forall d :: 0 <= d < 10 ==> keys[d] in DecoderOf(keys) && DecoderOf(keys)[keys[d]] == d
  {
  }

  /** On a wiring, every pattern of the decoder it calls for maps to its own digit. */
  lemma WiredLookups(p: seq<char>)
    requires IsWiring(p)
    ensures forall d: Digit :: Key(p, d) in DecoderOf(Keys(p)) && DecoderOf(Keys(p))[Key(p, d)] == d
  {
    var keys := Keys(p);
    forall d, e | 0 <= d < e < 10
      ensures keys[d] != keys[e]
    {
      KeysDiffer(p, d, e);
    }
    InsertedLookup(keys);
  }

  /** `m` maps the pattern of every digit on the display `p` to that digit. */
  predicate DecodesWiring(p: seq<char>, m: map<string, Digit>)
    requires |p| == 7
  {
    forall d: Digit :: Key(p, d) in m && m[Key(p, d)] == d
  }

  /** `build_decoder` is right on every scrambled display: whatever the wiring and the order
      of the ten patterns, it finds them all and maps each to its own digit. */
  lemma DecoderIsCorrect(p: seq<char>, signal: seq<string>)
    requires Scrambled(p, signal)
    ensures Decodable(signal) && DecodesWiring(p, BuildDecoder(signal))
  {
    BuildsWiredDecoder(p, signal);
    WiredLookups(p);
  }

  // ----- reading the patterns back ---------------------------------------------------

  /** A piece is taken for the pattern of `d` exactly when it has the letters of `d`'s
      wires, in whatever order, around whatever padding. */
  lemma CanonIsKey(piece: string, p: seq<char>, d: Digit)
    requires |p| == 7
    ensures Canon(piece) == Key(p, d) <==> multiset(Trim(piece)) == multiset(Wire(p, d))
  {
    if multiset(Trim(piece)) == multiset(Wire(p, d)) {
      SortedUnique(Canon(piece), Key(p, d));
    }
  }

  /** A pattern as the puzzle writes it: a word of letters, none of them '|'. */
  predicate IsPattern(w: string) {
    IsWord(w) && '|' !in w
  }

  /** An entry line: the signal patterns, " | ", the output patterns. */
  function RenderEntry(signal: seq<string>, output: seq<string>): string
    requires |signal| >= 1 && |output| >= 1
  {
    Join(signal, " ") + " | " + Join(output, " ")
  }

  /** Space-joined sorted patterns read back as the same patterns. */
  lemma PatternsOfJoin(words: seq<string>)
    requires |words| >= 1 && forall k :: 0 <= k < |words| ==> IsPattern(words[k])
    ensures Patterns(Join(words, " ")) == SortEach(words)
  {
    SplitJoin(words, " ");
    var keys := Patterns(Join(words, " "));
    forall k | 0 <= k < |words|
      ensures keys[k] == SortChars(words[k])
    {
      TrimWords(words[k]);
    }
  }

  /** Each pattern with its letters sorted. */
  function SortEach(words: seq<string>): (sorted: seq<string>)
    ensures |sorted| == |words| && forall k :: 0 <= k < |words| ==> sorted[k] == SortChars(words[k])
  {
    seq(|words|, k requires 0 <= k < |words| => SortChars(words[k]))
  }

  /** Patterns already sorted are kept as they are. */
  lemma SortEachSorted(words: seq<string>)
    requires forall k :: 0 <= k < |words| ==> Sorted(words[k])
    ensures SortEach(words) == words
  {
    forall k | 0 <= k < |words|
      ensures SortEach(words)[k] == words[k]
    {
      SortedUnique(SortChars(words[k]), words[k]);
    }
  }

  /** A rendered line has no padding to trim. */
  lemma RenderTrimmed(signal: seq<string>, output: seq<string>)
    requires |signal| >= 1 && forall k :: 0 <= k < |signal| ==> IsPattern(signal[k])
    requires |output| >= 1 && forall k :: 0 <= k < |output| ==> IsPattern(output[k])
    ensures Trim(RenderEntry(signal, output)) == RenderEntry(signal, output)
  {
    var a, b := Join(signal, " "), Join(output, " ");
    JoinEnds(signal);
    JoinEnds(output);
    var line := RenderEntry(signal, output);
    assert line[0] == a[0] && line[|line| - 1] == b[|b| - 1];
    TrimWords(line);
  }

  /** A rendered line cuts at its one '|'. */
  lemma RenderSplit(signal: seq<string>, output: seq<string>)
    requires |signal| >= 1 && forall k :: 0 <= k < |signal| ==> IsPattern(signal[k])
    requires |output| >= 1 && forall k :: 0 <= k < |output| ==> IsPattern(output[k])
    ensures Split(RenderEntry(signal, output), "|") == [Join(signal, " ") + " ", " " + Join(output, " ")]
  {
    var a, b := Join(signal, " "), Join(output, " ");
    assert RenderEntry(signal, output) == (a + " ") + "|" + (" " + b);
    JoinAvoids(signal, " ", '|');
    JoinAvoids(output, " ", '|');
    SplitAround(a + " ", " " + b, "|");
  }

  /** The halves of a rendered line are the two space-joined halves. */
  lemma HalvesOfRender(signal: seq<string>, output: seq<string>)
    requires |signal| >= 1 && forall k :: 0 <= k < |signal| ==> IsPattern(signal[k])
    requires |output| >= 1 && forall k :: 0 <= k < |output| ==> IsPattern(output[k])
    ensures Halves(RenderEntry(signal, output)) == [Join(signal, " "), Join(output, " ")]
  {
    RenderTrimmed(signal, output);
    RenderSplit(signal, output);
    JoinEnds(signal);
    JoinEnds(output);
    TrimPadded(Join(signal, " "));
    TrimPadded(Join(output, " "));
  }

  /** `from_str` reads back a rendered entry: the same signal and output patterns, each
      with its letters sorted, and the decoder built from the sorted signal. */
  lemma ParseRender(signal: seq<string>, output: seq<string>)
    requires |signal| >= 1 && forall k :: 0 <= k < |signal| ==> IsPattern(signal[k])
    requires |output| >= 1 && forall k :: 0 <= k < |output| ==> IsPattern(output[k])
    requires Decodable(SortEach(signal))
    ensures |Halves(RenderEntry(signal, output))| >= 2
    ensures Decodable(Patterns(Halves(RenderEntry(signal, output))[0]))
    ensures ParseEntry(RenderEntry(signal, output))
              == Entry(SortEach(signal), SortEach(output), BuildDecoder(SortEach(signal)))
  {
    HalvesOfRender(signal, output);
    PatternsOfJoin(signal);
    PatternsOfJoin(output);
  }

  // ----- what the puzzle reads off a display ----------------------------------------

  /** The output patterns a display wired by `p` shows for the digits `ds`. */
  function Display(p: seq<char>, ds: seq<Digit>): (output: seq<string>)
    requires |p| == 7
    ensures |output| == |ds| && forall k :: 0 <= k < |ds| ==> output[k] == Key(p, ds[k])
  {
    seq(|ds|, k requires 0 <= k < |ds| => Key(p, ds[k]))
  }

  /** The digits among `ds` from `i` on that have a length of their own: 1, 4, 7 and 8. */
  function EasyDigitsFrom(ds: seq<Digit>, i: nat): nat
    requires i <= |ds|
    decreases |ds| - i
  {
    if i == |ds| then 0
    else (if ds[i] == 1 || ds[i] == 4 || ds[i] == 7 || ds[i] == 8 then 1 else 0) + EasyDigitsFrom(ds, i + 1)
  }

  /** The easy patterns are the patterns of 1, 4, 7 and 8, whatever the wiring. */
  lemma EasyKey(p: seq<char>, d: Digit)
    requires |p| == 7 && IsAscii(p)
    ensures IsEasy(Key(p, d)) <==> d == 1 || d == 4 || d == 7 || d == 8
  {
    KeyLength(p, d);
    KeyBytes(p, d);
  }

  /** `easy_chars` on one display counts exactly the shown digits 1, 4, 7 and 8. */
  lemma {:induction false} EasyFromDisplay(p: seq<char>, ds: seq<Digit>, i: nat)
    requires |p| == 7 && IsAscii(p) && i <= |ds|
    ensures EasyFrom(Display(p, ds), i) == EasyDigitsFrom(ds, i)
    decreases |ds| - i
  {
    if i < |ds| {
      EasyKey(p, ds[i]);
      EasyFromDisplay(p, ds, i + 1);
    }
  }

  /** The digits 1, 4, 7 and 8 shown over a list of displays. */
  function EasyDigits(shown: seq<seq<Digit>>): nat
    decreases |shown|
  {
    if |shown| == 0 then 0
    else EasyDigits(shown[..|shown| - 1]) + EasyDigitsFrom(shown[|shown| - 1], 0)
  }

  /** `easy_chars` over entries whose outputs are displays, each by its own wiring of
      seven ASCII wires, counts exactly the 1s, 4s, 7s and 8s shown. */
  lemma {:induction false} EasyCharsOfDisplays(wirings: seq<seq<char>>, shown: seq<seq<Digit>>, entries: seq<Entry>)
    requires |wirings| == |shown| == |entries|
    requires forall k :: 0 <= k < |entries| ==>
               |wirings[k]| == 7 && IsAscii(wirings[k]) && entries[k].output == Display(wirings[k], shown[k])
    ensures EasyChars(entries) == EasyDigits(shown)
    decreases |entries|
  {
    if |entries| > 0 {
      var n := |entries| - 1;
      EasyCharsOfDisplays(wirings[..n], shown[..n], entries[..n]);
      EasyFromDisplay(wirings[n], shown[n], 0);
    }
  }

  /** An entry whose decoder knows the wiring reads each shown digit. */
  lemma PlacesOfDisplay(p: seq<char>, e: Entry, ds: seq<Digit>)
    requires |p| == 7 && |ds| == 4 && e.output == Display(p, ds) && DecodesWiring(p, e.decoder)
    ensures Readable(e)
    ensures Place(e, 0) == ds[0] && Place(e, 1) == ds[1] && Place(e, 2) == ds[2] && Place(e, 3) == ds[3]
  {
    assert Shown(e) == 4;
    forall i | 0 <= i < 4
      ensures e.output[i] in e.decoder && e.decoder[e.output[i]] == ds[i]
    {
      assert e.output[i] == Key(p, ds[i]);
    }
  }

  /** On a scrambled display whose decoder comes from its own signal, `get_output` reads
      the four shown digits as a decimal number. */
  lemma ReadsDisplayedNumber(p: seq<char>, e: Entry, ds: seq<Digit>)
    requires Scrambled(p, e.signal) && |ds| == 4 && e.output == Display(p, ds)
    requires Decodable(e.signal) && e.decoder == BuildDecoder(e.signal)
    ensures Readable(e) && GetOutput(e) == 1000 * (ds[0] as nat) + 100 * (ds[1] as nat) + 10 * (ds[2] as nat) + ds[3] as nat
  {
    DecoderIsCorrect(p, e.signal);
    PlacesOfDisplay(p, e, ds);
    OutputPlaces(e);
  }

  /** Wires that are letters of a pattern: no whitespace, no '|'. */
  predicate PlainWires(p: seq<char>) {
    forall i :: 0 <= i < |p| ==> !IsWhitespace(p[i]) && p[i] != '|'
  }

  /** With plain wires, every pattern of the display is one the puzzle can write. */
  lemma KeyIsPattern(p: seq<char>, d: Digit)
    requires |p| == 7 && PlainWires(p)
    ensures IsPattern(Key(p, d)) && Sorted(Key(p, d))
  {
    KeyShape(p, d);
    var k := Key(p, d);
    forall i | 0 <= i < |k|
      ensures !IsWhitespace(k[i]) && k[i] != '|'
    {
      assert k[i] in ToSet(k);
    }
  }

  /** The whole of a display's entry line: written out, read back by `from_str`, and read
      by `get_output`, it gives the four digits shown, whatever the wiring and the order of
      the signal patterns. */
  lemma ReadsRenderedDisplay(p: seq<char>, signal: seq<string>, ds: seq<Digit>)
    requires Scrambled(p, signal) && PlainWires(p) && |signal| >= 1 && |ds| == 4
    ensures |Halves(RenderEntry(signal, Display(p, ds)))| >= 2
    ensures Decodable(Patterns(Halves(RenderEntry(signal, Display(p, ds)))[0]))
    ensures var e := ParseEntry(RenderEntry(signal, Display(p, ds)));
            Readable(e) && GetOutput(e) == 1000 * (ds[0] as nat) + 100 * (ds[1] as nat) + 10 * (ds[2] as nat) + ds[3] as nat
  {
    var output := Display(p, ds);
    forall k | 0 <= k < |signal|
      ensures IsPattern(signal[k]) && Sorted(signal[k])
    {
      var d: Digit :| signal[k] == Key(p, d);
      KeyIsPattern(p, d);
    }
    forall k | 0 <= k < |output|
      ensures IsPattern(output[k]) && Sorted(output[k])
    {
      KeyIsPattern(p, ds[k]);
    }
    DecoderIsCorrect(p, signal);
    SortEachSorted(signal);
    SortEachSorted(output);
    ParseRender(signal, output);
    ReadsDisplayedNumber(p, ParseEntry(RenderEntry(signal, output)), ds);
  }
}
