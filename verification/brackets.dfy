/** Day 10, the navigation-subsystem syntax checker: a line of brackets is scanned with a
    stack of open brackets. A closer that does not match the top of the stack (or meets
    an empty stack) makes the line corrupted; a line that ends with open brackets left is
    unfinished, and its completion is scored as a base-5 number. Characters that are
    neither openers nor closers are skipped. */
module Brackets {
  import opened Wrappers

  predicate IsOpen(c: char) {
    c == '{' || c == '<' || c == '[' || c == '('
  }

  predicate IsClose(c: char) {
    c == '}' || c == '>' || c == ']' || c == ')'
  }

  predicate IsBracket(c: char) {
    IsOpen(c) || IsClose(c)
  }

  /** `get_partner`: the bracket of the other kind with the same shape. */
  function Partner(c: char): (p: char)
    requires IsBracket(c)
    ensures IsOpen(c) <==> IsClose(p)
    ensures IsClose(c) <==> IsOpen(p)
  {
    match c
    case '{' => '}'
    case '<' => '>'
    case '[' => ']'
    case '(' => ')'
    case '}' => '{'
    case '>' => '<'
    case ']' => '['
    case ')' => '('
  }

  /** `get_score` for `ParserType::Corruption`. */
  function CorruptionScore(c: char): nat
    requires IsClose(c)
  {
    match c
    case ')' => 3
    case ']' => 57
    case '}' => 1197
    case '>' => 25137
  }

  /** `get_score` for `ParserType::Completion`. */
  function CompletionScore(c: char): nat
    requires IsClose(c)
  {
    match c
    case ')' => 1
    case ']' => 2
    case '}' => 3
    case '>' => 4
  }

  /** `get_partner` is an involution, and no character is both an opener and a closer. */
  lemma PartnerInvolution(c: char)
    requires IsBracket(c)
    ensures Partner(Partner(c)) == c && Partner(c) != c
    ensures !(IsOpen(c) && IsClose(c))
  {
  }

  /** Each closer has its own score, in each of the two tables, and the completion score
      is a base-5 digit other than 0. */
  lemma ScoresDistinguishClosers(c: char, d: char)
    requires IsClose(c) && IsClose(d)
    ensures CorruptionScore(c) == CorruptionScore(d) <==> c == d
    ensures CompletionScore(c) == CompletionScore(d) <==> c == d
    ensures 1 <= CompletionScore(c) <= 4
  {
  }

  type Opener = c: char | IsOpen(c) witness '('

  /** The stack of open brackets, most recent on top. */
  datatype Stack = Empty | Push(top: Opener, below: Stack)

  function Depth(st: Stack): nat {
    match st
    case Empty => 0
    case Push(_, below) => 1 + Depth(below)
  }

  /** Where the scan is after a prefix of a line: stopped at an illegal closer, or still
      going with a stack of open brackets. */
  datatype Scan = Corrupt(bad: char) | Open(stack: Stack)

  predicate Valid(s: Scan) {
    match s
    case Corrupt(bad) => IsClose(bad)
    case Open(_) => true
  }

  /** One iteration of the `for c in line.chars()` loop shared by both scanners. */
  function Step(s: Scan, c: char): (t: Scan)
    ensures Valid(s) ==> Valid(t)
  {
    match s
    case Corrupt(_) => s
    case Open(st) =>
      if IsOpen(c) then Open(Push(c, st))
      else if IsClose(c) then
        if st.Push? && Partner(c) == st.top then Open(st.below)
        else Corrupt(c)
      else s
  }

  /** The scan of `line[i..]` starting from `s`. */
  function ScanFrom(s: Scan, line: string, i: nat): (t: Scan)
    requires i <= |line|
    ensures Valid(s) ==> Valid(t)
    decreases |line| - i
  {
    if i == |line| then s else ScanFrom(Step(s, line[i]), line, i + 1)
  }

  /** The scan of a whole line from an empty stack. */
  function ScanLine(line: string): (t: Scan)
    ensures Valid(t)
  {
    ScanFrom(Open(Empty), line, 0)
  }

  /** Scanning from position `|a| + j` of `a + b` is scanning `b` from `j`. */
  lemma {:induction false} ScanFromShift(s: Scan, a: string, b: string, j: nat)
    requires j <= |b|
    ensures ScanFrom(s, a + b, |a| + j) == ScanFrom(s, b, j)
    decreases |b| - j
  {
    if j < |b| {
      assert (a + b)[|a| + j] == b[j];
      ScanFromShift(Step(s, b[j]), a, b, j + 1);
    }
  }

  /** Scanning two pieces one after the other is scanning their concatenation. */
  lemma {:induction false} ScanFromAppend(s: Scan, a: string, b: string, i: nat)
    requires i <= |a|
    ensures ScanFrom(s, a + b, i) == ScanFrom(ScanFrom(s, a, i), b, 0)
    decreases |a| - i
  {
    if i == |a| {
      ScanFromShift(s, a, b, 0);
    } else {
      assert (a + b)[i] == a[i];
      ScanFromAppend(Step(s, a[i]), a, b, i + 1);
    }
  }

  /** The scan of one more character is one more step. */
  lemma ScanLineSnoc(line: string, i: nat)
    requires i < |line|
    ensures ScanLine(line[..i + 1]) == Step(ScanLine(line[..i]), line[i])
  {
    assert line[..i + 1] == line[..i] + [line[i]];
    ScanFromAppend(Open(Empty), line[..i], [line[i]], 0);
  }

  /** Once corrupted, a scan stays corrupted at the same closer. */
  lemma {:induction false} CorruptIsFinal(bad: char, line: string, i: nat)
    requires IsClose(bad) && i <= |line|
    ensures ScanFrom(Corrupt(bad), line, i) == Corrupt(bad)
    decreases |line| - i
  {
    if i < |line| {
      CorruptIsFinal(bad, line, i + 1);
    }
  }

  /** Characters that are neither openers nor closers leave the scan unchanged. */
  lemma SkipsOthers(s: Scan, c: char)
    requires !IsBracket(c)
    ensures Step(s, c) == s
  {
  }

  /** Position `i` holds the first illegal closer of `line`: the scan of everything
      before it is still open, and the closer there does not match the top of that
      stack (or the stack is empty). */
  predicate IllegalAt(line: string, i: nat) {
    && i < |line|
    && IsClose(line[i])
    && var s := ScanLine(line[..i]);
       s.Open? && (s.stack.Empty? || Partner(line[i]) != s.stack.top)
  }

  /** A line is corrupted exactly when some position holds the first illegal closer, the
      scan stops at that closer, and there is at most one such position. */
  lemma {:induction false} CorruptIffIllegal(line: string)
    ensures ScanLine(line).Corrupt? <==> exists i: nat :: IllegalAt(line, i)
    ensures forall i: nat :: IllegalAt(line, i) ==> ScanLine(line) == Corrupt(line[i])
    ensures forall i: nat, j: nat :: IllegalAt(line, i) && IllegalAt(line, j) ==> i == j
    decreases |line|
  {
    if |line| == 0 {
      return;
    }
    var n := |line| - 1;
    var init := line[..n];
    CorruptIffIllegal(init);
    assert line[..n + 1] == line;
    ScanLineSnoc(line, n);
    forall i: nat | i < n
      ensures IllegalAt(line, i) <==> IllegalAt(init, i)
    {
      assert line[..i] == init[..i];
    }
    if ScanLine(init).Corrupt? {
      var k :| IllegalAt(init, k);
      assert IllegalAt(line, k);
      assert !IllegalAt(line, n);
      forall i: nat | IllegalAt(line, i) ensures i == k {
        assert i < n;
      }
    } else {
      forall i: nat | i < n ensures !IllegalAt(line, i) {
      }
      if ScanLine(line).Corrupt? {
        assert IllegalAt(line, n);
      }
    }
  }

  /** `is_corrupted`: the corruption score of the first illegal closer, if there is one. */
  function IsCorrupted(line: string): (r: Option<nat>)
    ensures r.Some? <==> exists i: nat :: IllegalAt(line, i)
    ensures forall i: nat :: IllegalAt(line, i) ==> r == Some(CorruptionScore(line[i]))
  {
    CorruptIffIllegal(line);
    match ScanLine(line)
    case Corrupt(bad) => Some(CorruptionScore(bad))
    case Open(_) => None
  }

  /** `stack.iter().rev().map(|c| c.get_partner())`: the closers that finish the stack,
      innermost first. */
  function Completion(st: Stack): (cs: string)
    ensures |cs| == Depth(st)
    ensures forall i :: 0 <= i < |cs| ==> IsClose(cs[i])
  {
    match st
    case Empty => []
    case Push(c, below) => [Partner(c)] + Completion(below)
  }

  /** Appending its completion to an open scan empties the stack. */
  lemma {:induction false} CompletionCloses(st: Stack)
    ensures ScanFrom(Open(st), Completion(st), 0) == Open(Empty)
  {
    match st
    case Empty =>
    case Push(c, below) =>
      PartnerInvolution(c);
      var rest := Completion(below);
      assert Completion(st) == [Partner(c)] + rest;
      assert Step(Open(st), Partner(c)) == Open(below);
      ScanFromShift(Open(below), [Partner(c)], rest, 0);
      CompletionCloses(below);
  }

  /** `.fold(0, |acc, c| acc * 5 + c.get_score(Completion))` over a string of closers. */
  function Base5(acc: nat, cs: string): nat
    requires forall i :: 0 <= i < |cs| ==> IsClose(cs[i])
    decreases |cs|
  {
    if |cs| == 0 then acc else Base5(acc * 5 + CompletionScore(cs[0]), cs[1..])
  }

  /** The same fold, run on the stack itself from the top down. */
  function StackScore(acc: nat, st: Stack): nat
    decreases st
  {
    match st
    case Empty => acc
    case Push(c, below) => StackScore(acc * 5 + CompletionScore(Partner(c)), below)
  }

  lemma {:induction false} StackScoreIsBase5(acc: nat, st: Stack)
    ensures StackScore(acc, st) == Base5(acc, Completion(st))
    decreases st
  {
    match st
    case Empty =>
    case Push(c, below) =>
      var cs := Completion(st);
      assert cs[0] == Partner(c) && cs[1..] == Completion(below);
      StackScoreIsBase5(acc * 5 + CompletionScore(Partner(c)), below);
  }

  /** The fold never goes below its start, and any closer makes it positive. */
  lemma {:induction false} Base5Grows(acc: nat, cs: string)
    requires forall i :: 0 <= i < |cs| ==> IsClose(cs[i])
    ensures Base5(acc, cs) >= acc
    ensures |cs| > 0 ==> Base5(acc, cs) > 0
    decreases |cs|
  {
    if |cs| > 0 {
      Base5Grows(acc * 5 + CompletionScore(cs[0]), cs[1..]);
    }
  }

  /** The closer whose completion score is digit `d`. */
  function CloserOfScore(d: nat): (c: char)
    requires 1 <= d <= 4
    ensures IsClose(c) && CompletionScore(c) == d
  {
    if d == 1 then ')' else if d == 2 then ']' else if d == 3 then '}' else '>'
  }

  /** Reading closers back from a score: its base-5 digits, stopping at a 0 digit. */
  function ClosersOfScore(v: nat): (cs: string)
    decreases v
  {
    if v == 0 || v % 5 == 0 then []
    else ClosersOfScore(v / 5) + [CloserOfScore(v % 5)]
  }

  /** Adding one closer's digit below `acc` appends that closer. */
  lemma ClosersOfDigit(acc: nat, c: char)
    requires IsClose(c)
    ensures ClosersOfScore(acc * 5 + CompletionScore(c)) == ClosersOfScore(acc) + [c]
  {
    var d := CompletionScore(c);
    var v := acc * 5 + d;
    assert v % 5 == d && v / 5 == acc;
    ScoresDistinguishClosers(c, CloserOfScore(d));
  }

  /** The fold's digits come back in order: a completion score determines its
      completion. */
  lemma {:induction false} Base5RoundTrip(acc: nat, cs: string)
    requires forall i :: 0 <= i < |cs| ==> IsClose(cs[i])
    ensures ClosersOfScore(Base5(acc, cs)) == ClosersOfScore(acc) + cs
    decreases |cs|
  {
    if |cs| > 0 {
      ClosersOfDigit(acc, cs[0]);
      Base5RoundTrip(acc * 5 + CompletionScore(cs[0]), cs[1..]);
      assert cs == [cs[0]] + cs[1..];
    }
  }

  /** `is_unfinished`: `None` for a corrupted line or one that closes every bracket;
      otherwise the base-5 number whose digits are the scores of the closers that would
      finish it, which is positive, reads back as exactly those closers, and finishes the
      line when appended. */
  function IsUnfinished(line: string): (r: Option<nat>)
    ensures r.None? <==> IsCorrupted(line).Some? || ScanLine(line) == Open(Empty)
    ensures r.Some? ==> var cs := Completion(ScanLine(line).stack);
                        r.value == Base5(0, cs) && r.value > 0 && ClosersOfScore(r.value) == cs
                        && ScanLine(line + cs) == Open(Empty)
  {
    match ScanLine(line)
    case Corrupt(_) => None
    case Open(st) =>
      if st.Empty? then None
      else
        var cs := Completion(st);
        StackScoreIsBase5(0, st);
        Base5Grows(0, cs);
        Base5RoundTrip(0, cs);
        ScanFromAppend(Open(Empty), line, cs, 0);
        CompletionCloses(st);
        Some(StackScore(0, st))
  }

  /** Lines of the worked example: the unfinished line whose score, 288957, is the median
      of the five unfinished ones, and two of the corrupt lines. Each line is written as
      three pieces, scanned in turn. */
  lemma SampleLine1()
    ensures IsUnfinished("[({(<(()" + ")[]>[[{[" + "]{<()<>>") == Some(288957)
  {
    var a, b, c := "[({(<(()", ")[]>[[{[", "]{<()<>>";
    ScanFromAppend(Open(Empty), a + b, c, 0);
    ScanFromAppend(Open(Empty), a, b, 0);
    assert ScanFrom(Open(Empty), a, 0) == Open(Push('(', Push('<', Push('(', Push('{', Push('(', Push('[', Empty)))))));
    assert ScanFrom(Open(Push('(', Push('<', Push('(', Push('{', Push('(', Push('[', Empty))))))), b, 0) == Open(Push('[', Push('{', Push('[', Push('[', Push('(', Push('{', Push('(', Push('[', Empty)))))))));
    assert ScanFrom(Open(Push('[', Push('{', Push('[', Push('[', Push('(', Push('{', Push('(', Push('[', Empty))))))))), c, 0) == Open(Push('{', Push('{', Push('[', Push('[', Push('(', Push('{', Push('(', Push('[', Empty)))))))));
    assert StackScore(0, Push('{', Push('{', Push('[', Push('[', Push('(', Push('{', Push('(', Push('[', Empty))))))))) == 288957;
  }

  lemma SampleLine3()
    ensures IsCorrupted("{([(<{}[" + "<>[]}>{[" + "]{[(<()>") == Some(1197)
  {
    var a, b, c := "{([(<{}[", "<>[]}>{[", "]{[(<()>";
    ScanFromAppend(Open(Empty), a + b, c, 0);
    ScanFromAppend(Open(Empty), a, b, 0);
    assert ScanFrom(Open(Empty), a, 0) == Open(Push('[', Push('<', Push('(', Push('[', Push('(', Push('{', Empty)))))));
    assert ScanFrom(Open(Push('[', Push('<', Push('(', Push('[', Push('(', Push('{', Empty))))))), b, 0) == Corrupt('}');
    assert ScanFrom(Corrupt('}'), c, 0) == Corrupt('}');
  }

  lemma SampleLine9()
    ensures IsCorrupted("<{([([[(" + "<>()){}]" + ">(<<{{") == Some(25137)
  {
    var a, b, c := "<{([([[(", "<>()){}]", ">(<<{{";
    ScanFromAppend(Open(Empty), a + b, c, 0);
    ScanFromAppend(Open(Empty), a, b, 0);
    assert ScanFrom(Open(Empty), a, 0) == Open(Push('(', Push('[', Push('[', Push('(', Push('[', Push('(', Push('{', Push('<', Empty)))))))));
    assert ScanFrom(Open(Push('(', Push('[', Push('[', Push('(', Push('[', Push('(', Push('{', Push('<', Empty))))))))), b, 0) == Open(Push('[', Push('(', Push('[', Push('(', Push('{', Push('<', Empty)))))));
    assert ScanFrom(Open(Push('[', Push('(', Push('[', Push('(', Push('{', Push('<', Empty))))))), c, 0) == Corrupt('>');
  }
}
