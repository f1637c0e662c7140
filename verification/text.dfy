/** The pieces of Rust's `str` API the puzzle parsers rely on: `lines`, `split` with a
    string pattern, `trim`, `split_whitespace`, `starts_with`, `contains`, and integer
    `parse` for unsigned and signed machine integers. Strings are `seq<char>`. */
module Text {
  import opened Wrappers

  /** The only way an integer `parse` fails that the callers distinguish: it failed. */
  datatype IntError = NotAnInteger

  const U32_LIMIT: nat := 0x1_0000_0000
  const USIZE_LIMIT: nat := 0x1_0000_0000_0000_0000
  const I32_MIN: int := -0x8000_0000
  const I32_MAX: int := 0x7fff_ffff

  predicate IsDigit(c: char) { '0' <= c <= '9' }

  function DigitValue(c: char): (d: nat)
    requires IsDigit(c)
    ensures d < 10
  {
    (c as int) - ('0' as int)
  }

  function DigitChar(d: nat): (c: char)
    requires d < 10
    ensures IsDigit(c) && DigitValue(c) == d
  {
    (('0' as int) + d) as char
  }

  predicate AllDigits(s: string) {
    forall i :: 0 <= i < |s| ==> IsDigit(s[i])
  }

  /** Value of a decimal digit string, most significant digit first. */
  function DecimalValue(s: string): nat
    requires AllDigits(s)
    decreases |s|
  {
    if |s| == 0 then 0 else DecimalValue(s[..|s| - 1]) * 10 + DigitValue(s[|s| - 1])
  }

  /** Rust `u32::from_str` / `usize::from_str`: an optional '+', then at least one ASCII
      digit and nothing else; values at or above `limit` overflow. */
  function ParseUnsigned(s: string, limit: nat): (r: Result<nat, IntError>)
    ensures r.Ok? ==> r.value < limit
    ensures r.Ok? <==> var d := if |s| > 0 && s[0] == '+' then s[1..] else s;
                       |d| > 0 && AllDigits(d) && DecimalValue(d) < limit
  {
    var digits := if |s| > 0 && s[0] == '+' then s[1..] else s;
    if |digits| == 0 || !AllDigits(digits) then Err(NotAnInteger)
    else if DecimalValue(digits) >= limit then Err(NotAnInteger)
    else Ok(DecimalValue(digits))
  }

  /** Rust `i32::from_str`: an optional '+' or '-', then at least one ASCII digit; the
      value must fit in 32-bit two's complement. */
  function ParseI32(s: string): (r: Result<int, IntError>)
    ensures r.Ok? ==> I32_MIN <= r.value <= I32_MAX
    ensures r.Ok? && |s| > 0 && s[0] == '-' ==> r.value <= 0
    ensures r.Ok? && (|s| == 0 || s[0] != '-') ==> r.value >= 0
  {
    if |s| > 0 && s[0] == '-' then
      var d := s[1..];
      if |d| == 0 || !AllDigits(d) || DecimalValue(d) > -I32_MIN then Err(NotAnInteger)
      else Ok(0 - DecimalValue(d))
    else
      match ParseUnsigned(s, I32_MAX + 1)
      case Ok(v) => Ok(v)
      case Err(e) => Err(e)
  }

  /** Decimal rendering of a natural number, the inverse of `ParseUnsigned`. */
  function ShowNat(n: nat): (s: string)
    ensures |s| >= 1 && AllDigits(s)
    decreases n
  {
    if n < 10 then [DigitChar(n)] else ShowNat(n / 10) + [DigitChar(n % 10)]
  }

  lemma {:induction false} DecimalValueShowNat(n: nat)
    ensures DecimalValue(ShowNat(n)) == n
    decreases n
  {
    if n >= 10 {
      var s := ShowNat(n);
      assert s[..|s| - 1] == ShowNat(n / 10);
      DecimalValueShowNat(n / 10);
    }
  }

  /** Parsing what `ShowNat` printed gives the number back. */
  lemma ParseShowNat(n: nat, limit: nat)
    requires n < limit
    ensures ParseUnsigned(ShowNat(n), limit) == Ok(n)
  {
    DecimalValueShowNat(n);
  }

  /** Decimal rendering of an integer, the inverse of `ParseI32`. */
  function ShowInt(n: int): (s: string)
    ensures |s| >= 1 && forall c :: c in s ==> c == '-' || IsDigit(c)
  {
    var m: nat := if n < 0 then -n else n;
    if n < 0 then "-" + ShowNat(m) else ShowNat(m)
  }

  lemma ParseShowInt(n: int)
    requires I32_MIN <= n <= I32_MAX
    ensures ParseI32(ShowInt(n)) == Ok(n)
  {
    if n < 0 {
      var d := ShowNat(-n);
      DecimalValueShowNat(-n);
      var s := "-" + d;
      assert s[0] == '-' && s[1..] == d;
      assert ShowInt(n) == s;
    } else {
      ParseShowNat(n, I32_MAX + 1);
      assert ShowNat(n)[0] != '-' by {
        assert IsDigit(ShowNat(n)[0]);
      }
    }
  }

  /** `pat` occurs in `s` starting at index `k`. */
  predicate MatchAt(s: string, pat: string, k: nat) {
    k + |pat| <= |s| && s[k..k + |pat|] == pat
  }

  /** Leftmost occurrence of `pat` in `s` at or after `from`. */
  function FindFrom(s: string, pat: string, from: nat): (r: Option<nat>)
    requires |pat| > 0
    ensures r.Some? ==> from <= r.value && MatchAt(s, pat, r.value)
    ensures r.Some? ==> forall k :: from <= k < r.value ==> !MatchAt(s, pat, k)
    ensures r.None? ==> forall k :: from <= k ==> !MatchAt(s, pat, k)
    decreases |s| - from
  {
    if from + |pat| > |s| then None
    else if s[from..from + |pat|] == pat then Some(from)
    else FindFrom(s, pat, from + 1)
  }

  /** Rust `str::contains` with a string pattern. */
  predicate Contains(s: string, pat: string)
    requires |pat| > 0
  {
    FindFrom(s, pat, 0).Some?
  }

  /** Rust `str::starts_with`. */
  predicate StartsWith(s: string, prefix: string) {
    |prefix| <= |s| && s[..|prefix|] == prefix
  }

  function Join(parts: seq<string>, sep: string): string
    requires |parts| >= 1
    decreases |parts|
  {
    if |parts| == 1 then parts[0] else parts[0] + sep + Join(parts[1..], sep)
  }

  /** A character in neither the parts nor the separator is not in their join. */
  lemma {:induction false} JoinAvoids(parts: seq<string>, sep: string, c: char)
    requires |parts| >= 1 && c !in sep
    requires forall k :: 0 <= k < |parts| ==> c !in parts[k]
    ensures c !in Join(parts, sep)
    decreases |parts|
  {
    if |parts| > 1 {
      JoinAvoids(parts[1..], sep, c);
    }
  }

  /** Rust `str::split` with a non-empty string pattern: the pieces between leftmost,
      non-overlapping occurrences of `sep`. Joining the pieces with `sep` gives `s` back,
      and no piece contains `sep`. */
  function Split(s: string, sep: string): (parts: seq<string>)
    requires |sep| > 0
    ensures |parts| >= 1
    ensures Join(parts, sep) == s
    ensures forall p :: p in parts ==> !Contains(p, sep)
    decreases |s|
  {
    match FindFrom(s, sep, 0)
    case None => [s]
    case Some(i) =>
      var head := s[..i];
      assert !Contains(head, sep) by {
        if FindFrom(head, sep, 0).Some? {
          var k := FindFrom(head, sep, 0).value;
          assert s[k..k + |sep|] == head[k..k + |sep|];
          assert MatchAt(s, sep, k);
        }
      }
      var rest := Split(s[i + |sep|..], sep);
      assert s == head + sep + s[i + |sep|..];
      [head] + rest
  }

  /** `pat` is first found at `k` when its first character does not occur before `k`. */
  lemma {:induction false} FindFirst(s: string, pat: string, from: nat, k: nat)
    requires |pat| > 0 && from <= k <= |s|
    requires forall j :: from <= j < k ==> s[j] != pat[0]
    requires k == |s| || MatchAt(s, pat, k)
    ensures FindFrom(s, pat, from) == if k == |s| then None else Some(k)
    decreases k - from
  {
    if from < k {
      if from + |pat| <= |s| {
        assert s[from..from + |pat|][0] == s[from];
      }
      FindFirst(s, pat, from + 1, k);
    }
  }

  /** Splitting on a separator that occurs only between `a` and `b`. */
  lemma SplitAround(a: string, b: string, sep: string)
    requires |sep| > 0 && sep[0] !in a && sep[0] !in b
    ensures Split(a + sep + b, sep) == [a, b]
  {
    var s := a + sep + b;
    assert s[|a|..|a| + |sep|] == sep;
    FindFirst(s, sep, 0, |a|);
    FindFirst(b, sep, 0, |b|);
    assert s[|a| + |sep|..] == b;
    assert s[..|a|] == a;
  }

  /** Pieces that do not contain the separator's first character, joined by the
      separator, split back into the same pieces. */
  lemma {:induction false} SplitJoin(parts: seq<string>, sep: string)
    requires |sep| > 0 && |parts| >= 1
    requires forall k :: 0 <= k < |parts| ==> sep[0] !in parts[k]
    ensures Split(Join(parts, sep), sep) == parts
    decreases |parts|
  {
    var a := parts[0];
    if |parts| == 1 {
      FindFirst(a, sep, 0, |a|);
    } else {
      var rest := Join(parts[1..], sep);
      var s := a + sep + rest;
      assert s[|a|..|a| + |sep|] == sep;
      FindFirst(s, sep, 0, |a|);
      assert s[..|a|] == a;
      assert s[|a| + |sep|..] == rest;
      SplitJoin(parts[1..], sep);
      assert [a] + parts[1..] == parts;
    }
  }

  /** Rust `str::lines`: the pieces between '\n' characters, a '\r' just before a '\n'
      removed, and no final empty piece after a trailing '\n'. */
  function Lines(s: string): (lines: seq<string>)
    ensures forall l :: l in lines ==> '\n' !in l
  {
    var pieces := Split(s, "\n");
    var n := |pieces|;
    assert forall i :: 0 <= i < n ==> '\n' !in pieces[i] by {
      forall i | 0 <= i < n ensures '\n' !in pieces[i] {
        NoCharWithoutMatch(pieces[i], '\n');
      }
    }
    var terminated := seq(n - 1, i requires 0 <= i < n - 1 => StripCarriageReturn(pieces[i]));
    if pieces[n - 1] == "" then terminated else terminated + [pieces[n - 1]]
  }

  lemma NoCharWithoutMatch(p: string, c: char)
    requires !Contains(p, [c])
    ensures c !in p
  {
    if c in p {
      var k :| 0 <= k < |p| && p[k] == c;
      assert p[k..k + 1] == [c];
      assert MatchAt(p, [c], k);
    }
  }

  function StripCarriageReturn(l: string): (r: string)
    ensures '\n' !in l ==> '\n' !in r
    ensures r == l || (l == r + "\r")
  {
    if |l| > 0 && l[|l| - 1] == '\r' then l[..|l| - 1] else l
  }

  /** Every character of `s` is ASCII, one byte in UTF-8. */
  predicate IsAscii(s: string) {
    forall k :: 0 <= k < |s| ==> s[k] as int < 0x80
  }

  /** The bytes UTF-8 spends on `c`. */
  function Utf8Width(c: char): nat {
    if c as int < 0x80 then 1 else if c as int < 0x800 then 2 else if c as int < 0x1_0000 then 3 else 4
  }

  /** Rust `str::len`: the length of `s` in UTF-8 bytes. */
  function ByteLen(s: string): nat {
    if |s| == 0 then 0 else Utf8Width(s[0]) + ByteLen(s[1..])
  }

  /** A string takes one to four bytes a character, and as many bytes as it has characters
      exactly when it is ASCII. */
  lemma {:induction false} ByteLenAscii(s: string)
    ensures |s| <= ByteLen(s) <= 4 * |s|
    ensures ByteLen(s) == |s| <==> IsAscii(s)
  {
    if |s| > 0 {
      ByteLenAscii(s[1..]);
      assert IsAscii(s) <==> s[0] as int < 0x80 && IsAscii(s[1..]) by {
        assert forall k :: 1 <= k < |s| ==> s[k] == s[1..][k - 1];
      }
    }
  }

  /** Rust `char::is_whitespace`: the Unicode White_Space property. */
  predicate IsWhitespace(c: char) {
    || ('\t' <= c <= '\r') || c == ' ' || c == '\U{85}' || c == '\U{A0}' || c == '\U{1680}'
    || ('\U{2000}' <= c <= '\U{200A}') || c == '\U{2028}' || c == '\U{2029}'
    || c == '\U{202F}' || c == '\U{205F}' || c == '\U{3000}'
  }

  /** Rust `str::trim_start`. */
  function TrimStart(s: string): (r: string)
    ensures |r| <= |s| && r == s[|s| - |r|..]
    ensures forall i :: 0 <= i < |s| - |r| ==> IsWhitespace(s[i])
    ensures |r| == 0 || !IsWhitespace(r[0])
    decreases |s|
  {
    if |s| > 0 && IsWhitespace(s[0]) then TrimStart(s[1..]) else s
  }

  /** Rust `str::trim_end`. */
  function TrimEnd(s: string): (r: string)
    ensures |r| <= |s| && r == s[..|r|]
    ensures forall i :: |r| <= i < |s| ==> IsWhitespace(s[i])
    ensures |r| == 0 || !IsWhitespace(r[|r| - 1])
    decreases |s|
  {
    if |s| > 0 && IsWhitespace(s[|s| - 1]) then TrimEnd(s[..|s| - 1]) else s
  }

  /** Rust `str::trim`. */
  function Trim(s: string): string {
    TrimEnd(TrimStart(s))
  }

  /** Trimming removes one space of padding on either side of a word. */
  lemma TrimPadded(w: string)
    requires |w| > 0 && !IsWhitespace(w[0]) && !IsWhitespace(w[|w| - 1])
    ensures Trim(w + " ") == w && Trim(" " + w) == w
  {
    assert (w + " ")[1..] == w[1..] + " ";
    assert (" " + w)[1..] == w;
    assert (" " + w)[..|w| + 1] == " " + w;
    assert (w + " ")[..|w|] == w;
    assert w[..|w|] == w;
  }

  /** Index of the first whitespace character of `s` at or after `from`, or `|s|`. */
  function WordEnd(s: string, from: nat): (k: nat)
    requires from <= |s|
    ensures from <= k <= |s|
    ensures forall i :: from <= i < k ==> !IsWhitespace(s[i])
    ensures k < |s| ==> IsWhitespace(s[k])
    decreases |s| - from
  {
    if from == |s| || IsWhitespace(s[from]) then from else WordEnd(s, from + 1)
  }

  /** Rust `str::split_whitespace`: maximal runs of non-whitespace characters. */
  function SplitWhitespace(s: string): (words: seq<string>)
    ensures forall w :: w in words ==> |w| > 0 && forall c :: c in w ==> !IsWhitespace(c)
    decreases |s|
  {
    var t := TrimStart(s);
    if |t| == 0 then []
    else
      var k := WordEnd(t, 0);
      [t[..k]] + SplitWhitespace(t[k..])
  }

  /** A word: non-empty and free of whitespace. */
  predicate IsWord(w: string) {
    |w| > 0 && forall i :: 0 <= i < |w| ==> !IsWhitespace(w[i])
  }

  /** Words joined by single spaces split back into the same words. */
  lemma {:induction false} SplitWhitespaceJoin(words: seq<string>)
    requires |words| >= 1 && forall k :: 0 <= k < |words| ==> IsWord(words[k])
    ensures SplitWhitespace(Join(words, " ")) == words
    decreases |words|
  {
    var w := words[0];
    assert IsWord(w);
    if |words| == 1 {
      LoneWord(w);
    } else {
      var tail := words[1..];
      assert forall k :: 0 <= k < |tail| ==> IsWord(tail[k]) by {
        forall k | 0 <= k < |tail| ensures IsWord(tail[k]) {
          assert tail[k] == words[k + 1];
        }
      }
      var rest := Join(tail, " ");
      assert Join(words, " ") == w + " " + rest;
      JoinEnds(tail);
      ConsWord(w, rest);
      SplitWhitespaceJoin(tail);
      assert words == [w] + tail;
    }
  }

  lemma LoneWord(w: string)
    requires IsWord(w)
    ensures SplitWhitespace(w) == [w]
  {
    LeadingWord(w, w);
    assert w[|w|..] == [];
    assert w[..|w|] == w;
  }

  /** A word, a space and more text: the word comes first. */
  lemma ConsWord(w: string, rest: string)
    requires IsWord(w) && |rest| > 0 && !IsWhitespace(rest[0])
    ensures SplitWhitespace(w + " " + rest) == [w] + SplitWhitespace(rest)
  {
    var s := w + " " + rest;
    var tail := " " + rest;
    assert s == w + tail;
    assert s[..|w|] == w && s[|w|..] == tail;
    assert IsWhitespace(s[|w|]) by { assert s[|w|] == tail[0] == ' '; }
    LeadingWord(s, w);
    SkipSpace(rest);
  }

  /** Text that starts with a whole word splits into that word and the rest. */
  lemma LeadingWord(s: string, w: string)
    requires |w| <= |s| && s[..|w|] == w && IsWord(w)
    requires |w| == |s| || IsWhitespace(s[|w|])
    ensures SplitWhitespace(s) == [w] + SplitWhitespace(s[|w|..])
  {
    assert s[0] == w[0];
    assert TrimStart(s) == s;
    WordEndOfWord(s, w, 0);
  }

  /** One leading space does not change the words. */
  lemma SkipSpace(rest: string)
    requires |rest| > 0 && !IsWhitespace(rest[0])
    ensures SplitWhitespace(" " + rest) == SplitWhitespace(rest)
  {
    assert (" " + rest)[1..] == rest;
    assert TrimStart(" " + rest) == TrimStart(rest) == rest;
  }

  lemma {:induction false} WordEndOfWord(s: string, w: string, from: nat)
    requires from <= |w| <= |s| && s[..|w|] == w && IsWord(w)
    requires |w| == |s| || IsWhitespace(s[|w|])
    ensures WordEnd(s, from) == |w|
    decreases |w| - from
  {
    if from < |w| {
      assert s[from] == w[from];
      WordEndOfWord(s, w, from + 1);
    }
  }

  /** Trimming leaves text that starts and ends with a word alone. */
  lemma TrimWords(s: string)
    requires |s| > 0 && !IsWhitespace(s[0]) && !IsWhitespace(s[|s| - 1])
    ensures Trim(s) == s
  {
  }

  /** Joined words start and end with a non-whitespace character. */
  lemma {:induction false} JoinEnds(words: seq<string>)
    requires |words| >= 1 && forall k :: 0 <= k < |words| ==> IsWord(words[k])
    ensures var s := Join(words, " "); |s| > 0 && !IsWhitespace(s[0]) && !IsWhitespace(s[|s| - 1])
    decreases |words|
  {
    if |words| > 1 {
      JoinEnds(words[1..]);
    }
  }
}
