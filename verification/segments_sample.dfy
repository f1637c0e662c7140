/** The worked example of `test_build_decoder`: the display wired "deafgbc" (segment a
    on wire d, b on e, c on a, d on f, e on g, f on b, g on c) showing 5353. */
module SegmentsSample {
  import opened Text
  import opened Segments

  const WIRING: seq<char> := "deafgbc"

  /** The example line's patterns, in its order: the line is `RenderEntry(SIGNAL, OUTPUT)`. */
  const SIGNAL: seq<string> := ["acedgfb", "cdfbe", "gcdfa", "fbcad", "dab", "cefabd", "cdfgeb", "eafb", "cagedb", "ab"]

  const OUTPUT: seq<string> := ["cdfeb", "fcadb", "cdfeb", "cdbaf"]


  /** Sorting each distinct word the example needs, a few letters at a time. */
  lemma Sorts_deagbc()
    ensures SortChars("deagbc") == "abcdeg"
  {
    assert SortFrom("deagbc", 4) == "bc";
    assert SortFrom("deagbc", 2) == "abcg";
    assert SortFrom("deagbc", 0) == "abcdeg";
  }

  lemma Sorts_ab()
    ensures SortChars("ab") == "ab"
  {
    assert SortFrom("ab", 0) == "ab";
  }

  lemma Sorts_dafgc()
    ensures SortChars("dafgc") == "acdfg"
  {
    assert SortFrom("dafgc", 3) == "cg";
    assert SortFrom("dafgc", 1) == "acfg";
    assert SortFrom("dafgc", 0) == "acdfg";
  }

  lemma Sorts_dafbc()
    ensures SortChars("dafbc") == "abcdf"
  {
    assert SortFrom("dafbc", 3) == "bc";
    assert SortFrom("dafbc", 1) == "abcf";
    assert SortFrom("dafbc", 0) == "abcdf";
  }

  lemma Sorts_eafb()
    ensures SortChars("eafb") == "abef"
  {
    assert SortFrom("eafb", 2) == "bf";
    assert SortFrom("eafb", 0) == "abef";
  }

  lemma Sorts_defbc()
    ensures SortChars("defbc") == "bcdef"
  {
    assert SortFrom("defbc", 3) == "bc";
    assert SortFrom("defbc", 1) == "bcef";
    assert SortFrom("defbc", 0) == "bcdef";
  }

  lemma Sorts_defgbc()
    ensures SortChars("defgbc") == "bcdefg"
  {
    assert SortFrom("defgbc", 4) == "bc";
    assert SortFrom("defgbc", 2) == "bcfg";
    assert SortFrom("defgbc", 0) == "bcdefg";
  }

  lemma Sorts_dab()
    ensures SortChars("dab") == "abd"
  {
    assert SortFrom("dab", 1) == "ab";
    assert SortFrom("dab", 0) == "abd";
  }

  lemma Sorts_deafgbc()
    ensures SortChars("deafgbc") == "abcdefg"
  {
    assert SortFrom("deafgbc", 5) == "bc";
    assert SortFrom("deafgbc", 3) == "bcfg";
    assert SortFrom("deafgbc", 1) == "abcefg";
    assert SortFrom("deafgbc", 0) == "abcdefg";
  }

  lemma Sorts_deafbc()
    ensures SortChars("deafbc") == "abcdef"
  {
    assert SortFrom("deafbc", 4) == "bc";
    assert SortFrom("deafbc", 2) == "abcf";
    assert SortFrom("deafbc", 0) == "abcdef";
  }

  lemma Sorts_acedgfb()
    ensures SortChars("acedgfb") == "abcdefg"
  {
    assert SortFrom("acedgfb", 5) == "bf";
    assert SortFrom("acedgfb", 3) == "bdfg";
    assert SortFrom("acedgfb", 1) == "bcdefg";
    assert SortFrom("acedgfb", 0) == "abcdefg";
  }

  lemma Sorts_cdfbe()
    ensures SortChars("cdfbe") == "bcdef"
  {
    assert SortFrom("cdfbe", 3) == "be";
    assert SortFrom("cdfbe", 1) == "bdef";
    assert SortFrom("cdfbe", 0) == "bcdef";
  }

  lemma Sorts_gcdfa()
    ensures SortChars("gcdfa") == "acdfg"
  {
    assert SortFrom("gcdfa", 3) == "af";
    assert SortFrom("gcdfa", 1) == "acdf";
    assert SortFrom("gcdfa", 0) == "acdfg";
  }

  lemma Sorts_fbcad()
    ensures SortChars("fbcad") == "abcdf"
  {
    assert SortFrom("fbcad", 3) == "ad";
    assert SortFrom("fbcad", 1) == "abcd";
    assert Insert('f', "abcd") == "abcdf";
    assert SortFrom("fbcad", 0) == "abcdf";
  }

  lemma Sorts_cefabd()
    ensures SortChars("cefabd") == "abcdef"
  {
    assert SortFrom("cefabd", 4) == "bd";
    assert SortFrom("cefabd", 2) == "abdf";
    assert SortFrom("cefabd", 0) == "abcdef";
  }

  lemma Sorts_cdfgeb()
    ensures SortChars("cdfgeb") == "bcdefg"
  {
    assert SortFrom("cdfgeb", 4) == "be";
    assert SortFrom("cdfgeb", 2) == "befg";
    assert SortFrom("cdfgeb", 0) == "bcdefg";
  }

  lemma Sorts_cagedb()
    ensures SortChars("cagedb") == "abcdeg"
  {
    assert SortFrom("cagedb", 4) == "bd";
    assert SortFrom("cagedb", 2) == "bdeg";
    assert SortFrom("cagedb", 0) == "abcdeg";
  }

  lemma Sorts_cdfeb()
    ensures SortChars("cdfeb") == "bcdef"
  {
    assert SortFrom("cdfeb", 3) == "be";
    assert SortFrom("cdfeb", 1) == "bdef";
    assert SortFrom("cdfeb", 0) == "bcdef";
  }

  lemma Sorts_fcadb()
    ensures SortChars("fcadb") == "abcdf"
  {
    assert SortFrom("fcadb", 3) == "bd";
    assert SortFrom("fcadb", 1) == "abcd";
    assert SortFrom("fcadb", 0) == "abcdf";
  }

  lemma Sorts_cdbaf()
    ensures SortChars("cdbaf") == "abcdf"
  {
    assert SortFrom("cdbaf", 3) == "af";
    assert SortFrom("cdbaf", 1) == "abdf";
    assert SortFrom("cdbaf", 0) == "abcdf";
  }

  lemma Key0()
    ensures Key(WIRING, 0) == "abcdeg"
  {
    assert STANDARD[0] == [0, 1, 2, 4, 5, 6];
    assert Wire(WIRING, 0) == "deagbc";
    Sorts_deagbc();
  }

  lemma Key1()
    ensures Key(WIRING, 1) == "ab"
  {
    assert STANDARD[1] == [2, 5];
    assert Wire(WIRING, 1) == "ab";
    Sorts_ab();
  }

  lemma Key2()
    ensures Key(WIRING, 2) == "acdfg"
  {
    assert STANDARD[2] == [0, 2, 3, 4, 6];
    assert Wire(WIRING, 2) == "dafgc";
    Sorts_dafgc();
  }

  lemma Key3()
    ensures Key(WIRING, 3) == "abcdf"
  {
    assert STANDARD[3] == [0, 2, 3, 5, 6];
    assert Wire(WIRING, 3) == "dafbc";
    Sorts_dafbc();
  }

  lemma Key4()
    ensures Key(WIRING, 4) == "abef"
  {
    assert STANDARD[4] == [1, 2, 3, 5];
    assert Wire(WIRING, 4) == "eafb";
    Sorts_eafb();
  }

  lemma Key5()
    ensures Key(WIRING, 5) == "bcdef"
  {
    assert STANDARD[5] == [0, 1, 3, 5, 6];
    assert Wire(WIRING, 5) == "defbc";
    Sorts_defbc();
  }

  lemma Key6()
    ensures Key(WIRING, 6) == "bcdefg"
  {
    assert STANDARD[6] == [0, 1, 3, 4, 5, 6];
    assert Wire(WIRING, 6) == "defgbc";
    Sorts_defgbc();
  }

  lemma Key7()
    ensures Key(WIRING, 7) == "abd"
  {
    assert STANDARD[7] == [0, 2, 5];
    assert Wire(WIRING, 7) == "dab";
    Sorts_dab();
  }

  lemma Key8()
    ensures Key(WIRING, 8) == "abcdefg"
  {
    assert STANDARD[8] == [0, 1, 2, 3, 4, 5, 6];
    assert Wire(WIRING, 8) == "deafgbc";
    Sorts_deafgbc();
  }

  lemma Key9()
    ensures Key(WIRING, 9) == "abcdef"
  {
    assert STANDARD[9] == [0, 1, 2, 3, 5, 6];
    assert Wire(WIRING, 9) == "deafbc";
    Sorts_deafbc();
  }

  /** The example's sorted signal patterns. */
  const SORTED_SIGNAL: seq<string> := ["abcdefg", "bcdef", "acdfg", "abcdf", "abd", "abcdef", "bcdefg", "abef", "abcdeg", "ab"]

  lemma WordsArePatterns()
    ensures forall k :: 0 <= k < |SIGNAL| ==> IsPattern(SIGNAL[k])
    ensures forall k :: 0 <= k < |OUTPUT| ==> IsPattern(OUTPUT[k])
  {
    forall k | 0 <= k < |SIGNAL| ensures IsPattern(SIGNAL[k]) {
      LettersArePattern(SIGNAL[k]);
    }
    forall k | 0 <= k < |OUTPUT| ensures IsPattern(OUTPUT[k]) {
      LettersArePattern(OUTPUT[k]);
    }
  }

  /** A non-empty word of the letters 'a' to 'g' is a pattern. */
  lemma LettersArePattern(w: string)
    requires |w| > 0 && forall i :: 0 <= i < |w| ==> 'a' <= w[i] <= 'g'
    ensures IsPattern(w)
  {
    forall i | 0 <= i < |w| ensures !IsWhitespace(w[i]) && w[i] != '|' {
    }
  }

  lemma SortedSignal0()
    ensures SortEach(SIGNAL)[0] == SORTED_SIGNAL[0]
  {
    assert SIGNAL[0] == "acedgfb" && SORTED_SIGNAL[0] == "abcdefg";
    Sorts_acedgfb();
  }

  lemma SortedSignal1()
    ensures SortEach(SIGNAL)[1] == SORTED_SIGNAL[1]
  {
    assert SIGNAL[1] == "cdfbe" && SORTED_SIGNAL[1] == "bcdef";
    Sorts_cdfbe();
  }

  lemma SortedSignal2()
    ensures SortEach(SIGNAL)[2] == SORTED_SIGNAL[2]
  {
    assert SIGNAL[2] == "gcdfa" && SORTED_SIGNAL[2] == "acdfg";
    Sorts_gcdfa();
  }

  lemma SortedSignal3()
    ensures SortEach(SIGNAL)[3] == SORTED_SIGNAL[3]
  {
    assert SIGNAL[3] == "fbcad" && SORTED_SIGNAL[3] == "abcdf";
    Sorts_fbcad();
  }

  lemma SortedSignal4()
    ensures SortEach(SIGNAL)[4] == SORTED_SIGNAL[4]
  {
    assert SIGNAL[4] == "dab" && SORTED_SIGNAL[4] == "abd";
    Sorts_dab();
  }

  lemma SortedSignal5()
    ensures SortEach(SIGNAL)[5] == SORTED_SIGNAL[5]
  {
    assert SIGNAL[5] == "cefabd" && SORTED_SIGNAL[5] == "abcdef";
    Sorts_cefabd();
  }

  lemma SortedSignal6()
    ensures SortEach(SIGNAL)[6] == SORTED_SIGNAL[6]
  {
    assert SIGNAL[6] == "cdfgeb" && SORTED_SIGNAL[6] == "bcdefg";
    Sorts_cdfgeb();
  }

  lemma SortedSignal7()
    ensures SortEach(SIGNAL)[7] == SORTED_SIGNAL[7]
  {
    assert SIGNAL[7] == "eafb" && SORTED_SIGNAL[7] == "abef";
    Sorts_eafb();
  }

  lemma SortedSignal8()
    ensures SortEach(SIGNAL)[8] == SORTED_SIGNAL[8]
  {
    assert SIGNAL[8] == "cagedb" && SORTED_SIGNAL[8] == "abcdeg";
    Sorts_cagedb();
  }

  lemma SortedSignal9()
    ensures SortEach(SIGNAL)[9] == SORTED_SIGNAL[9]
  {
    assert SIGNAL[9] == "ab" && SORTED_SIGNAL[9] == "ab";
    Sorts_ab();
  }

  /** Sorted, the signal patterns are the patterns of the digits 8, 5, 2, 3, 7, 9, 6, 4, 0, 1. */
  lemma SortedSignal()
    ensures SortEach(SIGNAL) == SORTED_SIGNAL
  {
    forall k | 0 <= k < 10
      ensures SortEach(SIGNAL)[k] == SORTED_SIGNAL[k]
    {
      if k == 0 { SortedSignal0(); } else if k == 1 { SortedSignal1(); }
      else if k == 2 { SortedSignal2(); } else if k == 3 { SortedSignal3(); }
      else if k == 4 { SortedSignal4(); } else if k == 5 { SortedSignal5(); }
      else if k == 6 { SortedSignal6(); } else if k == 7 { SortedSignal7(); }
      else if k == 8 { SortedSignal8(); } else { SortedSignal9(); }
    }
  }

  /** Sorted, the output patterns are the patterns of 5, 3, 5, 3. */
  lemma SortedOutput0()
    ensures SortEach(OUTPUT)[0] == "bcdef"
  {
    assert OUTPUT[0] == "cdfeb";
    Sorts_cdfeb();
  }

  lemma Shown0()
    ensures Display(WIRING, [5, 3, 5, 3])[0] == "bcdef"
  {
    assert Display(WIRING, [5, 3, 5, 3])[0] == Key(WIRING, 5);
    Key5();
  }

  lemma SortedOutput1()
    ensures SortEach(OUTPUT)[1] == "abcdf"
  {
    assert OUTPUT[1] == "fcadb";
    Sorts_fcadb();
  }

  lemma Shown1()
    ensures Display(WIRING, [5, 3, 5, 3])[1] == "abcdf"
  {
    assert Display(WIRING, [5, 3, 5, 3])[1] == Key(WIRING, 3);
    Key3();
  }

  lemma SortedOutput2()
    ensures SortEach(OUTPUT)[2] == "bcdef"
  {
    assert OUTPUT[2] == "cdfeb";
    Sorts_cdfeb();
  }

  lemma Shown2()
    ensures Display(WIRING, [5, 3, 5, 3])[2] == "bcdef"
  {
    assert Display(WIRING, [5, 3, 5, 3])[2] == Key(WIRING, 5);
    Key5();
  }

  lemma SortedOutput3()
    ensures SortEach(OUTPUT)[3] == "abcdf"
  {
    assert OUTPUT[3] == "cdbaf";
    Sorts_cdbaf();
  }

  lemma Shown3()
    ensures Display(WIRING, [5, 3, 5, 3])[3] == "abcdf"
  {
    assert Display(WIRING, [5, 3, 5, 3])[3] == Key(WIRING, 3);
    Key3();
  }

  /** Sorted, the output patterns are the patterns of 5, 3, 5, 3. */
  lemma SortedOutput()
    ensures SortEach(OUTPUT) == Display(WIRING, [5, 3, 5, 3])
  {
    forall k | 0 <= k < 4
      ensures SortEach(OUTPUT)[k] == Display(WIRING, [5, 3, 5, 3])[k]
    {
      if k == 0 { SortedOutput0(); Shown0(); } else if k == 1 { SortedOutput1(); Shown1(); }
      else if k == 2 { SortedOutput2(); Shown2(); } else { SortedOutput3(); Shown3(); }
    }
  }

  lemma KeyInSignal0()
    ensures Key(WIRING, 0) == SORTED_SIGNAL[8]
  {
    assert SORTED_SIGNAL[8] == "abcdeg";
    Key0();
  }

  lemma KeyInSignal1()
    ensures Key(WIRING, 1) == SORTED_SIGNAL[9]
  {
    assert SORTED_SIGNAL[9] == "ab";
    Key1();
  }

  lemma KeyInSignal2()
    ensures Key(WIRING, 2) == SORTED_SIGNAL[2]
  {
    assert SORTED_SIGNAL[2] == "acdfg";
    Key2();
  }

  lemma KeyInSignal3()
    ensures Key(WIRING, 3) == SORTED_SIGNAL[3]
  {
    assert SORTED_SIGNAL[3] == "abcdf";
    Key3();
  }

  lemma KeyInSignal4()
    ensures Key(WIRING, 4) == SORTED_SIGNAL[7]
  {
    assert SORTED_SIGNAL[7] == "abef";
    Key4();
  }

  lemma KeyInSignal5()
    ensures Key(WIRING, 5) == SORTED_SIGNAL[1]
  {
    assert SORTED_SIGNAL[1] == "bcdef";
    Key5();
  }

  lemma KeyInSignal6()
    ensures Key(WIRING, 6) == SORTED_SIGNAL[6]
  {
    assert SORTED_SIGNAL[6] == "bcdefg";
    Key6();
  }

  lemma KeyInSignal7()
    ensures Key(WIRING, 7) == SORTED_SIGNAL[4]
  {
    assert SORTED_SIGNAL[4] == "abd";
    Key7();
  }

  lemma KeyInSignal8()
    ensures Key(WIRING, 8) == SORTED_SIGNAL[0]
  {
    assert SORTED_SIGNAL[0] == "abcdefg";
    Key8();
  }

  lemma KeyInSignal9()
    ensures Key(WIRING, 9) == SORTED_SIGNAL[5]
  {
    assert SORTED_SIGNAL[5] == "abcdef";
    Key9();
  }

  /** Every digit's pattern is among the sorted signal patterns. */
  lemma KeysInSignal(signal: seq<string>)
    requires signal == SORTED_SIGNAL
    ensures forall d: Digit :: Key(WIRING, d) in signal
  {
    forall d: Digit
      ensures Key(WIRING, d) in signal
    {
      KeyIsSignal(signal, d);
    }
  }

  /** The position of digit `d`'s pattern among the sorted signal patterns. */
  function SignalIndex(d: Digit): (i: nat)
    ensures i < 10
  {
    if d == 0 then 8 else if d == 1 then 9 else if d == 2 then 2 else if d == 3 then 3 else if d == 4 then 7
    else if d == 5 then 1 else if d == 6 then 6 else if d == 7 then 4 else if d == 8 then 0 else 5
  }

  lemma KeyIsSignal(signal: seq<string>, d: Digit)
    requires signal == SORTED_SIGNAL
    ensures Key(WIRING, d) == signal[SignalIndex(d)]
  {
    if d == 0 { KeyInSignal0(); }
    else if d == 1 { KeyInSignal1(); }
    else if d == 2 { KeyInSignal2(); }
    else if d == 3 { KeyInSignal3(); }
    else if d == 4 { KeyInSignal4(); }
    else if d == 5 { KeyInSignal5(); }
    else if d == 6 { KeyInSignal6(); }
    else if d == 7 { KeyInSignal7(); }
    else if d == 8 { KeyInSignal8(); }
    else { KeyInSignal9(); }
  }

  /** The digit whose pattern is the `i`th sorted signal pattern. */
  function SignalDigit(i: nat): Digit
    requires i < 10
  {
    if i == 0 then 8 else if i == 1 then 5 else if i == 2 then 2 else if i == 3 then 3 else if i == 4 then 7
    else if i == 5 then 9 else if i == 6 then 6 else if i == 7 then 4 else if i == 8 then 0 else 1
  }

  lemma SignalIsKey(signal: seq<string>, i: nat)
    requires signal == SORTED_SIGNAL && i < 10
    ensures signal[i] == Key(WIRING, SignalDigit(i))
  {
    if i == 0 { KeyInSignal8(); }
    else if i == 1 { KeyInSignal5(); }
    else if i == 2 { KeyInSignal2(); }
    else if i == 3 { KeyInSignal3(); }
    else if i == 4 { KeyInSignal7(); }
    else if i == 5 { KeyInSignal9(); }
    else if i == 6 { KeyInSignal6(); }
    else if i == 7 { KeyInSignal4(); }
    else if i == 8 { KeyInSignal0(); }
    else { KeyInSignal1(); }
  }

  /** Every sorted signal pattern is the pattern of its digit. */
  lemma SignalIsKeys(signal: seq<string>)
    requires signal == SORTED_SIGNAL
    ensures forall i :: 0 <= i < |signal| ==> signal[i] == Key(WIRING, SignalDigit(i))
  {
    forall i | 0 <= i < |signal|
      ensures signal[i] == Key(WIRING, SignalDigit(i))
    {
      SignalIsKey(signal, i);
    }
  }

  /** The sorted signal patterns are the ten digits' patterns, in the order 8, 5, 2, 3, 7, 9, 6, 4, 0, 1. */
  lemma SignalKeys(signal: seq<string>)
    requires signal == SORTED_SIGNAL
    ensures Scrambled(WIRING, signal)
  {
    WiringIsWiring();
    KeysInSignal(signal);
    SignalIsKeys(signal);
    var ds := seq(|signal|, i requires 0 <= i < |signal| => SignalDigit(i));
    ScrambledIntro(WIRING, signal, ds);
  }

  /** The three parts of `Scrambled`, with `ds` naming the digit of each pattern. */
  lemma ScrambledIntro(p: seq<char>, signal: seq<string>, ds: seq<Digit>)
    requires IsWiring(p)
    requires |ds| == |signal| && forall i :: 0 <= i < |signal| ==> signal[i] == Key(p, ds[i])
    requires forall d: Digit :: Key(p, d) in signal
    ensures Scrambled(p, signal)
  {
    forall i | 0 <= i < |signal|
      ensures IsSomeKey(p, signal[i])
    {
      assert signal[i] == Key(p, ds[i]);
    }
  }

  /** The wiring "deafgbc" uses each wire once, and every wire is a letter. */
  lemma WiringIsWiring()
    ensures IsWiring(WIRING)
  {
    assert WIRING == ['d', 'e', 'a', 'f', 'g', 'b', 'c'];
    forall i, j | 0 <= i < j < 7 ensures WIRING[i] != WIRING[j] {
      assert WIRING == ['d', 'e', 'a', 'f', 'g', 'b', 'c'];
    }
  }

  /** The example signal is a scrambled display. */
  lemma SampleScrambled()
    ensures Scrambled(WIRING, SortEach(SIGNAL))
  {
    SortedSignal();
    SignalKeys(SortEach(SIGNAL));
  }

  /** `test_build_decoder`: the example entry reads 5353. */
  lemma Sample5353()
    ensures |Halves(RenderEntry(SIGNAL, OUTPUT))| >= 2
    ensures Decodable(Patterns(Halves(RenderEntry(SIGNAL, OUTPUT))[0]))
    ensures var e := ParseEntry(RenderEntry(SIGNAL, OUTPUT));
            Readable(e) && GetOutput(e) == 5353
  {
    WordsArePatterns();
    SampleScrambled();
    DecoderIsCorrect(WIRING, SortEach(SIGNAL));
    ParseRender(SIGNAL, OUTPUT);
    SortedOutput();
    ReadsDisplayedNumber(WIRING, ParseEntry(RenderEntry(SIGNAL, OUTPUT)), [5, 3, 5, 3]);
  }
}
