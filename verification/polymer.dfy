/** Day 14, extended polymerization: the parser for a polymer template and its pair
    insertion rules "AB -> C". Malformed input makes the source panic, so well-formed
    input is a precondition here. */
module Polymer {
  import opened Text

  /** The template and the insertion rules, keyed by the two-character pair. */
  datatype Polymer = Polymer(template: string, rules: map<string, char>)

  const ARROW: string := "->"
  const RULE_SEP: string := " -> "

  /** A line the first pass keeps: not empty and without "->". */
  predicate IsTemplateLine(l: string) {
    |l| > 0 && !Contains(l, ARROW)
  }

  /** A line the second pass keeps: not empty and with "->". */
  predicate IsRuleLine(l: string) {
    |l| > 0 && Contains(l, ARROW)
  }

  function TemplateLines(lines: seq<string>): (ts: seq<string>)
    ensures forall k :: 0 <= k < |ts| ==> IsTemplateLine(ts[k])
  {
    if |lines| == 0 then []
    else TemplateLines(lines[..|lines| - 1]) + (if IsTemplateLine(lines[|lines| - 1]) then [lines[|lines| - 1]] else [])
  }

  function RuleLines(lines: seq<string>): (rs: seq<string>)
    ensures forall k :: 0 <= k < |rs| ==> IsRuleLine(rs[k])
  {
    if |lines| == 0 then []
    else RuleLines(lines[..|lines| - 1]) + (if IsRuleLine(lines[|lines| - 1]) then [lines[|lines| - 1]] else [])
  }

  /** Both passes distribute over a concatenation of lines. */
  lemma {:induction false} FilterAppend(a: seq<string>, b: seq<string>)
    ensures TemplateLines(a + b) == TemplateLines(a) + TemplateLines(b)
    ensures RuleLines(a + b) == RuleLines(a) + RuleLines(b)
    decreases |b|
  {
    if |b| > 0 {
      var front := b[..|b| - 1];
      assert (a + b)[..|a + b| - 1] == a + front;
      FilterAppend(a, front);
    } else {
      assert a + b == a;
    }
  }

  /** The asserts of a rule line: " -> " splits it into a pair of two characters and a
      single inserted character. */
  predicate WellFormedRule(l: string) {
    var parts := Split(l, RULE_SEP);
    |parts| == 2 && |parts[0]| == 2 && |parts[1]| == 1
  }

  function RuleOf(l: string): (r: (string, char))
    requires WellFormedRule(l)
    ensures |r.0| == 2 && r.0 + RULE_SEP + [r.1] == l
  {
    var parts := Split(l, RULE_SEP);
    assert Join(parts, RULE_SEP) == parts[0] + RULE_SEP + parts[1] by {
      assert Join(parts[1..], RULE_SEP) == parts[1];
    }
    assert parts[1] == [parts[1][0]];
    (parts[0], parts[1][0])
  }

  /** The rules of well-formed rule lines, in line order. */
  function RulesOf(rls: seq<string>): (rs: seq<(string, char)>)
    requires forall k :: 0 <= k < |rls| ==> WellFormedRule(rls[k])
    ensures |rs| == |rls| && forall k :: 0 <= k < |rls| ==> rs[k] == RuleOf(rls[k])
  {
    seq(|rls|, k requires 0 <= k < |rls| => RuleOf(rls[k]))
  }

  /** No pair is given two rules (the `insert(..).is_none()` assert). */
  predicate UniquePairs(rs: seq<(string, char)>) {
    forall i, j :: 0 <= i < j < |rs| ==> rs[i].0 != rs[j].0
  }

  /** The rules inserted one after another. */
  function InsertRules(rs: seq<(string, char)>): map<string, char> {
    if |rs| == 0 then map[]
    else InsertRules(rs[..|rs| - 1])[rs[|rs| - 1].0 := rs[|rs| - 1].1]
  }

  /** With no pair given twice, the map holds one entry per rule, each with its rule's
      character. */
  lemma {:induction false} InsertRulesSpec(rs: seq<(string, char)>)
    requires UniquePairs(rs)
    ensures |InsertRules(rs)| == |rs|
    ensures InsertRules(rs).Keys == Pairs(rs)
    ensures forall k :: 0 <= k < |rs| ==> InsertRules(rs)[rs[k].0] == rs[k].1
  {
    if |rs| > 0 {
      var front := rs[..|rs| - 1];
      var (pair, c) := rs[|rs| - 1];
      assert UniquePairs(front);
      InsertRulesSpec(front);
      assert rs == front + [(pair, c)];
      assert pair !in Pairs(front);
      var m := InsertRules(front);
      assert InsertRules(rs) == m[pair := c];
      assert forall k :: 0 <= k < |front| ==> rs[k] == front[k];
    }
  }

  /** The pairs the rules are for. */
  function Pairs(rs: seq<(string, char)>): set<string> {
    set r | r in rs :: r.0
  }

  /** What `Polymer::from_str` asserts of its lines. */
  predicate Readable(lines: seq<string>) {
    var rls := RuleLines(lines);
    && |TemplateLines(lines)| == 1
    && (forall k :: 0 <= k < |rls| ==> WellFormedRule(rls[k]))
    && UniquePairs(RulesOf(rls))
  }

  /** The polymer of well-formed lines: the one template line, and one rule per rule line. */
  function FromLines(lines: seq<string>): (p: Polymer)
    requires Readable(lines)
    ensures p.template in lines && IsTemplateLine(p.template)
    ensures |p.rules| == |RuleLines(lines)|
    ensures p.rules.Keys == Pairs(RulesOf(RuleLines(lines)))
    ensures forall k :: 0 <= k < |RuleLines(lines)| ==> p.rules[RuleOf(RuleLines(lines)[k]).0] == RuleOf(RuleLines(lines)[k]).1
  {
    TemplateIsALine(lines);
    InsertRulesSpec(RulesOf(RuleLines(lines)));
    Polymer(TemplateLines(lines)[0], InsertRules(RulesOf(RuleLines(lines))))
  }

  lemma {:induction false} TemplateIsALine(lines: seq<string>)
    ensures forall t :: t in TemplateLines(lines) ==> t in lines
  {
    if |lines| > 0 {
      TemplateIsALine(lines[..|lines| - 1]);
    }
  }

  /** `Polymer::from_str`. */
  function Parse(s: string): Polymer
    requires Readable(Lines(s))
  {
    FromLines(Lines(s))
  }

  // ----- writing a polymer back out --------------------------------------------------

  /** A rule as the puzzle writes it. */
  function ShowRule(pair: string, c: char): string {
    pair + RULE_SEP + [c]
  }

  function ShowRules(rs: seq<(string, char)>): (ls: seq<string>)
    ensures |ls| == |rs| && forall k :: 0 <= k < |rs| ==> ls[k] == ShowRule(rs[k].0, rs[k].1)
  {
    seq(|rs|, k requires 0 <= k < |rs| => ShowRule(rs[k].0, rs[k].1))
  }

  /** A rule the puzzle can write: a pair of two non-blank characters and a non-blank
      inserted one. */
  predicate Writable(r: (string, char)) {
    |r.0| == 2 && ' ' !in r.0 && r.1 != ' '
  }

  lemma ShowRuleReads(pair: string, c: char)
    requires Writable((pair, c))
    ensures IsRuleLine(ShowRule(pair, c)) && WellFormedRule(ShowRule(pair, c))
    ensures RuleOf(ShowRule(pair, c)) == (pair, c)
  {
    var l := ShowRule(pair, c);
    SplitAround(pair, [c], RULE_SEP);
    assert MatchAt(l, ARROW, 3);
    if FindFrom(l, ARROW, 0).None? {
      assert false;
    }
  }

  /** Reading back the template, a blank line and the rules gives the template and a map
      holding exactly the rules. */
  lemma ReadBack(template: string, rs: seq<(string, char)>)
    requires IsTemplateLine(template)
    requires forall k :: 0 <= k < |rs| ==> Writable(rs[k])
    requires forall i, j :: 0 <= i < j < |rs| ==> rs[i].0 != rs[j].0
    ensures var lines := [template, ""] + ShowRules(rs);
            && Readable(lines)
            && FromLines(lines).template == template
            && FromLines(lines).rules.Keys == Pairs(rs)
            && (forall k :: 0 <= k < |rs| ==> FromLines(lines).rules[rs[k].0] == rs[k].1)
  {
    var shown := ShowRules(rs);
    var lines := [template, ""] + shown;
    forall k | 0 <= k < |rs| ensures IsRuleLine(shown[k]) && WellFormedRule(shown[k]) && RuleOf(shown[k]) == rs[k] {
      ShowRuleReads(rs[k].0, rs[k].1);
    }
    AllRules(shown);
    assert RulesOf(shown) == rs;
    FilterAppend([template, ""], shown);
    assert TemplateLines([template, ""]) == [template] by {
      assert [template, ""][..1] == [template];
      assert TemplateLines([template]) == TemplateLines([]) + [template];
    }
    assert RuleLines([template, ""]) == [] by {
      assert [template, ""][..1] == [template];
      assert RuleLines([template]) == [];
    }
    assert RuleLines(lines) == shown;
    assert TemplateLines(lines) == [template];
    InsertRulesSpec(rs);
  }

  /** Rule lines are all kept by the second pass and none by the first. */
  lemma {:induction false} AllRules(ls: seq<string>)
    requires forall k :: 0 <= k < |ls| ==> IsRuleLine(ls[k])
    ensures RuleLines(ls) == ls && TemplateLines(ls) == []
  {
    if |ls| > 0 {
      AllRules(ls[..|ls| - 1]);
      assert ls == ls[..|ls| - 1] + [ls[|ls| - 1]];
    }
  }
}
