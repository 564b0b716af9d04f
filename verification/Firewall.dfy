/** The firewall status text: printed by the host script, trimmed by the SSH client, parsed
    and de-duplicated by the panel. */
module Firewall {
  import opened Strings
  import opened Wrappers

  datatype Rule = Rule(port: nat, proto: string, action: string, origin: string, comment: string)
  datatype Status = Status(enabled: bool, enabledKnown: bool, rules: seq<Rule>)

  predicate IsProto(s: string) { s == "tcp" || s == "udp" }
  predicate IsAction(s: string) { s == "allow" || s == "deny" }

  // ---- One line ---------------------------------------------------------------------

  predicate AllDigits(s: string) { forall c :: c in s ==> IsDigit(c) }

  /** The pattern of one to five digits, a slash, and tcp or udp. */
  function PortProto(s: string): Option<(nat, string)> {
    match Cut(s, '/')
    case None => None
    case Some(p) =>
      if 1 <= |p.0| <= 5 && AllDigits(p.0) && IsProto(p.1) then Some((DigitsValue(p.0), p.1)) else None
  }

  function MakeRule(portProto: string, action: string, origin: string, comment: string): Option<Rule> {
    match PortProto(portProto)
    case None => None
    case Some(p) =>
      if !IsAction(action) then None
      else Some(Rule(p.0, p.1, action, if origin == "" then "Anywhere" else origin, comment))
  }

  function ParseRuleLine(line: string): Option<Rule> {
    if '\t' in line then
      var parts := SplitN(line, '\t', 4);
      MakeRule(TrimSpace(parts[0]),
               if |parts| > 1 then TrimSpace(parts[1]) else "",
               if |parts| > 2 then TrimSpace(parts[2]) else "",
               if |parts| > 3 then parts[3] else "")
    else
      var fields := Fields(line);
      if |fields| < 2 then None else MakeRule(fields[0], fields[1], "", "")
  }

  function TrimReturns(s: string): string {
    if s != "" && s[|s| - 1] == '\r' then TrimReturns(s[..|s| - 1]) else s
  }

  datatype Line = Blank | Global(enabled: bool) | RuleLine(rule: Rule) | Unknown

  const GLOBAL := "GLOBAL\t"

  function Classify(raw: string): Line {
    var line := TrimReturns(raw);
    if TrimSpace(line) == "" then Blank
    else if HasPrefix(line, GLOBAL) then Global(TrimSpace(line[|GLOBAL|..]) == "enabled")
    else match ParseRuleLine(line)
      case None => Unknown
      case Some(r) => RuleLine(r)
  }

  // ---- The whole text ---------------------------------------------------------------

  /** The de-duplication key of the code, one string per rule. */
  function KeyText(r: Rule): string {
    Itoa(r.port) + ['/'] + (r.proto + ['/'] + (r.action + ['/'] + r.origin))
  }

  predicate SameRule(a: Rule, b: Rule) {
    a.port == b.port && a.proto == b.proto && a.action == b.action && a.origin == b.origin
  }

  function Add(st: Status, line: Line): Status {
    match line
    case Global(enabled) => st.(enabled := enabled, enabledKnown := true)
    case RuleLine(r) =>
      if exists q :: q in st.rules && KeyText(q) == KeyText(r) then st else st.(rules := st.rules + [r])
    case _ => st
  }

  /** Folds the lines of a text, each read by `read`. */
  function StatusBy(read: string -> Line, lines: seq<string>): Status {
    if lines == [] then Status(false, false, [])
    else Add(StatusBy(read, lines[..|lines| - 1]), read(lines[|lines| - 1]))
  }

  function StatusOf(lines: seq<string>): Status { StatusBy(Classify, lines) }

  method ParseStatus(raw: string) returns (st: Status)
    ensures st == StatusOf(Split(raw, '\n'))
  {
    st := Status(false, false, []);
    var seen: set<string> := {};
    var lines := Split(raw, '\n');
    for n := 0 to |lines|
      invariant st == StatusOf(lines[..n])
      invariant forall k :: k in seen <==> exists q :: q in st.rules && KeyText(q) == k
    {
      assert lines[..n + 1][..n] == lines[..n];
      var line := TrimReturns(lines[n]);
      if TrimSpace(line) == "" { continue; }
      if HasPrefix(line, GLOBAL) {
        st := st.(enabled := TrimSpace(line[|GLOBAL|..]) == "enabled", enabledKnown := true);
        continue;
      }
      var r := ParseRuleLine(line);
      if r.None? { continue; }
      var key := KeyText(r.value);
      if key in seen { continue; }
      seen := seen + {key};
      st := st.(rules := st.rules + [r.value]);
    }
    assert lines[..|lines|] == lines;
  }

  // ---- The key ----------------------------------------------------------------------

  predicate ValidRule(r: Rule) {
    && r.port <= 99999 && IsProto(r.proto) && IsAction(r.action)
    && r.origin != "" && NoSpace(r.origin)
    && '\n' !in r.comment
  }

  lemma ItoaNoMark(n: nat, c: char)
    requires !IsDigit(c)
    ensures c !in Itoa(n)
  {
  }

  lemma SameParts(a: string, x: string, b: string, y: string)
    requires '/' !in a && '/' !in b && a + ['/'] + x == b + ['/'] + y
    ensures a == b && x == y
  {
    CutAt(a, '/', x);
    CutAt(b, '/', y);
  }

  /** Equal keys are equal tuples, although an origin may itself contain slashes. */
  lemma KeyInjective(a: Rule, b: Rule)
    requires IsProto(a.proto) && IsProto(b.proto) && IsAction(a.action) && IsAction(b.action)
    ensures KeyText(a) == KeyText(b) <==> SameRule(a, b)
  {
    if KeyText(a) == KeyText(b) {
      ItoaNoMark(a.port, '/');
      ItoaNoMark(b.port, '/');
      SameParts(Itoa(a.port), a.proto + ['/'] + (a.action + ['/'] + a.origin),
                Itoa(b.port), b.proto + ['/'] + (b.action + ['/'] + b.origin));
      SameParts(a.proto, a.action + ['/'] + a.origin, b.proto, b.action + ['/'] + b.origin);
      SameParts(a.action, a.origin, b.action, b.origin);
      ItoaValue(a.port);
      ItoaValue(b.port);
    }
  }

  // ---- The printer ------------------------------------------------------------------

  function PrintRule(r: Rule): string {
    Itoa(r.port) + ['/'] + r.proto + ['\t'] + (r.action + ['\t'] + (r.origin + ['\t'] + r.comment))
  }

  function PrintGlobal(enabled: bool): string { GLOBAL + if enabled then "enabled" else "disabled" }

  function PrintLines(lines: seq<string>): string {
    if lines == [] then "" else lines[0] + ['\n'] + PrintLines(lines[1..])
  }

  function RuleTexts(rules: seq<Rule>): (out: seq<string>)
    ensures |out| == |rules| && forall i :: 0 <= i < |rules| ==> out[i] == PrintRule(rules[i])
  {
    seq(|rules|, i requires 0 <= i < |rules| => PrintRule(rules[i]))
  }

  function PrintStatus(enabled: bool, rules: seq<Rule>): string {
    PrintLines([PrintGlobal(enabled)] + RuleTexts(rules))
  }

  // ---- Lines survive parsing --------------------------------------------------------

  lemma {:induction false} TrimRightConcat(a: string, b: string)
    requires TrimRight(b) != ""
    ensures TrimRight(a + b) == a + TrimRight(b)
  {
    if IsSpace(b[|b| - 1]) {
      TrimRightConcat(a, b[..|b| - 1]);
      assert (a + b)[..|a + b| - 1] == a + b[..|b| - 1];
    }
  }

  lemma PortProtoPrinted(r: Rule)
    requires ValidRule(r)
    ensures PortProto(Itoa(r.port) + ['/'] + r.proto) == Some((r.port, r.proto))
  {
    ItoaNoMark(r.port, '/');
    CutAt(Itoa(r.port), '/', r.proto);
    ItoaValue(r.port);
    ItoaShort(r.port);
  }

  lemma PortProtoPlain(r: Rule)
    requires ValidRule(r)
    ensures NoSpace(Itoa(r.port) + ['/'] + r.proto) && '\t' !in Itoa(r.port) + ['/'] + r.proto
  {
    ItoaNoMark(r.port, '\t');
  }

  lemma ItoaShort(n: nat)
    requires n <= 99999
    ensures |Itoa(n)| <= 5
  {
    var a, b, c, d := n / 10, n / 10 / 10, n / 10 / 10 / 10, n / 10 / 10 / 10 / 10;
    assert |Itoa(d)| == 1 && |Itoa(c)| <= 2 && |Itoa(b)| <= 3 && |Itoa(a)| <= 4;
  }

  lemma SplitHead(a: string, rest: string, n: nat)
    requires '\t' !in a && n > 1
    ensures SplitN(a + ['\t'] + rest, '\t', n) == [a] + SplitN(rest, '\t', n - 1)
  {
    CutAt(a, '\t', rest);
  }

  /** Three or four tab-separated fields, the first three free of tabs. */
  lemma SplitFields(a: string, b: string, c: string, d: string)
    requires '\t' !in a && '\t' !in b && '\t' !in c
    ensures SplitN(a + ['\t'] + (b + ['\t'] + (c + ['\t'] + d)), '\t', 4) == [a, b, c, d]
    ensures SplitN(a + ['\t'] + (b + ['\t'] + c), '\t', 4) == [a, b, c]
  {
    SplitHead(a, b + ['\t'] + (c + ['\t'] + d), 4);
    SplitHead(b, c + ['\t'] + d, 3);
    SplitHead(c, d, 2);
    assert SplitN(d, '\t', 1) == [d];
    SplitHead(a, b + ['\t'] + c, 4);
    SplitHead(b, c, 3);
    assert Cut(c, '\t') == None;
    assert SplitN(c, '\t', 2) == [c];
  }

  /** A printed rule parses to itself; without a comment the last tab may have been trimmed. */
  lemma ParsePrinted(r: Rule)
    requires ValidRule(r)
    ensures ParseRuleLine(PrintRule(r)) == Some(r)
    ensures r.comment == "" ==>
              ParseRuleLine(Itoa(r.port) + ['/'] + r.proto + ['\t'] + (r.action + ['\t'] + r.origin)) == Some(r)
  {
    var pp := Itoa(r.port) + ['/'] + r.proto;
    PortProtoPrinted(r);
    PortProtoPlain(r);
    TrimNoSpace(pp);
    TrimNoSpace(r.action);
    TrimNoSpace(r.origin);
    SplitFields(pp, r.action, r.origin, r.comment);
  }

  /** Everything of a printed rule up to its origin. */
  function Head(r: Rule): string { Itoa(r.port) + ['/'] + r.proto + ['\t'] + (r.action + ['\t'] + r.origin) }

  lemma HeadEnds(r: Rule)
    requires ValidRule(r)
    ensures PrintRule(r) == Head(r) + ['\t'] + r.comment
    ensures Head(r) != "" && IsDigit(Head(r)[0]) && !IsSpace(Head(r)[|Head(r)| - 1]) && '\n' !in Head(r)
  {
    ItoaNoMark(r.port, '\n');
    assert IsDigit(Itoa(r.port)[0]) && Head(r)[0] == Itoa(r.port)[0];
    assert r.origin[|r.origin| - 1] in r.origin;
  }

  /** Trimming a printed rule trims its comment, and the tab before it when nothing is left. */
  lemma TrimmedRule(r: Rule)
    requires ValidRule(r)
    ensures TrimReturns(PrintRule(r)) == PrintRule(r.(comment := TrimReturns(r.comment)))
    ensures TrimRight(PrintRule(r)) == if TrimRight(r.comment) == "" then Head(r)
                                       else PrintRule(r.(comment := TrimRight(r.comment)))
  {
    TrimmedEnds(r.comment);
    HeadEnds(r);
    HeadEnds(r.(comment := TrimReturns(r.comment)));
    HeadEnds(r.(comment := TrimRight(r.comment)));
    TrimReturnsConcat(Head(r) + ['\t'], r.comment);
    if TrimRight(r.comment) == "" {
      TrimRightBlank(Head(r) + ['\t'], r.comment);
      assert (Head(r) + ['\t'])[..|Head(r)|] == Head(r);
    } else {
      TrimRightConcat(Head(r) + ['\t'], r.comment);
    }
  }

  lemma {:induction false} TrimRightBlank(a: string, b: string)
    requires TrimRight(b) == ""
    ensures TrimRight(a + b) == TrimRight(a)
  {
    if b == "" {
      assert a + b == a;
    } else {
      TrimRightBlank(a, b[..|b| - 1]);
      assert (a + b)[..|a + b| - 1] == a + b[..|b| - 1];
    }
  }

  lemma {:induction false} TrimReturnsConcat(a: string, b: string)
    requires a != "" && a[|a| - 1] != '\r'
    ensures TrimReturns(a + b) == a + TrimReturns(b)
  {
    if b == "" {
      assert a + b == a;
    } else if b[|b| - 1] == '\r' {
      TrimReturnsConcat(a, b[..|b| - 1]);
      assert (a + b)[..|a + b| - 1] == a + b[..|b| - 1];
    }
  }

  lemma {:induction false} TrimmedEnds(s: string)
    ensures TrimRight(s) != "" ==> !IsSpace(TrimRight(s)[|TrimRight(s)| - 1])
    ensures TrimRight(s) <= s && TrimReturns(s) <= s
  {
    if s != "" { TrimmedEnds(s[..|s| - 1]); }
  }

  lemma StartsPlain(s: string)
    requires s != "" && !IsSpace(s[0])
    ensures TrimLeft(s) == s && TrimSpace(s) != ""
  {
    TrimRightKeeps(s);
  }

  lemma {:induction false} TrimRightKeeps(s: string)
    requires s != "" && !IsSpace(s[0])
    ensures TrimRight(s) != ""
  {
    if IsSpace(s[|s| - 1]) { TrimRightKeeps(s[..|s| - 1]); }
  }

  lemma ClassifyText(s: string, r: Rule)
    requires TrimReturns(s) != "" && IsDigit(TrimReturns(s)[0]) && ParseRuleLine(TrimReturns(s)) == Some(r)
    ensures Classify(s) == RuleLine(r)
  {
    StartsPlain(TrimReturns(s));
    assert GLOBAL[0] == 'G';
  }

  /** A printed rule is read as itself with the comment trimmed: of carriage returns, and of all
      white space when the end of the line was trimmed before. */
  lemma ClassifyPrinted(r: Rule)
    requires ValidRule(r)
    ensures Classify(PrintRule(r)) == RuleLine(r.(comment := TrimReturns(r.comment)))
    ensures Classify(TrimRight(PrintRule(r))) == RuleLine(r.(comment := TrimRight(r.comment)))
  {
    TrimmedEnds(r.comment);
    TrimmedRule(r);
    var q := r.(comment := TrimReturns(r.comment));
    HeadEnds(q);
    ParsePrinted(q);
    ClassifyText(PrintRule(r), q);
    ClassifyTrimmed(r);
  }

  lemma ClassifyTrimmed(r: Rule)
    requires ValidRule(r)
    ensures Classify(TrimRight(PrintRule(r))) == RuleLine(r.(comment := TrimRight(r.comment)))
    ensures TrimRight(PrintRule(r)) != "" && '\n' !in TrimRight(PrintRule(r))
  {
    TrimmedEnds(r.comment);
    TrimmedRule(r);
    TrimmedReads(r.(comment := TrimRight(r.comment)));
  }

  /** A rule whose comment is trimmed, printed without the tab that an empty comment leaves. */
  lemma TrimmedReads(q: Rule)
    requires ValidRule(q) && (q.comment != "" ==> !IsSpace(q.comment[|q.comment| - 1]))
    ensures var s := if q.comment == "" then Head(q) else PrintRule(q);
            Classify(s) == RuleLine(q) && s != "" && '\n' !in s
  {
    HeadEnds(q);
    ParsePrinted(q);
    if q.comment == "" {
      ClassifyText(Head(q), q);
    } else {
      var s := PrintRule(q);
      assert s[|s| - 1] == q.comment[|q.comment| - 1];
      ClassifyText(s, q);
    }
  }

  lemma ClassifyGlobal(enabled: bool)
    ensures Classify(PrintGlobal(enabled)) == Global(enabled)
    ensures TrimRight(PrintGlobal(enabled)) == PrintGlobal(enabled)
    ensures '\n' !in PrintGlobal(enabled) && PrintGlobal(enabled)[0] == 'G'
  {
    var word := if enabled then "enabled" else "disabled";
    var s := PrintGlobal(enabled);
    assert s[|s| - 1] == 'd';
    assert s[|GLOBAL|..] == word;
    assert GLOBAL[0] == 'G' && s[0] == 'G';
    TrimNoSpace(word);
    StartsPlain(s);
    assert word != "enabled" <==> !enabled by { assert |"enabled"| != |"disabled"|; }
  }

  // ---- The outer trim ---------------------------------------------------------------

  function TrimLast(lines: seq<string>): seq<string>
    requires lines != []
  {
    lines[..|lines| - 1] + [TrimRight(lines[|lines| - 1])]
  }

  /** Trimming the whole text only touches the end of its last line. */
  lemma {:induction false} TrimPrinted(lines: seq<string>)
    requires lines != [] && TrimRight(lines[|lines| - 1]) != ""
    ensures TrimRight(PrintLines(lines)) == Join(TrimLast(lines), '\n')
    ensures TrimRight(PrintLines(lines)) != ""
  {
    if |lines| == 1 {
      var s := lines[0];
      assert PrintLines(lines) == s + ['\n'];
      assert (s + ['\n'])[..|s|] == s;
    } else {
      TrimPrinted(lines[1..]);
      TrimRightConcat(lines[0] + ['\n'], PrintLines(lines[1..]));
      assert TrimLast(lines) == [lines[0]] + TrimLast(lines[1..]);
    }
  }

  // ---- Round trip -------------------------------------------------------------------

  predicate Has(rules: seq<Rule>, r: Rule) { exists q :: q in rules && SameRule(q, r) }

  /** The rules kept: the first of each (port, proto, action, origin), in order. */
  function FirstOccurrences(rules: seq<Rule>): seq<Rule> {
    if rules == [] then []
    else
      var init, r := FirstOccurrences(rules[..|rules| - 1]), rules[|rules| - 1];
      if Has(init, r) then init else init + [r]
  }

  lemma {:induction false} FirstOccurrencesFrom(rules: seq<Rule>)
    ensures forall q :: q in FirstOccurrences(rules) ==> q in rules
  {
    if rules != [] {
      FirstOccurrencesFrom(rules[..|rules| - 1]);
      assert rules == rules[..|rules| - 1] + [rules[|rules| - 1]];
    }
  }

  lemma AddRule(st: Status, r: Rule)
    requires ValidRule(r) && forall q :: q in st.rules ==> ValidRule(q)
    ensures Add(st, RuleLine(r)).rules ==
            if Has(st.rules, r) then st.rules else st.rules + [r]
    ensures Add(st, RuleLine(r)) == st.(rules := Add(st, RuleLine(r)).rules)
  {
    forall q | q in st.rules ensures KeyText(q) == KeyText(r) <==> SameRule(q, r) { KeyInjective(q, r); }
  }

  ghost predicate ReadsAs(read: string -> Line, lines: seq<string>, enabled: bool, rules: seq<Rule>) {
    && |lines| == |rules| + 1 && read(lines[0]) == Global(enabled)
    && forall i :: 0 <= i < |rules| ==> read(lines[i + 1]) == RuleLine(rules[i])
  }

  lemma {:induction false} StatusOfRules(read: string -> Line, lines: seq<string>, enabled: bool, rules: seq<Rule>)
    requires ReadsAs(read, lines, enabled, rules) && forall r :: r in rules ==> ValidRule(r)
    ensures StatusBy(read, lines) == Status(enabled, true, FirstOccurrences(rules))
  {
    var n := |lines| - 1;
    if rules == [] {
      assert lines[..0] == [];
    } else {
      var init, r := rules[..|rules| - 1], rules[|rules| - 1];
      assert rules == init + [r] && r in rules;
      assert forall q :: q in init ==> q in rules;
      assert read(lines[(n - 1) + 1]) == RuleLine(rules[n - 1]) == RuleLine(r);
      assert ReadsAs(read, lines[..n], enabled, init);
      StatusOfRules(read, lines[..n], enabled, init);
      FirstOccurrencesFrom(init);
      AddRule(Status(enabled, true, FirstOccurrences(init)), r);
    }
  }

  /** The line reads as `line`, and as `last` without the white space at its end. */
  ghost predicate Survives(read: string -> Line, raw: string, line: Line, last: Line) {
    && read(raw) == line && read(TrimRight(raw)) == last && TrimRight(raw) != ""
    && '\n' !in raw && '\n' !in TrimRight(raw)
  }

  /** What trimming leaves of the comments: the trim of the whole text reaches the last one. */
  function Received(rules: seq<Rule>): (out: seq<Rule>)
    ensures |out| == |rules|
    ensures forall i :: 0 <= i < |rules| ==>
              out[i] == rules[i].(comment := if i < |rules| - 1 then TrimReturns(rules[i].comment)
                                             else TrimRight(rules[i].comment))
  {
    seq(|rules|, i requires 0 <= i < |rules| =>
      rules[i].(comment := if i < |rules| - 1 then TrimReturns(rules[i].comment) else TrimRight(rules[i].comment)))
  }

  ghost predicate AllSurvive(read: string -> Line, lines: seq<string>, enabled: bool, rules: seq<Rule>) {
    && |lines| == |rules| + 1 && Survives(read, lines[0], Global(enabled), Global(enabled))
    && forall i :: 0 <= i < |rules| ==> SurvivesAsRule(read, lines[i + 1], rules[i])
  }

  ghost predicate SurvivesAsRule(read: string -> Line, raw: string, r: Rule) {
    Survives(read, raw, RuleLine(r.(comment := TrimReturns(r.comment))), RuleLine(r.(comment := TrimRight(r.comment))))
  }

  lemma TrimLastReads(read: string -> Line, lines: seq<string>, enabled: bool, rules: seq<Rule>)
    requires AllSurvive(read, lines, enabled, rules)
    ensures TrimRight(lines[|lines| - 1]) != "" && ReadsAs(read, TrimLast(lines), enabled, Received(rules))
    ensures forall l :: l in TrimLast(lines) ==> '\n' !in l
  {
    var n := |lines| - 1;
    var out := TrimLast(lines);
    assert n > 0 ==> SurvivesAsRule(read, lines[(n - 1) + 1], rules[n - 1]);
    forall i | 0 <= i < |rules| ensures read(out[i + 1]) == RuleLine(Received(rules)[i]) {
      assert SurvivesAsRule(read, lines[i + 1], rules[i]);
    }
    forall i | 0 <= i < |out| ensures '\n' !in out[i] {
      if i > 0 { assert SurvivesAsRule(read, lines[(i - 1) + 1], rules[i - 1]); }
    }
  }

  lemma ReceivedValid(rules: seq<Rule>)
    requires forall r :: r in rules ==> ValidRule(r)
    ensures forall r :: r in Received(rules) ==> ValidRule(r)
  {
    forall i | 0 <= i < |rules| ensures ValidRule(Received(rules)[i]) {
      assert rules[i] in rules;
      TrimmedEnds(rules[i].comment);
    }
  }

  lemma TextRoundTrip(read: string -> Line, lines: seq<string>, enabled: bool, rules: seq<Rule>)
    requires AllSurvive(read, lines, enabled, rules) && lines[0] != "" && !IsSpace(lines[0][0])
    requires forall r :: r in rules ==> ValidRule(r)
    ensures StatusBy(read, Split(TrimSpace(PrintLines(lines)), '\n'))
            == Status(enabled, true, FirstOccurrences(Received(rules)))
  {
    TrimLastReads(read, lines, enabled, rules);
    assert PrintLines(lines)[0] == lines[0][0];
    StartsPlain(PrintLines(lines));
    TrimPrinted(lines);
    SplitJoin(TrimLast(lines), '\n');
    ReceivedValid(rules);
    StatusOfRules(read, TrimLast(lines), enabled, Received(rules));
  }

  lemma RuleSurvives(r: Rule)
    requires ValidRule(r)
    ensures SurvivesAsRule(Classify, PrintRule(r), r)
  {
    ClassifyPrinted(r);
    ClassifyTrimmed(r);
    HeadEnds(r);
  }

  lemma PrintedSurvive(enabled: bool, rules: seq<Rule>)
    requires forall r :: r in rules ==> ValidRule(r)
    ensures AllSurvive(Classify, [PrintGlobal(enabled)] + RuleTexts(rules), enabled, rules)
  {
    GlobalSurvives(enabled);
    forall i | 0 <= i < |rules| ensures SurvivesAsRule(Classify, RuleTexts(rules)[i], rules[i]) {
      assert rules[i] in rules;
      RuleSurvives(rules[i]);
    }
    Headed(Classify, PrintGlobal(enabled), RuleTexts(rules), enabled, rules);
  }

  lemma Headed(read: string -> Line, head: string, texts: seq<string>, enabled: bool, rules: seq<Rule>)
    requires Survives(read, head, Global(enabled), Global(enabled)) && |texts| == |rules|
    requires forall i :: 0 <= i < |rules| ==> SurvivesAsRule(read, texts[i], rules[i])
    ensures AllSurvive(read, [head] + texts, enabled, rules)
  {
    forall i | 0 <= i < |rules| ensures SurvivesAsRule(read, ([head] + texts)[i + 1], rules[i]) {
      assert ([head] + texts)[i + 1] == texts[i];
    }
  }

  lemma GlobalSurvives(enabled: bool)
    ensures Survives(Classify, PrintGlobal(enabled), Global(enabled), Global(enabled))
  {
    ClassifyGlobal(enabled);
  }

  /** What the panel shows is what the host script printed: the enabled flag and the rules, the
      first of each (port, proto, action, origin) kept, in order. Only white space at the end of
      a comment can be lost. */
  lemma StatusRoundTrip(enabled: bool, rules: seq<Rule>)
    requires forall r :: r in rules ==> ValidRule(r)
    ensures StatusOf(Split(TrimSpace(PrintStatus(enabled, rules)), '\n'))
            == Status(enabled, true, FirstOccurrences(Received(rules)))
  {
    PrintedSurvive(enabled, rules);
    ClassifyGlobal(enabled);
    TextRoundTrip(Classify, [PrintGlobal(enabled)] + RuleTexts(rules), enabled, rules);
  }

  predicate EndsInReturn(s: string) { s != "" && s[|s| - 1] == '\r' }
  predicate EndsInSpace(s: string) { s != "" && IsSpace(s[|s| - 1]) }

  lemma TrimsNothing(s: string)
    ensures TrimReturns(s) == s <==> !EndsInReturn(s)
    ensures TrimRight(s) == s <==> !EndsInSpace(s)
  {
    if s != "" { TrimmedEnds(s[..|s| - 1]); }
  }

  /** No earlier rule has the same port, protocol, action and origin. */
  predicate IsFirst(rules: seq<Rule>, i: int)
    requires 0 <= i < |rules|
  {
    !Has(rules[..i], rules[i])
  }

  lemma HasAppend(rules: seq<Rule>, last: Rule, r: Rule)
    ensures Has(rules + [last], r) <==> Has(rules, r) || SameRule(last, r)
  {
    if SameRule(last, r) { assert last in rules + [last]; }
    if q :| q in rules && SameRule(q, r) { assert q in rules + [last]; }
  }

  lemma {:induction false} KeptHas(rules: seq<Rule>, r: Rule)
    ensures Has(FirstOccurrences(rules), r) <==> Has(rules, r)
  {
    if rules != [] {
      var init, last := rules[..|rules| - 1], rules[|rules| - 1];
      KeptHas(init, r);
      HasAppend(init, last, r);
      HasAppend(FirstOccurrences(init), last, r);
      assert rules == init + [last];
      if Has(FirstOccurrences(init), last) && SameRule(last, r) {
        var q :| q in FirstOccurrences(init) && SameRule(q, last);
        assert SameRule(q, r);
      }
    }
  }

  lemma FirstGrows(rules: seq<Rule>)
    requires rules != []
    ensures FirstOccurrences(rules) == FirstOccurrences(rules[..|rules| - 1])
            + if IsFirst(rules, |rules| - 1) then [rules[|rules| - 1]] else []
  {
    KeptHas(rules[..|rules| - 1], rules[|rules| - 1]);
  }

  ghost predicate SameKeys(xs: seq<Rule>, ys: seq<Rule>) {
    |xs| == |ys| && forall i :: 0 <= i < |xs| ==> SameRule(xs[i], ys[i])
  }

  lemma SameHas(xs: seq<Rule>, ys: seq<Rule>, a: Rule, b: Rule)
    requires SameKeys(xs, ys) && SameRule(a, b)
    ensures Has(xs, a) <==> Has(ys, b)
  {
    if q :| q in xs && SameRule(q, a) {
      var i :| 0 <= i < |xs| && xs[i] == q;
      assert ys[i] in ys && SameRule(ys[i], b);
    }
    if q :| q in ys && SameRule(q, b) {
      var i :| 0 <= i < |ys| && ys[i] == q;
      assert xs[i] in xs && SameRule(xs[i], a);
    }
  }

  ghost predicate AgreeOnFirsts(xs: seq<Rule>, ys: seq<Rule>)
    requires |xs| == |ys|
  {
    forall i :: 0 <= i < |ys| && IsFirst(ys, i) ==> xs[i] == ys[i]
  }

  lemma AgreeMore(xs: seq<Rule>, ys: seq<Rule>)
    requires |xs| == |ys| && xs != []
    ensures var n := |xs| - 1;
            AgreeOnFirsts(xs, ys) <==> AgreeOnFirsts(xs[..n], ys[..n]) && (IsFirst(ys, n) ==> xs[n] == ys[n])
  {
    var n := |xs| - 1;
    forall i | 0 <= i < n ensures IsFirst(ys[..n], i) <==> IsFirst(ys, i) {
      assert ys[..n][..i] == ys[..i];
    }
  }

  /** Lists with the same keys keep equal rules exactly when they agree on the first of each key. */
  lemma {:induction false} SameFirsts(xs: seq<Rule>, ys: seq<Rule>)
    requires SameKeys(xs, ys)
    ensures |FirstOccurrences(xs)| == |FirstOccurrences(ys)|
    ensures FirstOccurrences(xs) == FirstOccurrences(ys) <==> AgreeOnFirsts(xs, ys)
  {
    if xs != [] {
      var n := |xs| - 1;
      SameFirsts(xs[..n], ys[..n]);
      FirstGrows(xs);
      FirstGrows(ys);
      SameHas(xs[..n], ys[..n], xs[n], ys[n]);
      AgreeMore(xs, ys);
      if IsFirst(ys, n) {
        EqualSnoc(FirstOccurrences(xs[..n]), FirstOccurrences(ys[..n]), xs[n], ys[n]);
      }
    }
  }

  lemma EqualSnoc<T>(xs: seq<T>, ys: seq<T>, x: T, y: T)
    requires |xs| == |ys|
    ensures xs + [x] == ys + [y] <==> xs == ys && x == y
  {
    assert (xs + [x])[..|xs|] == xs && (ys + [y])[..|ys|] == ys;
    assert (xs + [x])[|xs|] == x && (ys + [y])[|ys|] == y;
  }

  /** The white space that trimming takes from the i-th comment. */
  predicate Frays(rules: seq<Rule>, i: int)
    requires 0 <= i < |rules|
  {
    if i < |rules| - 1 then EndsInReturn(rules[i].comment) else EndsInSpace(rules[i].comment)
  }

  /** The panel shows exactly the printed rules, the first of each key, if and only if none of
      these ends its comment in a carriage return, or in any white space on the last line. */
  lemma RoundTripExactly(enabled: bool, rules: seq<Rule>)
    requires forall r :: r in rules ==> ValidRule(r)
    ensures StatusOf(Split(TrimSpace(PrintStatus(enabled, rules)), '\n'))
            == Status(enabled, true, FirstOccurrences(rules))
            <==> forall i :: 0 <= i < |rules| && IsFirst(rules, i) ==> !Frays(rules, i)
  {
    StatusRoundTrip(enabled, rules);
    SameFirsts(Received(rules), rules);
    ReceivedAgrees(rules);
  }

  lemma ReceivedAgrees(rules: seq<Rule>)
    ensures AgreeOnFirsts(Received(rules), rules)
            <==> forall i :: 0 <= i < |rules| && IsFirst(rules, i) ==> !Frays(rules, i)
  {
    forall i | 0 <= i < |rules| ensures Received(rules)[i] == rules[i] <==> !Frays(rules, i) {
      TrimsNothing(rules[i].comment);
    }
  }

  /** A firewalld rule whose comment ends in a blank is shown without the blank. */
  lemma CommentFrays(r: Rule)
    requires r == Rule(22, "tcp", "allow", "Anywhere", "x ")
    ensures ValidRule(r)
    ensures StatusOf(Split(TrimSpace(PrintStatus(true, [r])), '\n')) == Status(true, true, [r.(comment := "x")])
  {
    assert NoSpace(r.origin);
    StatusRoundTrip(true, [r]);
    var c := r.comment;
    assert c[..1] == "x" && IsSpace(c[1]) && TrimRight("x") == "x";
    assert TrimRight(c) == "x";
    assert Received([r]) == [r.(comment := "x")];
    FirstGrows(Received([r]));
    assert Received([r])[..0] == [];
  }

  // ---- Lines the current script does not print ------------------------------------------

  /** The format of older scripts, port and action without tabs, still reads as a rule for everyone. */
  lemma OlderFormat(port: nat, proto: string, action: string)
    requires port <= 99999 && IsProto(proto) && IsAction(action)
    ensures ParseRuleLine(Itoa(port) + ['/'] + proto + [' '] + action)
            == Some(Rule(port, proto, action, "Anywhere", ""))
  {
    PrintedPort(port, proto, action);
    TwoWords(Itoa(port) + ['/'] + proto, action);
  }

  lemma TwoWords(a: string, b: string)
    requires a != "" && b != "" && NoSpace(a) && NoSpace(b)
    ensures Fields(a + [' '] + b) == [a, b] && '\t' !in a + [' '] + b
  {
    FieldsJoin([a, b]);
    assert [a, b][1..] == [b];
    assert Join([a, b], ' ') == a + [' '] + b;
  }

  /** Without an origin, a rule with tabs is for everyone as well. */
  lemma NoOrigin(port: nat, proto: string, action: string)
    requires port <= 99999 && IsProto(proto) && IsAction(action)
    ensures ParseRuleLine(Itoa(port) + ['/'] + proto + ['\t'] + action)
            == Some(Rule(port, proto, action, "Anywhere", ""))
  {
    PrintedPort(port, proto, action);
    TabbedRule(Itoa(port) + ['/'] + proto, action);
  }

  lemma PrintedPort(port: nat, proto: string, action: string)
    requires port <= 99999 && IsProto(proto) && IsAction(action)
    ensures var pp := Itoa(port) + ['/'] + proto;
            PortProto(pp) == Some((port, proto)) && pp != "" && NoSpace(pp) && '\t' !in pp
  {
    var r := Rule(port, proto, action, "Anywhere", "");
    assert NoSpace("Anywhere");
    PortProtoPrinted(r);
    PortProtoPlain(r);
  }

  lemma TabbedRule(pp: string, action: string)
    requires NoSpace(pp) && '\t' !in pp && IsAction(action)
    ensures ParseRuleLine(pp + ['\t'] + action) == MakeRule(pp, action, "", "")
  {
    TrimNoSpace(pp);
    TrimNoSpace(action);
    TwoFields(pp, action);
  }

  lemma TwoFields(a: string, b: string)
    requires '\t' !in a && '\t' !in b
    ensures SplitN(a + ['\t'] + b, '\t', 4) == [a, b]
  {
    SplitHead(a, b, 4);
    assert Cut(b, '\t') == None;
    assert SplitN(b, '\t', 3) == [b];
  }

  /** A rule is made exactly of a port and protocol of the pattern and one of the two actions. */
  lemma MakeRuleExactly(portProto: string, action: string, origin: string, comment: string, r: Rule)
    ensures MakeRule(portProto, action, origin, comment) == Some(r)
            <==> && PortProto(portProto) == Some((r.port, r.proto)) && r.action == action
                 && action in {"allow", "deny"} && r.comment == comment
                 && r.origin == if origin == "" then "Anywhere" else origin
  {
  }

  /** Text that may stand around a field: white space, but neither tab nor line end. */
  predicate IsPadding(s: string) { OnlySpace(s) && '\t' !in s }

  predicate IsWord(s: string) { s != "" && NoSpace(s) }

  lemma PaddedField(before: string, t: string, after: string)
    requires IsPadding(before) && IsPadding(after) && IsWord(t)
    ensures TrimSpace(before + t + after) == t && '\t' !in before + t + after
  {
    assert t[0] in t && t[|t| - 1] in t;
    TrimSpaced(before, t, after);
  }

  /** White space around the first three fields does not matter; the comment is taken as it is. */
  lemma PaddedRule(a: string, portProto: string, b: string, c: string, action: string, d: string,
                   e: string, origin: string, f: string, comment: string)
    requires IsPadding(a) && IsPadding(b) && IsPadding(c) && IsPadding(d) && IsPadding(e) && IsPadding(f)
    requires IsWord(portProto) && IsWord(action) && IsWord(origin)
    ensures ParseRuleLine((a + portProto + b) + ['\t']
                          + ((c + action + d) + ['\t'] + ((e + origin + f) + ['\t'] + comment)))
            == MakeRule(portProto, action, origin, comment)
  {
    PaddedField(a, portProto, b);
    PaddedField(c, action, d);
    PaddedField(e, origin, f);
    SplitFields(a + portProto + b, c + action + d, e + origin + f, comment);
  }

  /** The flag is read off the one word after GLOBAL, with any white space around it. */
  lemma {:induction false} PaddedGlobal(a: string, word: string, b: string)
    requires OnlySpace(a) && OnlySpace(b) && IsWord(word)
    ensures Classify(GLOBAL + (a + word + b)) == Global(word == "enabled")
  {
    assert word[0] in word && word[|word| - 1] in word;
    assert word[|word| - 1] != '\r';
    TrimReturnsConcat(GLOBAL + a + word, b);
    var kept := TrimReturns(b);
    TrimmedEnds(b);
    assert GLOBAL + (a + word + b) == GLOBAL + a + word + b;
    var line := GLOBAL + a + word + kept;
    assert line[|GLOBAL|..] == a + word + kept;
    forall x | x in kept ensures IsSpace(x) { assert x in b; }
    TrimSpaced(a, word, kept);
    StartsPlain(line);
  }

  /** The last GLOBAL line. */
  ghost predicate LastGlobal(read: string -> Line, lines: seq<string>, i: int) {
    0 <= i < |lines| && read(lines[i]).Global? && forall j :: i < j < |lines| ==> !read(lines[j]).Global?
  }

  lemma LastGlobalMore(read: string -> Line, lines: seq<string>, i: int)
    requires lines != []
    ensures LastGlobal(read, lines, i)
            <==> if read(lines[|lines| - 1]).Global? then i == |lines| - 1
                 else LastGlobal(read, lines[..|lines| - 1], i)
  {
    var init := lines[..|lines| - 1];
    assert forall j :: 0 <= j < |init| ==> init[j] == lines[j];
  }

  lemma {:induction false} FlagBy(read: string -> Line, lines: seq<string>)
    ensures StatusBy(read, lines).enabledKnown <==> exists i :: LastGlobal(read, lines, i)
    ensures forall i :: LastGlobal(read, lines, i) ==> StatusBy(read, lines).enabled == read(lines[i]).enabled
    ensures !StatusBy(read, lines).enabledKnown ==> !StatusBy(read, lines).enabled
  {
    if lines != [] {
      var n := |lines| - 1;
      FlagBy(read, lines[..n]);
      AddKeepsFlag(StatusBy(read, lines[..n]), read(lines[n]));
      forall i
        ensures LastGlobal(read, lines, i)
                <==> if read(lines[n]).Global? then i == n else LastGlobal(read, lines[..n], i)
      {
        LastGlobalMore(read, lines, i);
      }
      if read(lines[n]).Global? {
        assert LastGlobal(read, lines, n);
      } else if i :| LastGlobal(read, lines[..n], i) {
        assert LastGlobal(read, lines, i);
      }
    }
  }

  /** What the flag says: whether a GLOBAL line came at all, and if so what the last one says. */
  lemma FlagExactly(lines: seq<string>)
    ensures StatusOf(lines).enabledKnown <==> exists i :: LastGlobal(Classify, lines, i)
    ensures forall i :: LastGlobal(Classify, lines, i) ==> StatusOf(lines).enabled == Classify(lines[i]).enabled
    ensures !StatusOf(lines).enabledKnown ==> !StatusOf(lines).enabled
  {
    FlagBy(Classify, lines);
  }

  lemma AddKeepsFlag(st: Status, line: Line)
    ensures line.Global? ==> Add(st, line) == st.(enabled := line.enabled, enabledKnown := true)
    ensures !line.Global? ==> Add(st, line).enabled == st.enabled && Add(st, line).enabledKnown == st.enabledKnown
  {
  }

  /** Lines that are blank, GLOBAL or unreadable add no rule; any other adds its rule once. */
  lemma RulesExactly(lines: seq<string>, line: string)
    ensures StatusOf(lines + [line]).rules ==
            match Classify(line)
            case RuleLine(r) =>
              if exists q :: q in StatusOf(lines).rules && KeyText(q) == KeyText(r) then StatusOf(lines).rules
              else StatusOf(lines).rules + [r]
            case _ => StatusOf(lines).rules
  {
    assert (lines + [line])[..|lines|] == lines;
  }
}
