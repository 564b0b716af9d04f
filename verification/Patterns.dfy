/** The two regular expressions of the modelled code, as data with their usual meaning, and the
    proof that the predicates used elsewhere accept exactly their languages. */
module Patterns {
  import opened Strings
  import opened Wrappers
  import opened EdgeCoherence
  import Firewall

  datatype Pattern =
    | Class(ranges: seq<(char, char)>)
    | Text(text: string)
    | Then(first: Pattern, second: Pattern)
    | Either(left: Pattern, right: Pattern)
    | Repeat(body: Pattern, min: nat, max: Option<nat>)

  predicate InClass(ranges: seq<(char, char)>, c: char) {
    exists i :: 0 <= i < |ranges| && ranges[i].0 <= c <= ranges[i].1
  }

  function Concat(parts: seq<string>): string {
    if parts == [] then "" else parts[0] + Concat(parts[1..])
  }

  /** The whole text is in the pattern's language, as between ^ and $. */
  ghost predicate Matches(p: Pattern, s: string)
    decreases p
  {
    match p
    case Class(ranges) => |s| == 1 && InClass(ranges, s[0])
    case Text(text) => s == text
    case Then(first, second) => exists k :: 0 <= k <= |s| && Matches(first, s[..k]) && Matches(second, s[k..])
    case Either(left, right) => Matches(left, s) || Matches(right, s)
    case Repeat(body, min, max) =>
      exists parts: seq<string> ::
        Concat(parts) == s && min <= |parts| && (max.Some? ==> |parts| <= max.value)
        && forall i :: 0 <= i < |parts| ==> Matches(body, parts[i])
  }

  function Maybe(p: Pattern): Pattern { Either(Text(""), p) }

  lemma Halves(a: string, b: string)
    ensures (a + b)[..|a|] == a && (a + b)[|a|..] == b && |a| <= |a + b|
  {
  }

  lemma ThenMatches(p: Pattern, q: Pattern, a: string, b: string)
    requires Matches(p, a) && Matches(q, b)
    ensures Matches(Then(p, q), a + b)
  {
    var s := a + b;
    Halves(a, b);
    assert 0 <= |a| <= |s| && Matches(p, s[..|a|]) && Matches(q, s[|a|..]);
  }

  lemma ThenSplits(p: Pattern, q: Pattern, s: string) returns (a: string, b: string)
    requires Matches(Then(p, q), s)
    ensures s == a + b && Matches(p, a) && Matches(q, b)
  {
    var k :| 0 <= k <= |s| && Matches(p, s[..k]) && Matches(q, s[k..]);
    a, b := s[..k], s[k..];
  }

  lemma ThenExactly(p: Pattern, q: Pattern, s: string)
    ensures Matches(Then(p, q), s) <==> exists a, b :: s == a + b && Matches(p, a) && Matches(q, b)
  {
    if Matches(Then(p, q), s) { var a, b := ThenSplits(p, q, s); }
    if a, b :| s == a + b && Matches(p, a) && Matches(q, b) { ThenMatches(p, q, a, b); }
  }

  /** A sequence of two patterns with known languages. */
  lemma ThenOf(p: Pattern, q: Pattern, s: string, first: string -> bool, second: string -> bool)
    requires forall x :: Matches(p, x) <==> first(x)
    requires forall x :: Matches(q, x) <==> second(x)
    ensures Matches(Then(p, q), s) <==> exists a, b :: s == a + b && first(a) && second(b)
  {
    ThenExactly(p, q, s);
    if a, b :| s == a + b && Matches(p, a) && Matches(q, b) { assert first(a) && second(b); }
    if a, b :| s == a + b && first(a) && second(b) { assert Matches(p, a) && Matches(q, b); }
  }

  // ---- Runs of one class ------------------------------------------------------------

  predicate AllIn(ranges: seq<(char, char)>, s: string) { forall i :: 0 <= i < |s| ==> InClass(ranges, s[i]) }

  function Singles(s: string): (parts: seq<string>)
    ensures |parts| == |s| && forall i :: 0 <= i < |s| ==> parts[i] == [s[i]]
  {
    seq(|s|, i requires 0 <= i < |s| => [s[i]])
  }

  lemma {:induction false} ConcatSingles(parts: seq<string>)
    requires forall i :: 0 <= i < |parts| ==> |parts[i]| == 1
    ensures |Concat(parts)| == |parts|
    ensures forall i :: 0 <= i < |parts| ==> Concat(parts)[i] == parts[i][0]
  {
    if parts != [] { ConcatSingles(parts[1..]); }
  }

  lemma RunExactly(ranges: seq<(char, char)>, min: nat, max: Option<nat>, s: string)
    ensures Matches(Repeat(Class(ranges), min, max), s)
            <==> min <= |s| && (max.Some? ==> |s| <= max.value) && AllIn(ranges, s)
  {
    if Matches(Repeat(Class(ranges), min, max), s) {
      var parts: seq<string> :|
        Concat(parts) == s && min <= |parts| && (max.Some? ==> |parts| <= max.value)
        && forall i :: 0 <= i < |parts| ==> Matches(Class(ranges), parts[i]);
      ConcatSingles(parts);
    }
    if min <= |s| && (max.Some? ==> |s| <= max.value) && AllIn(ranges, s) {
      var parts := Singles(s);
      ConcatSingles(parts);
      assert Concat(parts) == s;
      forall i | 0 <= i < |parts| ensures Matches(Class(ranges), parts[i]) {}
    }
  }

  lemma AllInExactly(ranges: seq<(char, char)>, s: string)
    ensures AllIn(ranges, s) <==> forall c :: c in s ==> InClass(ranges, c)
  {
  }

  // ---- Rule ports -------------------------------------------------------------------

  const DIGIT := [('0', '9')]
  const DIGITS := Repeat(Class(DIGIT), 1, Some(5))
  const PROTO := Either(Text("tcp"), Text("udp"))
  const SLASHED := Then(Text("/"), PROTO)

  /** ^(\d{1,5})/(tcp|udp)$ */
  const RULE_PORT := Then(DIGITS, SLASHED)

  lemma DigitClass(c: char)
    ensures InClass(DIGIT, c) <==> IsDigit(c)
  {
    assert DIGIT[0] == ('0', '9');
  }

  lemma DigitsExactly(s: string)
    ensures Matches(DIGITS, s) <==> 1 <= |s| <= 5 && Firewall.AllDigits(s)
  {
    RunExactly(DIGIT, 1, Some(5), s);
    AllInExactly(DIGIT, s);
    forall c ensures InClass(DIGIT, c) <==> IsDigit(c) { DigitClass(c); }
  }

  lemma SlashedExactly(s: string)
    ensures Matches(SLASHED, s) <==> s == "/tcp" || s == "/udp"
  {
    ThenExactly(Text("/"), PROTO, s);
    assert "/tcp" == "/" + "tcp" && "/udp" == "/" + "udp";
    assert Matches(Text("/"), "/") && Matches(PROTO, "tcp") && Matches(PROTO, "udp");
  }

  /** A number of one to five digits, a slash, and a protocol. */
  predicate IsRulePort(digits: string, proto: string) {
    1 <= |digits| <= 5 && Firewall.AllDigits(digits) && Firewall.IsProto(proto)
  }

  lemma PortShape(s: string)
    ensures (exists a, b :: s == a + b && 1 <= |a| <= 5 && Firewall.AllDigits(a) && (b == "/tcp" || b == "/udp"))
            <==> exists digits, proto :: s == digits + ['/'] + proto && IsRulePort(digits, proto)
  {
    if a, b :| s == a + b && 1 <= |a| <= 5 && Firewall.AllDigits(a) && (b == "/tcp" || b == "/udp") {
      assert s == a + ['/'] + b[1..] && Firewall.IsProto(b[1..]);
      assert IsRulePort(a, b[1..]);
    }
    if digits, proto :| s == digits + ['/'] + proto && IsRulePort(digits, proto) {
      var b := "/" + proto;
      assert s == digits + b && (b == "/tcp" || b == "/udp");
    }
  }

  lemma RulePortExactly(s: string)
    ensures Matches(RULE_PORT, s) <==> exists digits, proto :: s == digits + ['/'] + proto && IsRulePort(digits, proto)
  {
    var first := (x: string) => 1 <= |x| <= 5 && Firewall.AllDigits(x);
    var second := (x: string) => x == "/tcp" || x == "/udp";
    forall x ensures Matches(DIGITS, x) <==> first(x) { DigitsExactly(x); }
    forall x ensures Matches(SLASHED, x) <==> second(x) { SlashedExactly(x); }
    ThenOf(DIGITS, SLASHED, s, first, second);
    PortShape(s);
  }

  lemma NoSlash(a: string)
    requires Firewall.AllDigits(a)
    ensures '/' !in a
  {
  }

  /** The parser of rule ports accepts exactly the pattern, and reads the number and the protocol. */
  lemma PortExactly(s: string)
    ensures Firewall.PortProto(s).Some? <==> Matches(RULE_PORT, s)
    ensures Firewall.PortProto(s).Some? ==>
              exists digits, proto :: s == digits + ['/'] + proto && Firewall.AllDigits(digits)
                                      && Firewall.PortProto(s) == Some((DigitsValue(digits), proto))
  {
    RulePortExactly(s);
    if Firewall.PortProto(s).Some? {
      var cut := Cut(s, '/').value;
      assert s == cut.0 + ['/'] + cut.1;
    }
    if digits, proto :| s == digits + ['/'] + proto && IsRulePort(digits, proto) {
      NoSlash(digits);
      CutAt(digits, '/', proto);
    }
  }

  // ---- Domain names -----------------------------------------------------------------

  const ALNUM := [('a', 'z'), ('0', '9')]
  const LOWER := [('a', 'z')]
  const INNER := [('a', 'z'), ('0', '9'), ('-', '-')]
  const RUN := Repeat(Class(INNER), 0, Some(61))
  const TAIL := Then(RUN, Class(ALNUM))

  /** [a-z0-9]([a-z0-9-]{0,61}[a-z0-9])? */
  const LABEL := Then(Class(ALNUM), Maybe(TAIL))
  const TOP := Repeat(Class(LOWER), 2, None)
  const LABELS := Repeat(Then(LABEL, Text(".")), 1, None)

  /** ^(\*\.)?([a-z0-9]([a-z0-9-]{0,61}[a-z0-9])?\.)+[a-z]{2,}$ */
  const FQDN := Then(Maybe(Text("*.")), Then(LABELS, TOP))

  lemma Classes(c: char)
    ensures InClass(ALNUM, c) <==> LowerAlnum(c)
    ensures InClass(INNER, c) <==> LowerAlnum(c) || c == '-'
    ensures InClass(LOWER, c) <==> 'a' <= c <= 'z'
  {
    assert ALNUM[0] == ('a', 'z') && ALNUM[1] == ('0', '9') && LOWER[0] == ('a', 'z');
    assert INNER[0] == ('a', 'z') && INNER[1] == ('0', '9') && INNER[2] == ('-', '-');
  }

  predicate InnerOnly(s: string) { forall c :: c in s ==> LowerAlnum(c) || c == '-' }

  lemma InnerExactly(s: string)
    ensures Matches(RUN, s) <==> |s| <= 61 && InnerOnly(s)
  {
    RunExactly(INNER, 0, Some(61), s);
    AllInExactly(INNER, s);
    forall c ensures InClass(INNER, c) <==> LowerAlnum(c) || c == '-' { Classes(c); }
  }

  lemma AlnumExactly(s: string)
    ensures Matches(Class(ALNUM), s) <==> |s| == 1 && LowerAlnum(s[0])
  {
    if |s| == 1 { Classes(s[0]); }
  }

  predicate IsTail(s: string) { 1 <= |s| <= 62 && LowerAlnum(s[|s| - 1]) && InnerOnly(s[..|s| - 1]) }

  lemma TailExactly(s: string)
    ensures Matches(TAIL, s) <==> IsTail(s)
  {
    ThenExactly(RUN, Class(ALNUM), s);
    if a, b :| s == a + b && Matches(RUN, a) && Matches(Class(ALNUM), b) {
      InnerExactly(a);
      AlnumExactly(b);
      assert s[..|s| - 1] == a && s[|s| - 1] == b[0];
    }
    if IsTail(s) {
      var a, b := s[..|s| - 1], [s[|s| - 1]];
      InnerExactly(a);
      AlnumExactly(b);
      assert s == a + b;
    }
  }

  lemma LabelShape(s: string)
    ensures IsLabel(s) <==> s != "" && LowerAlnum(s[0]) && (s[1..] == "" || IsTail(s[1..]))
  {
    if s != "" {
      var b := s[1..];
      assert s == [s[0]] + b;
      if b != "" {
        assert b == b[..|b| - 1] + [b[|b| - 1]] && b[|b| - 1] == s[|s| - 1];
      }
    }
  }

  lemma FirstAndTail(s: string)
    ensures (exists a, b :: s == a + b && |a| == 1 && LowerAlnum(a[0]) && (b == "" || IsTail(b))) <==> IsLabel(s)
  {
    LabelShape(s);
    if a, b :| s == a + b && |a| == 1 && LowerAlnum(a[0]) && (b == "" || IsTail(b)) {
      assert s[0] == a[0] && s[1..] == b;
    }
    if IsLabel(s) { assert s == [s[0]] + s[1..]; }
  }

  lemma LabelExactly(s: string)
    ensures Matches(LABEL, s) <==> IsLabel(s)
  {
    var first := (x: string) => |x| == 1 && LowerAlnum(x[0]);
    var second := (x: string) => x == "" || IsTail(x);
    forall x ensures Matches(Class(ALNUM), x) <==> first(x) { AlnumExactly(x); }
    forall x ensures Matches(Maybe(TAIL), x) <==> second(x) { TailExactly(x); }
    ThenOf(Class(ALNUM), Maybe(TAIL), s, first, second);
    FirstAndTail(s);
  }

  lemma TopExactly(s: string)
    ensures Matches(TOP, s) <==> IsTopLabel(s)
  {
    RunExactly(LOWER, 2, None, s);
    AllInExactly(LOWER, s);
    forall c ensures InClass(LOWER, c) <==> 'a' <= c <= 'z' { Classes(c); }
  }

  function Dotted(labels: seq<string>): string {
    if labels == [] then "" else labels[0] + ['.'] + Dotted(labels[1..])
  }

  ghost predicate AllLabels(labels: seq<string>) { forall i :: 0 <= i < |labels| ==> IsLabel(labels[i]) }

  lemma DottedLabel(s: string)
    ensures Matches(Then(LABEL, Text(".")), s) <==> exists l :: IsLabel(l) && s == l + ['.']
  {
    var first := (x: string) => IsLabel(x);
    var second := (x: string) => x == ".";
    forall x ensures Matches(LABEL, x) <==> first(x) { LabelExactly(x); }
    ThenOf(LABEL, Text("."), s, first, second);
    assert "." == ['.'];
  }

  lemma {:induction false} DottedParts(parts: seq<string>) returns (labels: seq<string>)
    requires forall i :: 0 <= i < |parts| ==> exists l :: IsLabel(l) && parts[i] == l + ['.']
    ensures |labels| == |parts| && AllLabels(labels) && Concat(parts) == Dotted(labels)
  {
    if parts == [] {
      labels := [];
    } else {
      var l :| IsLabel(l) && parts[0] == l + ['.'];
      var rest := DottedParts(parts[1..]);
      labels := [l] + rest;
      assert labels[1..] == rest;
    }
  }

  lemma {:induction false} PartsDotted(labels: seq<string>) returns (parts: seq<string>)
    requires AllLabels(labels)
    ensures |parts| == |labels| && Concat(parts) == Dotted(labels)
    ensures forall i :: 0 <= i < |parts| ==> parts[i] == labels[i] + ['.']
  {
    if labels == [] {
      parts := [];
    } else {
      var rest := PartsDotted(labels[1..]);
      parts := [labels[0] + ['.']] + rest;
      assert parts[1..] == rest;
    }
  }

  lemma LabelsExactly(s: string)
    ensures Matches(LABELS, s) <==> exists labels :: labels != [] && AllLabels(labels) && s == Dotted(labels)
  {
    if Matches(LABELS, s) {
      var parts: seq<string> :|
        Concat(parts) == s && 1 <= |parts|
        && forall i :: 0 <= i < |parts| ==> Matches(Then(LABEL, Text(".")), parts[i]);
      forall i | 0 <= i < |parts| ensures exists l :: IsLabel(l) && parts[i] == l + ['.'] { DottedLabel(parts[i]); }
      var labels := DottedParts(parts);
    }
    if labels :| labels != [] && AllLabels(labels) && s == Dotted(labels) {
      var parts := PartsDotted(labels);
      forall i | 0 <= i < |parts| ensures Matches(Then(LABEL, Text(".")), parts[i]) { DottedLabel(parts[i]); }
    }
  }

  lemma LabelNoDot(s: string)
    requires IsLabel(s) || IsTopLabel(s)
    ensures '.' !in s
  {
  }

  /** Splitting a dotted name at the dots gives its labels back. */
  lemma {:induction false} SplitDotted(labels: seq<string>, top: string)
    requires AllLabels(labels) && '.' !in top
    ensures Split(Dotted(labels) + top, '.') == labels + [top]
  {
    if labels == [] {
      assert "" + top == top && Split(top, '.') == [top];
    } else {
      LabelNoDot(labels[0]);
      SplitDotted(labels[1..], top);
      assert Dotted(labels) + top == labels[0] + ['.'] + (Dotted(labels[1..]) + top);
      SplitAt(labels[0], '.', Dotted(labels[1..]) + top);
      assert [labels[0]] + (labels[1..] + [top]) == labels + [top];
    }
  }

  /** The parts but the last, dotted, and the last. */
  function Undone(parts: seq<string>): string
    requires parts != []
  {
    Dotted(parts[..|parts| - 1]) + parts[|parts| - 1]
  }

  lemma UndoneMore(head: string, rest: seq<string>)
    requires rest != []
    ensures Undone([head] + rest) == head + ['.'] + Undone(rest)
  {
    var parts, init := [head] + rest, rest[..|rest| - 1];
    assert parts[..|parts| - 1] == [head] + init;
    assert ([head] + init)[1..] == init;
  }

  lemma {:induction false} DottedSplit(s: string)
    ensures Undone(Split(s, '.')) == s
    decreases |s|
  {
    var cut := Cut(s, '.');
    if cut.None? {
      assert Split(s, '.') == [s] && [s][..0] == [] && "" + s == s;
    } else {
      DottedSplit(cut.value.1);
      SplitAt(cut.value.0, '.', cut.value.1);
      UndoneMore(cut.value.0, Split(cut.value.1, '.'));
    }
  }

  /** One or more labels, each with its dot, and a top-level label. */
  ghost predicate IsBody(s: string) {
    exists labels, top :: labels != [] && AllLabels(labels) && IsTopLabel(top) && s == Dotted(labels) + top
  }

  lemma BodyPattern(s: string)
    ensures Matches(Then(LABELS, TOP), s) <==> IsBody(s)
  {
    ThenExactly(LABELS, TOP, s);
    if a, b :| s == a + b && Matches(LABELS, a) && Matches(TOP, b) {
      LabelsExactly(a);
      TopExactly(b);
    }
    if labels, top :| labels != [] && AllLabels(labels) && IsTopLabel(top) && s == Dotted(labels) + top {
      LabelsExactly(Dotted(labels));
      TopExactly(top);
    }
  }

  lemma BodySplit(s: string)
    ensures IsBody(s) <==> AreLabels(Split(s, '.'))
  {
    if labels, top :| labels != [] && AllLabels(labels) && IsTopLabel(top) && s == Dotted(labels) + top {
      LabelNoDot(top);
      SplitDotted(labels, top);
      var parts := labels + [top];
      assert forall i :: 0 <= i < |parts| - 1 ==> parts[i] == labels[i];
    }
    if AreLabels(Split(s, '.')) {
      var parts := Split(s, '.');
      var labels, top := parts[..|parts| - 1], parts[|parts| - 1];
      DottedSplit(s);
      assert AllLabels(labels) && labels != [];
    }
  }

  lemma BodyExactly(s: string)
    ensures Matches(Then(LABELS, TOP), s) <==> AreLabels(Split(s, '.'))
  {
    BodyPattern(s);
    BodySplit(s);
  }

  lemma StarFirst(s: string)
    requires HasPrefix(s, "*.")
    ensures !AreLabels(Split(s, '.'))
  {
    assert s == "*" + ['.'] + s[2..];
    SplitAt("*", '.', s[2..]);
    assert Split(s, '.')[0] == "*";
    assert "*"[0] == '*' && !IsLabel("*");
  }

  /** An optional prefix decides nothing when a text that has it has no reading without it. */
  lemma OptionalPrefix(s: string, prefix: string, body: string -> bool)
    requires prefix <= s ==> !body(s)
    ensures body(if prefix <= s then s[|prefix|..] else s)
            <==> exists a, b :: s == a + b && (a == "" || a == prefix) && body(b)
  {
    if prefix <= s { assert s == prefix + s[|prefix|..]; }
    assert s == "" + s;
    if a, b :| s == a + b && (a == "" || a == prefix) && body(b) {
      Halves(a, b);
      assert a == "" ==> b == s;
      assert a == prefix ==> prefix <= s && b == s[|prefix|..];
    }
  }

  /** The name check of every insert accepts exactly the language of reFQDN. */
  lemma FqdnExactly(s: string)
    ensures IsFqdn(s) <==> Matches(FQDN, s)
  {
    var first := (x: string) => x == "" || x == "*.";
    var second := (x: string) => AreLabels(Split(x, '.'));
    forall x ensures Matches(Maybe(Text("*.")), x) <==> first(x) { StarExactly(x); }
    forall x ensures Matches(Then(LABELS, TOP), x) <==> second(x) { BodyExactly(x); }
    ThenOf(Maybe(Text("*.")), Then(LABELS, TOP), s, first, second);
    if "*." <= s { StarFirst(s); }
    OptionalPrefix(s, "*.", second);
  }

  lemma StarExactly(x: string)
    ensures Matches(Maybe(Text("*.")), x) <==> x == "" || x == "*."
  {
    assert Matches(Text("*."), x) <==> x == "*.";
  }
}
