/** Cron expressions: evaluating a five-field string against an instant, what a printed
    expression denotes, and the loop that evaluates once a minute. */
module Cron {
  import opened Strings
  import opened Wrappers

  // ---- One element ------------------------------------------------------------------

  /** The values lo, lo + step, ... up to hi. */
  datatype Progression = Progression(lo: int, hi: int, step: int)

  ghost predicate Denotes(p: Progression, value: int) {
    exists k: nat :: value == p.lo + k * p.step && value <= p.hi
  }

  function ParseRange(base: string, min: int, max: int): Option<(int, int)> {
    if base == "*" then Some((min, max))
    else match Cut(base, '-')
      case Some(p) =>
        var a, b := Atoi(p.0), Atoi(p.1);
        if a.None? || b.None? then None else Some((a.value, b.value))
      case None =>
        var n := Atoi(base);
        if n.None? then None
        else var m := if max == 6 && n.value == 7 then 0 else n.value; Some((m, m))
  }

  function ParseStep(stepText: string): Option<int> {
    var n := Atoi(stepText);
    if n.None? || n.value <= 0 then None else n
  }

  /** None is the error result. */
  function ParsePart(part: string, min: int, max: int): (r: Option<Progression>)
    ensures r.Some? ==> min <= r.value.lo <= r.value.hi <= max && r.value.step > 0
  {
    if part == "" then None
    else
      var cut := Cut(part, '/');
      var base := if cut.Some? then cut.value.0 else part;
      var step := if cut.Some? then ParseStep(cut.value.1) else Some(1);
      var range := ParseRange(base, min, max);
      if step.None? || range.None? then None
      else if range.value.0 < min || range.value.1 > max || range.value.0 > range.value.1 then None
      else Some(Progression(range.value.0, range.value.1, step.value))
  }

  // ---- The grammar of an element -------------------------------------------------------

  /** `*` for the whole field, two numbers around the first dash, or one number; in the weekday
      field a single 7 is Sunday. */
  ghost predicate RangeReads(base: string, min: int, max: int, lo: int, hi: int) {
    if base == "*" then lo == min && hi == max
    else if '-' in base then
      exists a, b :: base == a + ['-'] + b && '-' !in a && IsNumeral(a, lo) && IsNumeral(b, hi)
    else exists n :: IsNumeral(base, n) && lo == hi == if max == 6 && n == 7 then 0 else n
  }

  /** A range, alone or with a positive step after the first slash, inside the field's bounds. */
  ghost predicate PartReads(part: string, min: int, max: int, p: Progression) {
    && part != "" && min <= p.lo <= p.hi <= max
    && if '/' in part then
         exists base, step :: part == base + ['/'] + step && '/' !in base
                              && IsNumeral(step, p.step) && p.step > 0 && RangeReads(base, min, max, p.lo, p.hi)
       else p.step == 1 && RangeReads(part, min, max, p.lo, p.hi)
  }

  lemma RangeExactly(base: string, min: int, max: int, lo: int, hi: int)
    ensures ParseRange(base, min, max) == Some((lo, hi)) <==> RangeReads(base, min, max, lo, hi)
  {
    if base == "*" {
    } else if '-' in base {
      var cut := Cut(base, '-').value;
      AtoiExactly(cut.0, lo);
      AtoiExactly(cut.1, hi);
      forall a, b | base == a + ['-'] + b && '-' !in a ensures a == cut.0 && b == cut.1 { CutAt(a, '-', b); }
    } else {
      var n := Atoi(base);
      if n.Some? { AtoiExactly(base, n.value); }
      forall k | IsNumeral(base, k) ensures n == Some(k) { AtoiExactly(base, k); }
    }
  }

  lemma StepExactly(text: string, step: int)
    ensures ParseStep(text) == Some(step) <==> IsNumeral(text, step) && step > 0
  {
    AtoiExactly(text, step);
  }

  lemma SlashedExactly(base: string, step: string, min: int, max: int, p: Progression)
    requires '/' !in base
    ensures ParsePart(base + ['/'] + step, min, max) == Some(p)
            <==> min <= p.lo <= p.hi <= max && IsNumeral(step, p.step) && p.step > 0
                 && RangeReads(base, min, max, p.lo, p.hi)
  {
    CutAt(base, '/', step);
    StepExactly(step, p.step);
    RangeExactly(base, min, max, p.lo, p.hi);
  }

  /** The parser accepts exactly this grammar, with exactly this meaning. */
  lemma ParseExactly(part: string, min: int, max: int, p: Progression)
    ensures ParsePart(part, min, max) == Some(p) <==> PartReads(part, min, max, p)
  {
    if part == "" {
    } else if '/' in part {
      var cut := Cut(part, '/').value;
      SlashedExactly(cut.0, cut.1, min, max, p);
      forall base, step | part == base + ['/'] + step && '/' !in base ensures base == cut.0 && step == cut.1 {
        CutAt(base, '/', step);
      }
    } else {
      RangeExactly(part, min, max, p.lo, p.hi);
    }
  }

  predicate Hits(p: Progression, value: int)
    requires p.step > 0
  {
    p.lo <= value <= p.hi && (value - p.lo) % p.step == 0
  }

  lemma HitsDenotes(p: Progression, value: int)
    requires p.step > 0
    ensures Hits(p, value) <==> Denotes(p, value)
  {
    if Hits(p, value) {
      var k := (value - p.lo) / p.step;
      assert value == p.lo + k * p.step;
    }
    if k: nat :| value == p.lo + k * p.step && value <= p.hi {
      MultipleMod(k, p.step);
    }
  }

  lemma MultipleMod(k: nat, step: int)
    requires step > 0
    ensures (k * step) % step == 0 && k * step >= 0
  {
    var q, r := k * step / step, k * step % step;
    assert k * step == q * step + r;
    assert (k - q) * step == r;
    if k > q { AtLeastOnce(k - q, step); }
    if q > k { AtLeastOnce(q - k, step); }
  }

  lemma AtLeastOnce(d: int, step: int)
    requires d >= 1 && step > 0
    ensures d * step >= step
  {
  }

  function PartResult(part: string, value: int, min: int, max: int): Option<bool> {
    match ParsePart(part, min, max)
    case None => None
    case Some(p) => Some(Hits(p, value))
  }

  method PartMatches(text: string, value: int, min: int, max: int) returns (r: Option<bool>)
    ensures r == PartResult(text, value, min, max)
  {
    if text == "" { return None; }
    var part, step := text, 1;
    var cut := Cut(part, '/');
    if cut.Some? {
      var n := Atoi(cut.value.1);
      if n.None? || n.value <= 0 { return None; }
      step, part := n.value, cut.value.0;
    }
    var range := RangeOf(part, min, max);
    if range.None? { return None; }
    var lo, hi := range.value.0, range.value.1;
    if lo < min || hi > max || lo > hi { return None; }
    if value < lo || value > hi { return Some(false); }
    return Some((value - lo) % step == 0);
  }

  /** The three forms of a range. */
  method RangeOf(part: string, min: int, max: int) returns (r: Option<(int, int)>)
    ensures r == ParseRange(part, min, max)
  {
    var lo, hi := min, max;
    var dash := Cut(part, '-');
    if part == "*" {
    } else if dash.Some? {
      var a, b := Atoi(dash.value.0), Atoi(dash.value.1);
      if a.None? { return None; }
      if b.None? { return None; }
      lo, hi := a.value, b.value;
    } else {
      var n := Atoi(part);
      if n.None? { return None; }
      lo := n.value;
      if max == 6 && lo == 7 { lo := 0; }
      hi := lo;
    }
    return Some((lo, hi));
  }

  // ---- A field and an expression ----------------------------------------------------

  /** The first part that is malformed or hits decides. */
  function PartsResult(parts: seq<string>, value: int, min: int, max: int): Option<bool> {
    if parts == [] then Some(false)
    else match PartResult(TrimSpace(parts[0]), value, min, max)
      case Some(false) => PartsResult(parts[1..], value, min, max)
      case r => r
  }

  method FieldMatches(field: string, value: int, min: int, max: int) returns (r: Option<bool>)
    ensures r == PartsResult(Split(field, ','), value, min, max)
  {
    var parts := Split(field, ',');
    for n := 0 to |parts|
      invariant PartsResult(parts, value, min, max) == PartsResult(parts[n..], value, min, max)
    {
      var ok := PartMatches(TrimSpace(parts[n]), value, min, max);
      if ok != Some(false) { return ok; }
      assert parts[n..][1..] == parts[n + 1..];
    }
    return Some(false);
  }

  /** Minute, hour, day, month and weekday of an instant. */
  type Calendar = t: seq<int> | |t| == 5 witness [0, 0, 1, 1, 0]

  const MINS: seq<int> := [0, 0, 1, 1, 0]
  const MAXS: seq<int> := [59, 23, 31, 12, 6]

  /** Minutes 0-59, hours 0-23, days 1-31, months 1-12, weekdays 0-6. */
  lemma FieldBounds()
    ensures MINS == [0, 0, 1, 1, 0] && MAXS == [59, 23, 31, 12, 6]
  {
  }

  function ChecksResult(fields: seq<string>, t: Calendar, n: nat): Option<bool>
    requires |fields| == 5 && n <= 5
    decreases 5 - n
  {
    if n == 5 then Some(true)
    else match PartsResult(Split(fields[n], ','), t[n], MINS[n], MAXS[n])
      case Some(true) => ChecksResult(fields, t, n + 1)
      case r => r
  }

  function MatchResult(expr: string, t: Calendar): Option<bool> {
    if |Fields(expr)| != 5 then None else ChecksResult(Fields(expr), t, 0)
  }

  method Matches(expr: string, t: Calendar) returns (r: Option<bool>)
    ensures r == MatchResult(expr, t)
  {
    var fields := Fields(expr);
    if |fields| != 5 { return None; }
    for n := 0 to 5
      invariant MatchResult(expr, t) == ChecksResult(fields, t, n)
    {
      var ok := FieldMatches(fields[n], t[n], MINS[n], MAXS[n]);
      if ok != Some(true) { return ok; }
    }
    return Some(true);
  }

  // ---- Printed expressions ----------------------------------------------------------

  datatype Range = All | One(n: nat) | Span(lo: nat, hi: nat)
  datatype Elem = Elem(range: Range, step: Option<nat>)

  function PrintRange(r: Range): string {
    match r
    case All => "*"
    case One(n) => Itoa(n)
    case Span(lo, hi) => Itoa(lo) + ['-'] + Itoa(hi)
  }

  function PrintElem(e: Elem): string {
    if e.step.Some? then PrintRange(e.range) + ['/'] + Itoa(e.step.value) else PrintRange(e.range)
  }

  function PrintElems(es: seq<Elem>): (out: seq<string>)
    ensures |out| == |es| && forall i :: 0 <= i < |es| ==> out[i] == PrintElem(es[i])
  {
    seq(|es|, i requires 0 <= i < |es| => PrintElem(es[i]))
  }

  function PrintField(es: seq<Elem>): string { Join(PrintElems(es), ',') }

  function PrintFields(x: seq<seq<Elem>>): (out: seq<string>)
    ensures |out| == |x| && forall i :: 0 <= i < |x| ==> out[i] == PrintField(x[i])
  {
    seq(|x|, i requires 0 <= i < |x| => PrintField(x[i]))
  }

  function Print(x: seq<seq<Elem>>): string { Join(PrintFields(x), ' ') }

  predicate WellFormed(e: Elem, min: int, max: int) {
    && (e.step.Some? ==> 0 < e.step.value <= MAX_INT64)
    && match e.range
       case All => true
       case One(n) => min <= n <= max || (max == 6 && n == 7)
       case Span(lo, hi) => min <= lo <= hi <= max
  }

  /** The values an element stands for; a single 7 is Sunday. */
  function Meaning(e: Elem, min: int, max: int): Progression {
    var step: int := if e.step.Some? then e.step.value else 1;
    match e.range
    case All => Progression(min, max, step)
    case One(n) => var m: int := if max == 6 && n == 7 then 0 else n; Progression(m, m, step)
    case Span(lo, hi) => Progression(lo, hi, step)
  }

  predicate IsBounds(min: int, max: int) { 0 <= min <= max <= 59 && (max == 6 ==> min == 0) }

  /** Text that begins with a digit and holds only digits and other plain marks. */
  predicate Plain(s: string) { s != "" && '/' !in s && ',' !in s && NoSpace(s) }

  lemma PlainNumber(n: nat)
    ensures Plain(Itoa(n)) && '-' !in Itoa(n) && Itoa(n)[0] != '*' && Itoa(n) != "*"
  {
    assert IsDigit(Itoa(n)[0]);
  }

  lemma ParsePrintedOne(n: nat, min: int, max: int)
    requires n <= MAX_INT64
    ensures var m := if max == 6 && n == 7 then 0 else n;
            ParseRange(Itoa(n), min, max) == Some((m, m))
  {
    AtoiItoa(n);
    PlainNumber(n);
  }

  lemma ParsePrintedSpan(lo: nat, hi: nat, min: int, max: int)
    requires lo <= MAX_INT64 && hi <= MAX_INT64
    ensures ParseRange(Itoa(lo) + ['-'] + Itoa(hi), min, max) == Some((lo, hi))
    ensures Plain(Itoa(lo) + ['-'] + Itoa(hi))
  {
    AtoiItoa(lo);
    AtoiItoa(hi);
    PlainNumber(lo);
    PlainNumber(hi);
    CutAt(Itoa(lo), '-', Itoa(hi));
    var s := Itoa(lo) + ['-'] + Itoa(hi);
    assert s[0] == Itoa(lo)[0];
  }

  lemma ParsePrintedRange(r: Range, min: int, max: int)
    requires IsBounds(min, max) && WellFormed(Elem(r, None), min, max)
    ensures var p := Meaning(Elem(r, None), min, max);
            ParseRange(PrintRange(r), min, max) == Some((p.lo, p.hi))
    ensures Plain(PrintRange(r))
  {
    match r
    case All =>
    case One(n) => ParsePrintedOne(n, min, max); PlainNumber(n);
    case Span(lo, hi) => ParsePrintedSpan(lo, hi, min, max);
  }

  lemma ParsePrintedElem(e: Elem, min: int, max: int)
    requires IsBounds(min, max) && WellFormed(e, min, max)
    ensures ParsePart(PrintElem(e), min, max) == Some(Meaning(e, min, max))
    ensures ',' !in PrintElem(e) && NoSpace(PrintElem(e)) && PrintElem(e) != ""
  {
    assert WellFormed(Elem(e.range, None), min, max);
    ParsePrintedRange(e.range, min, max);
    if e.step.Some? {
      CutAt(PrintRange(e.range), '/', Itoa(e.step.value));
      AtoiItoa(e.step.value);
      PlainNumber(e.step.value);
      assert PrintElem(e) == PrintRange(e.range) + ['/'] + Itoa(e.step.value);
      assert Cut(PrintElem(e), '/') == Some((PrintRange(e.range), Itoa(e.step.value)));
      assert ParseStep(Itoa(e.step.value)) == Some(e.step.value);
      var m, n := Meaning(e, min, max), Meaning(Elem(e.range, None), min, max);
      assert m.lo == n.lo && m.hi == n.hi && min <= m.lo <= m.hi <= max;
    }
  }

  /** Some element of the list stands for the value. */
  ghost predicate ListDenotes(es: seq<Elem>, min: int, max: int, value: int) {
    exists i :: 0 <= i < |es| && Denotes(Meaning(es[i], min, max), value)
  }

  ghost predicate AllWellFormed(es: seq<Elem>, min: int, max: int) {
    forall i :: 0 <= i < |es| ==> WellFormed(es[i], min, max)
  }

  lemma {:induction false} PrintedParts(es: seq<Elem>, min: int, max: int, value: int)
    requires IsBounds(min, max) && AllWellFormed(es, min, max)
    ensures PartsResult(PrintElems(es), value, min, max).Some?
    ensures PartsResult(PrintElems(es), value, min, max).value <==> ListDenotes(es, min, max, value)
  {
    if es != [] {
      PrintedParts(es[1..], min, max, value);
      assert PrintElems(es)[1..] == PrintElems(es[1..]);
      PrintedPart(es[0], min, max, value);
      DenotesTail(es, min, max, value);
    }
  }

  lemma PrintedPart(e: Elem, min: int, max: int, value: int)
    requires IsBounds(min, max) && WellFormed(e, min, max)
    ensures PartResult(TrimSpace(PrintElem(e)), value, min, max).Some?
    ensures PartResult(TrimSpace(PrintElem(e)), value, min, max).value <==> Denotes(Meaning(e, min, max), value)
  {
    ParsePrintedElem(e, min, max);
    TrimNoSpace(PrintElem(e));
    HitsDenotes(Meaning(e, min, max), value);
  }

  lemma DenotesTail(es: seq<Elem>, min: int, max: int, value: int)
    requires es != []
    ensures ListDenotes(es, min, max, value)
            <==> Denotes(Meaning(es[0], min, max), value) || ListDenotes(es[1..], min, max, value)
  {
    if i :| 0 <= i < |es| && Denotes(Meaning(es[i], min, max), value) {
      assert i > 0 ==> es[1..][i - 1] == es[i];
    }
    if i :| 0 <= i < |es[1..]| && Denotes(Meaning(es[1..][i], min, max), value) {
      assert es[1..][i] == es[i + 1];
    }
  }

  lemma PrintedField(es: seq<Elem>, min: int, max: int, value: int)
    requires es != [] && IsBounds(min, max) && AllWellFormed(es, min, max)
    ensures Split(PrintField(es), ',') == PrintElems(es)
    ensures NoSpace(PrintField(es)) && PrintField(es) != ""
  {
    forall i | 0 <= i < |es| ensures ',' !in PrintElem(es[i]) && NoSpace(PrintElem(es[i])) && PrintElem(es[i]) != "" {
      ParsePrintedElem(es[i], min, max);
    }
    SplitJoin(PrintElems(es), ',');
    JoinNoSpace(PrintElems(es));
  }

  lemma {:induction false} JoinNoSpace(parts: seq<string>)
    requires parts != [] && forall i :: 0 <= i < |parts| ==> NoSpace(parts[i]) && parts[i] != ""
    ensures NoSpace(Join(parts, ',')) && Join(parts, ',') != ""
  {
    if |parts| > 1 { JoinNoSpace(parts[1..]); }
  }

  ghost predicate WellFormedExpr(x: seq<seq<Elem>>) {
    |x| == 5 && forall n :: 0 <= n < 5 ==> x[n] != [] && AllWellFormed(x[n], MINS[n], MAXS[n])
  }

  lemma BoundsHold(n: nat)
    requires n < 5
    ensures IsBounds(MINS[n], MAXS[n])
  {
  }

  lemma PrintedCheck(es: seq<Elem>, n: nat, value: int)
    requires n < 5 && es != [] && AllWellFormed(es, MINS[n], MAXS[n])
    ensures var r := PartsResult(Split(PrintField(es), ','), value, MINS[n], MAXS[n]);
            r.Some? && (r.value <==> ListDenotes(es, MINS[n], MAXS[n], value))
  {
    BoundsHold(n);
    PrintedField(es, MINS[n], MAXS[n], value);
    PrintedParts(es, MINS[n], MAXS[n], value);
  }

  lemma {:induction false} PrintedChecks(x: seq<seq<Elem>>, t: Calendar, n: nat)
    requires WellFormedExpr(x) && n <= 5
    ensures ChecksResult(PrintFields(x), t, n).Some?
    ensures ChecksResult(PrintFields(x), t, n).value
            <==> forall i :: n <= i < 5 ==> ListDenotes(x[i], MINS[i], MAXS[i], t[i])
    decreases 5 - n
  {
    if n < 5 {
      PrintedChecks(x, t, n + 1);
      PrintedCheck(x[n], n, t[n]);
    }
  }

  /** Evaluating a printed expression succeeds, and says yes exactly when each of the five
      calendar values lies in the union of its field's progressions. */
  lemma MatchesPrinted(x: seq<seq<Elem>>, t: Calendar)
    requires WellFormedExpr(x)
    ensures MatchResult(Print(x), t).Some?
    ensures MatchResult(Print(x), t).value
            <==> forall i :: 0 <= i < 5 ==> ListDenotes(x[i], MINS[i], MAXS[i], t[i])
  {
    forall n | 0 <= n < 5 ensures PrintField(x[n]) != "" && NoSpace(PrintField(x[n])) {
      BoundsHold(n);
      PrintedField(x[n], MINS[n], MAXS[n], t[n]);
    }
    FieldsJoin(PrintFields(x));
    PrintedChecks(x, t, 0);
  }

  // ---- Arbitrary text ---------------------------------------------------------------

  /** A part that is well-formed and does not stand for the value lets the scan go on. */
  ghost predicate Passes(part: string, value: int, min: int, max: int) {
    var p := ParsePart(TrimSpace(part), min, max);
    p.Some? && !Denotes(p.value, value)
  }

  ghost predicate Names(part: string, value: int, min: int, max: int) {
    var p := ParsePart(TrimSpace(part), min, max);
    p.Some? && Denotes(p.value, value)
  }

  ghost predicate Stops(parts: seq<string>, i: int, value: int, min: int, max: int) {
    0 <= i < |parts| && !Passes(parts[i], value, min, max)
    && forall j :: 0 <= j < i ==> Passes(parts[j], value, min, max)
  }

  /** For any text: yes when some part names the value and all before it are well-formed and do
      not; an error when the first part that does not pass is malformed; no when all pass. */
  lemma {:induction false} PartsExactly(parts: seq<string>, value: int, min: int, max: int)
    ensures PartsResult(parts, value, min, max) == Some(true)
            <==> exists i :: Stops(parts, i, value, min, max) && Names(parts[i], value, min, max)
    ensures PartsResult(parts, value, min, max) == None
            <==> exists i :: Stops(parts, i, value, min, max) && !Names(parts[i], value, min, max)
    ensures PartsResult(parts, value, min, max) == Some(false)
            <==> forall i :: 0 <= i < |parts| ==> Passes(parts[i], value, min, max)
  {
    if parts != [] {
      PartsExactly(parts[1..], value, min, max);
      var p := ParsePart(TrimSpace(parts[0]), min, max);
      if p.Some? { HitsDenotes(p.value, value); }
      StopsTail(parts, value, min, max);
    }
  }

  lemma StopsTail(parts: seq<string>, value: int, min: int, max: int)
    requires parts != []
    ensures Stops(parts, 0, value, min, max) <==> !Passes(parts[0], value, min, max)
    ensures Passes(parts[0], value, min, max) ==>
              forall i {:trigger Stops(parts[1..], i, value, min, max)} ::
                Stops(parts[1..], i, value, min, max) <==> i >= 0 && Stops(parts, i + 1, value, min, max)
    ensures !Passes(parts[0], value, min, max) ==>
              forall i :: Stops(parts, i, value, min, max) ==> i == 0
    ensures forall i :: Stops(parts, i, value, min, max) && i > 0 ==> Stops(parts[1..], i - 1, value, min, max)
  {
    forall i | Passes(parts[0], value, min, max)
      ensures Stops(parts[1..], i, value, min, max) <==> i >= 0 && Stops(parts, i + 1, value, min, max)
    {
      if Stops(parts[1..], i, value, min, max) {
        forall j | 0 <= j < i + 1 ensures Passes(parts[j], value, min, max) {
          assert j > 0 ==> parts[1..][j - 1] == parts[j];
        }
      }
      if i >= 0 && Stops(parts, i + 1, value, min, max) {
        forall j | 0 <= j < i ensures Passes(parts[1..][j], value, min, max) { assert parts[1..][j] == parts[j + 1]; }
      }
    }
    forall i | Stops(parts, i, value, min, max) && i > 0 ensures Stops(parts[1..], i - 1, value, min, max) {
      forall j | 0 <= j < i - 1 ensures Passes(parts[1..][j], value, min, max) { assert parts[1..][j] == parts[j + 1]; }
    }
  }

  lemma {:induction false} PartsConcat(xs: seq<string>, ys: seq<string>, value: int, min: int, max: int)
    ensures PartsResult(xs + ys, value, min, max) ==
            if PartsResult(xs, value, min, max) == Some(false) then PartsResult(ys, value, min, max)
            else PartsResult(xs, value, min, max)
  {
    if xs == [] {
      assert xs + ys == ys;
    } else {
      PartsConcat(xs[1..], ys, value, min, max);
      assert (xs + ys)[1..] == xs[1..] + ys;
    }
  }

  /** Whatever follows a list that says yes or is in error goes unread, malformed or not; after a
      no it alone decides. */
  lemma EarlyExitHides(first: string, rest: string, value: int, min: int, max: int)
    ensures PartsResult(Split(first + [','] + rest, ','), value, min, max) ==
            if PartsResult(Split(first, ','), value, min, max) == Some(false)
            then PartsResult(Split(rest, ','), value, min, max)
            else PartsResult(Split(first, ','), value, min, max)
  {
    SplitConcat(first, ',', rest);
    PartsConcat(Split(first, ','), Split(rest, ','), value, min, max);
  }

  lemma MalformedPart()
    ensures ParsePart(TrimSpace("x"), 0, 59) == None
  {
    TrimNoSpace("x");
    assert Cut("x", '/') == None && Cut("x", '-') == None && Atoi("x") == None;
  }

  lemma NamingPart(value: int)
    requires 0 <= value <= 59
    ensures PartResult(TrimSpace("*"), value, 0, 59) == Some(true)
  {
    TrimNoSpace("*");
    assert Cut("*", '/') == None;
  }

  lemma TwoParts(a: string, b: string, value: int, min: int, max: int)
    requires ',' !in a && ',' !in b
    ensures PartsResult(Split(a + [','] + b, ','), value, min, max) ==
            match PartResult(TrimSpace(a), value, min, max)
            case Some(false) => PartResult(TrimSpace(b), value, min, max)
            case r => r
  {
    SplitAt(a, ',', b);
    assert Split(b, ',') == [b];
    PartsConcat([a], [b], value, min, max);
    OnePart(a, value, min, max);
    OnePart(b, value, min, max);
  }

  lemma OnePart(a: string, value: int, min: int, max: int)
    ensures PartsResult([a], value, min, max) == PartResult(TrimSpace(a), value, min, max)
  {
    assert [a][1..] == [];
  }

  /** The same two elements: a match when the good one comes first, an error when it does not. */
  lemma OrderMatters(value: int)
    requires 0 <= value <= 59
    ensures PartsResult(Split("*" + [','] + "x", ','), value, 0, 59) == Some(true)
    ensures PartsResult(Split("x" + [','] + "*", ','), value, 0, 59) == None
  {
    MalformedPart();
    NamingPart(value);
    TwoParts("*", "x", value, 0, 59);
    TwoParts("x", "*", value, 0, 59);
  }

  // ---- Arbitrary expressions --------------------------------------------------------

  function FieldResult(fields: seq<string>, t: Calendar, n: nat): Option<bool>
    requires |fields| == 5 && n < 5
  {
    PartsResult(Split(fields[n], ','), t[n], MINS[n], MAXS[n])
  }

  /** The n-th field is the first that does not say yes. */
  ghost predicate Decides(fields: seq<string>, t: Calendar, n: int)
    requires |fields| == 5
  {
    0 <= n < 5 && FieldResult(fields, t, n) != Some(true)
    && forall j :: 0 <= j < n ==> FieldResult(fields, t, j) == Some(true)
  }

  lemma {:induction false} ChecksExactly(fields: seq<string>, t: Calendar, n: nat)
    requires |fields| == 5 && n <= 5
    requires forall j :: 0 <= j < n ==> FieldResult(fields, t, j) == Some(true)
    ensures ChecksResult(fields, t, n) == Some(true)
            <==> forall j :: 0 <= j < 5 ==> FieldResult(fields, t, j) == Some(true)
    ensures forall j :: Decides(fields, t, j) ==> ChecksResult(fields, t, n) == FieldResult(fields, t, j)
    ensures ChecksResult(fields, t, n) != Some(true) ==> exists j :: Decides(fields, t, j)
    decreases 5 - n
  {
    if n < 5 {
      if FieldResult(fields, t, n) == Some(true) {
        ChecksExactly(fields, t, n + 1);
      } else {
        assert Decides(fields, t, n);
        forall j | Decides(fields, t, j) ensures j == n {}
      }
    }
  }

  lemma FirstDecides(fields: seq<string>, t: Calendar, r: Option<bool>)
    requires |fields| == 5 && r == ChecksResult(fields, t, 0)
    ensures r == Some(true) <==> forall j :: 0 <= j < 5 ==> FieldResult(fields, t, j) == Some(true)
    ensures r == Some(false) <==> exists j :: Decides(fields, t, j) && FieldResult(fields, t, j) == Some(false)
    ensures r == None <==> exists j :: Decides(fields, t, j) && FieldResult(fields, t, j) == None
  {
    ChecksExactly(fields, t, 0);
  }

  /** Any text whatever: an error without five fields; yes when every field says yes; otherwise the
      first field that does not say yes decides, and the fields behind it go unread. */
  lemma MatchExactly(expr: string, t: Calendar, fields: seq<string>)
    requires fields == Fields(expr)
    ensures |fields| != 5 ==> MatchResult(expr, t) == None
    ensures |fields| == 5 ==>
              && (MatchResult(expr, t) == Some(true)
                  <==> forall j :: 0 <= j < 5 ==> FieldResult(fields, t, j) == Some(true))
              && (MatchResult(expr, t) == Some(false)
                  <==> exists j :: Decides(fields, t, j) && FieldResult(fields, t, j) == Some(false))
              && (MatchResult(expr, t) == None
                  <==> exists j :: Decides(fields, t, j) && FieldResult(fields, t, j) == None)
  {
    if |fields| == 5 {
      assert MatchResult(expr, t) == ChecksResult(fields, t, 0);
      FirstDecides(fields, t, MatchResult(expr, t));
    }
  }

  // ---- Due jobs ---------------------------------------------------------------------

  datatype Job = Job(schedule: string, siteRunning: bool)

  predicate Due(j: Job, t: Calendar) { j.siteRunning && MatchResult(j.schedule, t) == Some(true) }

  function DueJobs(jobs: seq<Job>, t: Calendar): seq<Job> {
    if jobs == [] then []
    else
      var j := jobs[|jobs| - 1];
      DueJobs(jobs[..|jobs| - 1], t) + if Due(j, t) then [j] else []
  }

  /** Which jobs are launched, and that their order is kept. */
  lemma {:induction false} DueExactly(jobs: seq<Job>, t: Calendar, j: Job)
    ensures j in DueJobs(jobs, t) <==> j in jobs && j.siteRunning && MatchResult(j.schedule, t) == Some(true)
  {
    if jobs != [] {
      DueExactly(jobs[..|jobs| - 1], t, j);
      assert jobs == jobs[..|jobs| - 1] + [jobs[|jobs| - 1]];
    }
  }

  lemma {:induction false} DueInOrder(xs: seq<Job>, ys: seq<Job>, t: Calendar)
    ensures DueJobs(xs + ys, t) == DueJobs(xs, t) + DueJobs(ys, t)
  {
    if ys == [] {
      assert xs + ys == xs;
    } else {
      DueInOrder(xs, ys[..|ys| - 1], t);
      assert (xs + ys)[..|xs + ys| - 1] == xs + ys[..|ys| - 1];
    }
  }

  /** runDueJobs: a malformed schedule is skipped and does not stop the others. */
  method RunDueJobs(jobs: seq<Job>, t: Calendar) returns (launched: seq<Job>)
    ensures launched == DueJobs(jobs, t)
  {
    launched := [];
    for n := 0 to |jobs|
      invariant launched == DueJobs(jobs[..n], t)
    {
      assert jobs[..n + 1][..n] == jobs[..n];
      if !jobs[n].siteRunning { continue; }
      var due := Matches(jobs[n].schedule, t);
      if due.None? { continue; }
      if !due.value { continue; }
      launched := launched + [jobs[n]];
    }
    assert jobs[..|jobs|] == jobs;
  }
}

/** cronLoop: one evaluation per timer delivery, re-armed for the next full minute. Times are
    nanoseconds. */
module CronLoop {
  const SECOND: int := 1_000_000_000
  const MINUTE: int := 60 * SECOND

  /** How late the timer delivers, and how long the evaluation then takes. */
  datatype Beat = Beat(lag: nat, work: nat)

  function FirstMinute(start: nat): nat { start - start % MINUTE + MINUTE }

  /** The instant the k-th timer is set for. */
  function FireAt(start: nat, beats: seq<Beat>, k: nat): int
    requires k <= |beats|
    decreases k, 0
  {
    if k == 0 then FirstMinute(start)
    else
      var done := EvaluatedAt(start, beats, k - 1) + beats[k - 1].work;
      var next := FirstMinute(start) + k * MINUTE;
      if next - done > 0 then next else done + SECOND
  }

  function EvaluatedAt(start: nat, beats: seq<Beat>, k: nat): int
    requires k < |beats|
    decreases k, 1
  {
    FireAt(start, beats, k) + beats[k].lag
  }

  method Loop(start: nat, beats: seq<Beat>) returns (evaluated: seq<int>)
    ensures |evaluated| == |beats|
    ensures forall k :: 0 <= k < |beats| ==> evaluated[k] == EvaluatedAt(start, beats, k)
  {
    var next := start - start % MINUTE + MINUTE;
    var timer := next;
    evaluated := [];
    for k := 0 to |beats|
      invariant |evaluated| == k && next == FirstMinute(start) + k * MINUTE
      invariant timer == FireAt(start, beats, k)
      invariant forall j :: 0 <= j < k ==> evaluated[j] == EvaluatedAt(start, beats, j)
    {
      var now := timer + beats[k].lag;
      evaluated := evaluated + [now];
      var done := now + beats[k].work;
      next := next + MINUTE;
      var d := next - done;
      timer := if d > 0 then done + d else done + SECOND;
    }
  }

  function Nominal(start: nat, k: nat): int { FirstMinute(start) + k * MINUTE }

  /** The k-th evaluation, counting from 0, never comes before its nominal minute. */
  lemma NeverEarly(start: nat, beats: seq<Beat>, k: nat)
    requires k < |beats|
    ensures EvaluatedAt(start, beats, k) >= Nominal(start, k)
  {
  }

  function MinuteOf(t: int): int { t / MINUTE }

  /** How far behind its nominal minute the k-th evaluation comes, from the delays alone: what a
      beat overruns its minute by carries over, with the second that the timer is re-armed for. */
  function Lateness(beats: seq<Beat>, k: nat): nat
    requires k < |beats|
  {
    if k == 0 then beats[0].lag
    else
      var over := Lateness(beats, k - 1) + beats[k - 1].work - MINUTE;
      (if over < 0 then 0 else over + SECOND) + beats[k].lag
  }

  lemma {:induction false} EvaluatedLate(start: nat, beats: seq<Beat>, k: nat)
    requires k < |beats|
    ensures EvaluatedAt(start, beats, k) == Nominal(start, k) + Lateness(beats, k)
  {
    if k > 0 { EvaluatedLate(start, beats, k - 1); }
  }

  lemma NominalMinute(start: nat, k: nat, late: nat)
    ensures MinuteOf(Nominal(start, k) + late) == MinuteOf(FirstMinute(start)) + k + late / MINUTE
  {
  }

  /** The timer in nanoseconds: first for the next full minute after the start; then for the minute
      after the last nominal one, or one second from now when that has passed already. */
  lemma TimerExactly(start: nat, beats: seq<Beat>, k: nat)
    requires k < |beats|
    ensures start < FirstMinute(start) <= start + 60_000_000_000 && FirstMinute(start) % 60_000_000_000 == 0
    ensures FireAt(start, beats, 0) == FirstMinute(start)
    ensures EvaluatedAt(start, beats, k) == FireAt(start, beats, k) + beats[k].lag
    ensures var over := EvaluatedAt(start, beats, k) + beats[k].work;
            var next := FirstMinute(start) + (k + 1) * 60_000_000_000;
            FireAt(start, beats, k + 1) == if over < next then next else over + 1_000_000_000
    ensures MinuteOf(start) == start / 60_000_000_000
  {
  }

  predicate InItsMinute(start: nat, beats: seq<Beat>, k: nat)
    requires k < |beats|
  {
    MinuteOf(EvaluatedAt(start, beats, k)) == MinuteOf(FirstMinute(start)) + k
  }

  predicate KeepsUp(beats: seq<Beat>, k: nat)
    requires k < |beats|
  {
    Lateness(beats, k) < MINUTE
  }

  /** Each minute is evaluated exactly once and in order exactly when no delay, carried over as
      above, reaches a minute. */
  lemma OncePerMinuteExactly(start: nat, beats: seq<Beat>)
    ensures (forall k :: 0 <= k < |beats| ==> InItsMinute(start, beats, k))
            <==> (forall k :: 0 <= k < |beats| ==> KeepsUp(beats, k))
  {
    forall k | 0 <= k < |beats| ensures InItsMinute(start, beats, k) <==> KeepsUp(beats, k) {
      InItsMinuteExactly(start, beats, k);
    }
  }

  lemma InItsMinuteExactly(start: nat, beats: seq<Beat>, k: nat)
    requires k < |beats|
    ensures InItsMinute(start, beats, k) <==> KeepsUp(beats, k)
  {
    EvaluatedLate(start, beats, k);
    NominalMinute(start, k, Lateness(beats, k));
  }

  // ---- A stall ----------------------------------------------------------------------

  /** Beat p starts on time and takes `stall`; every later one is prompt. */
  ghost predicate Stalls(beats: seq<Beat>, p: nat, stall: nat) {
    && p < |beats| && Lateness(beats, p) == 0 && beats[p].work == stall
    && forall k :: p < k < |beats| ==> beats[k] == Beat(0, 0)
  }

  /** The number of evaluations that come late after the stall, one second apart. */
  function CatchUp(stall: nat): nat { if stall < MINUTE then 0 else (stall - SECOND) / (MINUTE - SECOND) }

  lemma {:induction false} LateAfterStall(beats: seq<Beat>, p: nat, stall: nat, j: nat)
    requires Stalls(beats, p, stall) && j >= 1 && p + j < |beats|
    ensures Lateness(beats, p + j) == if j <= CatchUp(stall) then stall + j * SECOND - j * MINUTE else 0
  {
    if j > 1 { LateAfterStall(beats, p, stall, j - 1); }
  }

  /** The minute, counted from beat p, that the j-th evaluation after it falls in. */
  function Offset(start: nat, beats: seq<Beat>, p: nat, j: nat): int
    requires p + j < |beats|
  {
    MinuteOf(EvaluatedAt(start, beats, p + j)) - MinuteOf(Nominal(start, p))
  }

  /** Some evaluation after beat p falls in the m-th minute from there. */
  ghost predicate Evaluates(start: nat, beats: seq<Beat>, p: nat, m: int) {
    exists j :: 1 <= j && p + j < |beats| && Offset(start, beats, p, j) == m
  }

  lemma OffsetAfterStall(start: nat, beats: seq<Beat>, p: nat, stall: nat, j: nat)
    requires Stalls(beats, p, stall) && j >= 1 && p + j < |beats|
    ensures Offset(start, beats, p, j) == if j <= CatchUp(stall) then (stall + j * SECOND) / MINUTE else j
  {
    LateAfterStall(beats, p, stall, j);
    EvaluatedLate(start, beats, p + j);
    NominalMinute(start, p, 0);
    NominalMinute(start, p + j, Lateness(beats, p + j));
  }

  /** The evaluation after the stall that falls in minute m. */
  lemma MinuteReached(stall: nat, m: nat) returns (j: nat)
    requires stall >= MINUTE && (stall + SECOND) / MINUTE <= m
    ensures 1 <= j <= m
    ensures if m > CatchUp(stall) then j == m else j <= CatchUp(stall) && (stall + j * SECOND) / MINUTE == m
  {
    j := if m > CatchUp(stall) then m
         else if m == (stall + SECOND) / MINUTE then 1
         else (m * MINUTE - stall + SECOND - 1) / SECOND;
  }

  /** After a stall of any length the minutes before (stall + 1 s) / 1 min are skipped, as many
      evaluations as that are repeated within the minutes up to the last late one, and from then
      on there is one evaluation a minute. */
  lemma StallExactly(start: nat, beats: seq<Beat>, p: nat, stall: nat)
    requires Stalls(beats, p, stall) && stall >= MINUTE
    ensures var skip, n := (stall + SECOND) / MINUTE, CatchUp(stall);
            && 1 <= skip <= n
            && (forall j :: 1 <= j <= n && p + j < |beats| ==> skip <= Offset(start, beats, p, j) <= n)
            && (forall j :: n < j && p + j < |beats| ==> Offset(start, beats, p, j) == j)
            && (forall m :: skip <= m && p + m < |beats| && p + n < |beats| ==> Evaluates(start, beats, p, m))
  {
    var skip, n := (stall + SECOND) / MINUTE, CatchUp(stall);
    forall j | 1 <= j && p + j < |beats|
      ensures j <= n ==> skip <= Offset(start, beats, p, j) <= n
      ensures n < j ==> Offset(start, beats, p, j) == j
    {
      OffsetAfterStall(start, beats, p, stall, j);
    }
    forall m | skip <= m && p + m < |beats| && p + n < |beats| ensures Evaluates(start, beats, p, m) {
      var j := MinuteReached(stall, m);
      OffsetAfterStall(start, beats, p, stall, j);
    }
  }

  /** After a stall of 130 s the loop skips one minute and evaluates the next one twice. */
  lemma StallRepeatsAMinute(beats: seq<Beat>)
    requires beats == [Beat(0, 130 * SECOND), Beat(0, 0), Beat(0, 0)]
    ensures MinuteOf(EvaluatedAt(0, beats, 0)) == 1
    ensures MinuteOf(EvaluatedAt(0, beats, 1)) == 3 && MinuteOf(EvaluatedAt(0, beats, 2)) == 3
  {
    EvaluatedLate(0, beats, 0);
    OffsetAfterStall(0, beats, 0, 130 * SECOND, 1);
    OffsetAfterStall(0, beats, 0, 130 * SECOND, 2);
  }
}
