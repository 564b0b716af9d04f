/** Go string operations used by the modelled code: byte order, strings.Join, Cut, Split,
    SplitN, TrimSpace, Fields, and strconv.Itoa / Atoi. A string is a sequence of code
    points; for UTF-8 text the byte order is the code point order. */
module Strings {
  import opened Wrappers

  // ---- Order ------------------------------------------------------------------------

  predicate Less(a: string, b: string) {
    if b == "" then false
    else if a == "" then true
    else a[0] < b[0] || (a[0] == b[0] && Less(a[1..], b[1..]))
  }

  lemma {:induction false} LessIrreflexive(a: string)
    ensures !Less(a, a)
  {
    if a != "" { LessIrreflexive(a[1..]); }
  }

  lemma {:induction false} LessTransitive(a: string, b: string, c: string)
    requires Less(a, b) && Less(b, c)
    ensures Less(a, c)
  {
    if a != "" && a[0] == b[0] == c[0] { LessTransitive(a[1..], b[1..], c[1..]); }
  }

  lemma {:induction false} LessTotal(a: string, b: string)
    ensures Less(a, b) || a == b || Less(b, a)
  {
    if a != "" && b != "" && a[0] == b[0] {
      LessTotal(a[1..], b[1..]);
      assert a == [a[0]] + a[1..] && b == [b[0]] + b[1..];
    }
  }

  /** The order in its own words: a proper prefix, or the smaller character where they first differ. */
  lemma {:induction false} LessExactly(a: string, b: string)
    ensures Less(a, b)
            <==> exists n :: 0 <= n <= |a| && n < |b| && a[..n] == b[..n] && (n == |a| || a[n] < b[n])
  {
    if a == "" || b == "" {
      if b != "" { assert a[..0] == b[..0]; }
    } else {
      LessExactly(a[1..], b[1..]);
      if Less(a, b) {
        if a[0] < b[0] {
          assert a[..0] == b[..0];
        } else {
          var n :| 0 <= n <= |a[1..]| && n < |b[1..]| && a[1..][..n] == b[1..][..n]
                   && (n == |a[1..]| || a[1..][n] < b[1..][n]);
          assert a[..n + 1] == [a[0]] + a[1..][..n] && b[..n + 1] == [b[0]] + b[1..][..n];
        }
      }
      if n :| 0 <= n <= |a| && n < |b| && a[..n] == b[..n] && (n == |a| || a[n] < b[n]) {
        if n > 0 {
          assert a[..n][0] == a[0] && b[..n][0] == b[0];
          assert a[1..][..n - 1] == a[..n][1..] && b[1..][..n - 1] == b[..n][1..];
        }
      }
    }
  }

  predicate StrictlySorted(xs: seq<string>) {
    forall i, j :: 0 <= i < j < |xs| ==> Less(xs[i], xs[j])
  }

  /** The first name of a strictly increasing list is the least of its names. */
  lemma FirstIsLeast(xs: seq<string>, ys: seq<string>)
    requires StrictlySorted(xs) && StrictlySorted(ys) && xs != [] && ys != []
    requires xs[0] in ys && ys[0] in xs
    ensures xs[0] == ys[0]
  {
    var i :| 0 <= i < |ys| && ys[i] == xs[0];
    var j :| 0 <= j < |xs| && xs[j] == ys[0];
    if i > 0 && j > 0 {
      LessTransitive(xs[0], ys[0], xs[0]);
      LessIrreflexive(xs[0]);
    }
  }

  lemma TailMembers(xs: seq<string>, x: string)
    requires StrictlySorted(xs) && xs != []
    ensures x in xs[1..] <==> x in xs && x != xs[0]
  {
    LessIrreflexive(xs[0]);
    assert xs == [xs[0]] + xs[1..];
    if x in xs[1..] {
      var i :| 0 <= i < |xs[1..]| && xs[1..][i] == x;
      assert Less(xs[0], xs[i + 1]);
    }
  }

  /** A strictly increasing list is determined by the names it holds. */
  lemma {:induction false} StrictlySortedUnique(xs: seq<string>, ys: seq<string>)
    requires StrictlySorted(xs) && StrictlySorted(ys)
    requires forall x {:trigger x in xs} {:trigger x in ys} :: x in xs <==> x in ys
    ensures xs == ys
  {
    assert |xs| > 0 ==> xs[0] in xs && xs[0] in ys;
    assert |ys| > 0 ==> ys[0] in ys && ys[0] in xs;
    if xs != [] {
      FirstIsLeast(xs, ys);
      forall x ensures x in xs[1..] <==> x in ys[1..] {
        TailMembers(xs, x);
        TailMembers(ys, x);
      }
      StrictlySortedUnique(xs[1..], ys[1..]);
      assert xs == [xs[0]] + xs[1..] && ys == [ys[0]] + ys[1..];
    }
  }

  // ---- Join, Cut, Split -------------------------------------------------------------

  function Join(parts: seq<string>, sep: char): string {
    if |parts| == 0 then ""
    else if |parts| == 1 then parts[0]
    else parts[0] + [sep] + Join(parts[1..], sep)
  }

  /** strings.Cut: the text around the first separator, or None when there is none. */
  function Cut(s: string, sep: char): (r: Option<(string, string)>)
    ensures r.None? <==> sep !in s
    ensures r.Some? ==> s == r.value.0 + [sep] + r.value.1 && sep !in r.value.0
  {
    if s == "" then None
    else if s[0] == sep then Some(("", s[1..]))
    else match Cut(s[1..], sep)
      case None => None
      case Some(p) => Some(([s[0]] + p.0, p.1))
  }

  lemma {:induction false} CutAt(a: string, sep: char, b: string)
    requires sep !in a
    ensures Cut(a + [sep] + b, sep) == Some((a, b))
  {
    if a == "" {
      assert "" + [sep] + b == [sep] + b;
    } else {
      CutAt(a[1..], sep, b);
      assert a == [a[0]] + a[1..] && a[0] in a;
      assert (a + [sep] + b)[1..] == a[1..] + [sep] + b;
    }
  }

  function Split(s: string, sep: char): (r: seq<string>)
    ensures |r| > 0
    decreases |s|
  {
    match Cut(s, sep)
    case None => [s]
    case Some(p) => [p.0] + Split(p.1, sep)
  }

  /** strings.SplitN for n >= 1. */
  function SplitN(s: string, sep: char, n: nat): (r: seq<string>)
    requires n > 0
    ensures 0 < |r| <= n
    decreases n
  {
    if n == 1 then [s]
    else match Cut(s, sep)
      case None => [s]
      case Some(p) => [p.0] + SplitN(p.1, sep, n - 1)
  }

  lemma {:induction false} SplitJoin(parts: seq<string>, sep: char)
    requires parts != []
    requires forall p :: p in parts ==> sep !in p
    ensures Split(Join(parts, sep), sep) == parts
  {
    if |parts| > 1 {
      SplitJoin(parts[1..], sep);
      CutAt(parts[0], sep, Join(parts[1..], sep));
      assert parts == [parts[0]] + parts[1..];
    }
  }

  lemma SplitAt(a: string, sep: char, b: string)
    requires sep !in a
    ensures Split(a + [sep] + b, sep) == [a] + Split(b, sep)
  {
    CutAt(a, sep, b);
  }

  /** The same with the text given as it stands. */
  lemma SplitFirst(s: string, x: string, sep: char, rest: string)
    requires sep !in x && s == x + [sep] + rest
    ensures Split(s, sep) == [x] + Split(rest, sep)
  {
    SplitAt(x, sep, rest);
  }

  lemma SplitConcatStep(x: string, sep: char, y: string, b: string)
    requires sep !in x && Split(y + [sep] + b, sep) == Split(y, sep) + Split(b, sep)
    ensures Split((x + [sep] + y) + [sep] + b, sep) == Split(x + [sep] + y, sep) + Split(b, sep)
  {
    var head, tail := x + [sep] + y, y + [sep] + b;
    var whole := head + [sep] + b;
    assert whole == x + [sep] + tail;
    SplitFirst(whole, x, sep, tail);
    SplitFirst(head, x, sep, y);
    Regroup(x, Split(y, sep), Split(b, sep));
  }

  lemma Regroup(x: string, ys: seq<string>, zs: seq<string>)
    ensures [x] + (ys + zs) == ([x] + ys) + zs
  {
  }

  lemma {:induction false} SplitConcat(a: string, sep: char, b: string)
    ensures Split(a + [sep] + b, sep) == Split(a, sep) + Split(b, sep)
    decreases |a|
  {
    var cut := Cut(a, sep);
    if cut.None? {
      SplitAt(a, sep, b);
    } else {
      SplitConcat(cut.value.1, sep, b);
      SplitConcatStep(cut.value.0, sep, cut.value.1, b);
    }
  }

  lemma JoinInjective(xs: seq<string>, ys: seq<string>, sep: char)
    requires xs != [] && ys != []
    requires forall p :: p in xs || p in ys ==> sep !in p
    requires Join(xs, sep) == Join(ys, sep)
    ensures xs == ys
  {
    SplitJoin(xs, sep);
    SplitJoin(ys, sep);
  }

  predicate HasPrefix(s: string, prefix: string) { prefix <= s }

  // ---- White space ------------------------------------------------------------------

  /** unicode.IsSpace. */
  predicate IsSpace(c: char) {
    var n := c as int;
    9 <= n <= 13 || n == 32 || n == 0x85 || n == 0xA0 || n == 0x1680 || 0x2000 <= n <= 0x200A
    || n == 0x2028 || n == 0x2029 || n == 0x202F || n == 0x205F || n == 0x3000
  }

  function TrimLeft(s: string): string {
    if s != "" && IsSpace(s[0]) then TrimLeft(s[1..]) else s
  }

  function TrimRight(s: string): string {
    if s != "" && IsSpace(s[|s| - 1]) then TrimRight(s[..|s| - 1]) else s
  }

  function TrimSpace(s: string): string { TrimRight(TrimLeft(s)) }

  predicate NoSpace(s: string) { forall c :: c in s ==> !IsSpace(c) }

  predicate OnlySpace(s: string) { forall c :: c in s ==> IsSpace(c) }

  /** Exactly the white space around the text goes. */
  predicate IsTrimmed(s: string, before: string, t: string, after: string) {
    s == before + t + after && OnlySpace(before) && OnlySpace(after)
    && (t != "" ==> !IsSpace(t[0]) && !IsSpace(t[|t| - 1])) && (t == "" ==> after == "")
  }

  lemma {:induction false} LeftTrimmed(s: string) returns (before: string)
    ensures s == before + TrimLeft(s) && OnlySpace(before) && (TrimLeft(s) != "" ==> !IsSpace(TrimLeft(s)[0]))
  {
    if s != "" && IsSpace(s[0]) {
      before := LeftTrimmed(s[1..]);
      before := [s[0]] + before;
    } else {
      before := "";
    }
  }

  lemma {:induction false} RightTrimmed(s: string) returns (after: string)
    ensures s == TrimRight(s) + after && OnlySpace(after)
    ensures TrimRight(s) != "" ==> !IsSpace(TrimRight(s)[|TrimRight(s)| - 1])
  {
    if s != "" && IsSpace(s[|s| - 1]) {
      after := RightTrimmed(s[..|s| - 1]);
      after := after + [s[|s| - 1]];
    } else {
      after := "";
    }
  }

  /** strings.TrimSpace: what is left begins and ends with something else than white space. */
  lemma TrimSpaceExactly(s: string) returns (before: string, after: string)
    ensures IsTrimmed(s, before, TrimSpace(s), after)
  {
    before := LeftTrimmed(s);
    var t := TrimLeft(s);
    after := RightTrimmed(t);
    assert s == before + TrimSpace(s) + after;
  }

  lemma {:induction false} TrimLeftGap(before: string, rest: string)
    requires OnlySpace(before) && rest != "" && !IsSpace(rest[0])
    ensures TrimLeft(before + rest) == rest
  {
    if before == "" {
      assert before + rest == rest;
    } else {
      assert before[0] in before;
      assert forall c :: c in before[1..] ==> c in before;
      TrimLeftGap(before[1..], rest);
      assert (before + rest)[1..] == before[1..] + rest;
    }
  }

  lemma {:induction false} TrimRightGap(t: string, after: string)
    requires OnlySpace(after) && t != "" && !IsSpace(t[|t| - 1])
    ensures TrimRight(t + after) == t
  {
    if after == "" {
      assert t + after == t;
    } else {
      assert after[|after| - 1] in after;
      assert forall c :: c in after[..|after| - 1] ==> c in after;
      TrimRightGap(t, after[..|after| - 1]);
      assert (t + after)[..|t + after| - 1] == t + after[..|after| - 1];
    }
  }

  lemma TrimSpaced(before: string, t: string, after: string)
    requires OnlySpace(before) && OnlySpace(after) && t != "" && !IsSpace(t[0]) && !IsSpace(t[|t| - 1])
    ensures TrimSpace(before + t + after) == t
  {
    assert before + t + after == before + (t + after);
    TrimLeftGap(before, t + after);
    TrimRightGap(t, after);
  }

  lemma TrimNoSpace(s: string)
    requires NoSpace(s)
    ensures TrimSpace(s) == s
  {
    if s != "" { assert s[0] in s && s[|s| - 1] in s; }
  }

  /** The longest prefix without white space. */
  function Word(s: string): (w: string)
    ensures |w| <= |s| && w == s[..|w|] && NoSpace(w)
    ensures |w| < |s| ==> IsSpace(s[|w|])
  {
    if s == "" || IsSpace(s[0]) then ""
    else
      var w := Word(s[1..]);
      assert s[..1 + |w|] == [s[0]] + s[1..][..|w|];
      [s[0]] + w
  }

  function Fields(s: string): seq<string>
    decreases |s|
  {
    if s == "" then []
    else if IsSpace(s[0]) then Fields(s[1..])
    else [Word(s)] + Fields(s[|Word(s)|..])
  }

  lemma {:induction false} WordAt(w: string, rest: string)
    requires NoSpace(w) && (rest == "" || IsSpace(rest[0]))
    ensures Word(w + rest) == w
  {
    if w == "" {
      assert w + rest == rest;
    } else {
      WordAt(w[1..], rest);
      assert (w + rest)[1..] == w[1..] + rest;
    }
  }

  lemma {:induction false} FieldsJoin(words: seq<string>)
    requires forall w :: w in words ==> w != "" && NoSpace(w)
    ensures Fields(Join(words, ' ')) == words
  {
    if |words| == 1 {
      WordAt(words[0], "");
      assert words[0] + "" == words[0];
      assert Fields(words[0]) == [words[0]] + Fields("");
    } else if |words| > 1 {
      var rest := " " + Join(words[1..], ' ');
      var s := words[0] + rest;
      assert Join(words, ' ') == s;
      WordAt(words[0], rest);
      assert forall w :: w in words[1..] ==> w in words;
      FieldsJoin(words[1..]);
      assert s[|words[0]|..] == rest;
      assert rest[1..] == Join(words[1..], ' ');
    }
  }

  /** Words between gaps: the first and the last gap may be empty. */
  function Spaced(gaps: seq<string>, words: seq<string>): string
    requires |gaps| == |words| + 1
  {
    if words == [] then gaps[0] else gaps[0] + words[0] + Spaced(gaps[1..], words[1..])
  }

  predicate AreGaps(gaps: seq<string>) {
    && (forall i :: 0 <= i < |gaps| ==> OnlySpace(gaps[i]))
    && (forall i :: 0 < i < |gaps| - 1 ==> gaps[i] != "")
  }

  lemma {:induction false} FieldsSkip(gap: string, rest: string)
    requires OnlySpace(gap)
    ensures Fields(gap + rest) == Fields(rest)
  {
    if gap == "" {
      assert gap + rest == rest;
    } else {
      assert gap[0] in gap;
      assert forall c :: c in gap[1..] ==> c in gap;
      FieldsSkip(gap[1..], rest);
      assert (gap + rest)[1..] == gap[1..] + rest;
    }
  }

  lemma FieldsWord(w: string, rest: string)
    requires w != "" && NoSpace(w) && (rest == "" || IsSpace(rest[0]))
    ensures Fields(w + rest) == [w] + Fields(rest)
  {
    WordAt(w, rest);
    assert (w + rest)[0] in w && (w + rest)[|w|..] == rest;
  }

  lemma SpacedStart(gaps: seq<string>, words: seq<string>)
    requires |gaps| == |words| + 1 && OnlySpace(gaps[0]) && (words != [] ==> gaps[0] != "")
    ensures Spaced(gaps, words) == "" || IsSpace(Spaced(gaps, words)[0])
  {
    if gaps[0] != "" {
      assert Spaced(gaps, words)[0] == gaps[0][0] && gaps[0][0] in gaps[0];
    }
  }

  /** strings.Fields finds the words whatever white space stands around and between them. */
  lemma {:induction false} FieldsSpaced(gaps: seq<string>, words: seq<string>)
    requires |gaps| == |words| + 1 && AreGaps(gaps)
    requires forall i :: 0 <= i < |words| ==> words[i] != "" && NoSpace(words[i])
    ensures Fields(Spaced(gaps, words)) == words
  {
    if words == [] {
      FieldsSkip(gaps[0], "");
      assert gaps[0] + "" == gaps[0];
    } else {
      var rest := Spaced(gaps[1..], words[1..]);
      FieldsSpaced(gaps[1..], words[1..]);
      SpacedStart(gaps[1..], words[1..]);
      FieldsWord(words[0], rest);
      FieldsSkip(gaps[0], words[0] + rest);
      assert gaps[0] + words[0] + rest == gaps[0] + (words[0] + rest);
    }
  }

  // ---- Decimal numbers --------------------------------------------------------------

  predicate IsDigit(c: char) { '0' <= c <= '9' }

  function DigitValue(c: char): (d: nat)
    requires IsDigit(c)
    ensures d < 10
  {
    c as int - '0' as int
  }

  function DigitChar(d: nat): (c: char)
    requires d < 10
    ensures IsDigit(c) && DigitValue(c) == d
  {
    ('0' as int + d) as char
  }

  /** strconv.Itoa on a natural number. */
  function Itoa(n: nat): (s: string)
    ensures s != "" && forall c :: c in s ==> IsDigit(c)
  {
    if n < 10 then [DigitChar(n)] else Itoa(n / 10) + [DigitChar(n % 10)]
  }

  function DigitsValue(s: string): nat
    requires forall c :: c in s ==> IsDigit(c)
  {
    if s == "" then 0 else DigitsValue(s[..|s| - 1]) * 10 + DigitValue(s[|s| - 1])
  }

  const MAX_INT64: int := 0x7FFF_FFFF_FFFF_FFFF

  /** strconv.Atoi: an optional sign, at least one digit, and a 64-bit result; None is its error. */
  function Atoi(s: string): (r: Option<int>) {
    var signed := s != "" && (s[0] == '+' || s[0] == '-');
    var digits := if signed then s[1..] else s;
    if digits == "" || exists c :: c in digits && !IsDigit(c) then None
    else
      var n := DigitsValue(digits);
      if signed && s[0] == '-' then (if n <= MAX_INT64 + 1 then Some(0 - n) else None)
      else if n <= MAX_INT64 then Some(n) else None
  }

  /** The texts strconv.Atoi takes for n. */
  ghost predicate IsNumeral(s: string, n: int) {
    exists sign: string, digits: string ::
      && s == sign + digits && sign in {"", "+", "-"}
      && digits != "" && (forall c :: c in digits ==> IsDigit(c))
      && n == (if sign == "-" then 0 - DigitsValue(digits) else DigitsValue(digits))
      && -0x8000_0000_0000_0000 <= n <= 0x7FFF_FFFF_FFFF_FFFF
  }

  lemma AtoiIsNumeral(s: string, n: int)
    requires Atoi(s) == Some(n)
    ensures IsNumeral(s, n)
  {
    if s[0] == '+' || s[0] == '-' {
      var sign := if s[0] == '+' then "+" else "-";
      assert s == sign + s[1..];
    } else {
      assert s == "" + s;
    }
  }

  lemma NumeralIsAtoi(sign: string, digits: string)
    requires sign in {"", "+", "-"} && digits != "" && forall c :: c in digits ==> IsDigit(c)
    ensures var n: int := if sign == "-" then 0 - DigitsValue(digits) else DigitsValue(digits);
            -0x8000_0000_0000_0000 <= n <= 0x7FFF_FFFF_FFFF_FFFF ==> Atoi(sign + digits) == Some(n)
  {
    var s := sign + digits;
    assert digits[0] in digits;
    if sign == "" {
      assert s == digits;
    } else {
      assert s[1..] == digits;
    }
  }

  lemma AtoiExactly(s: string, n: int)
    ensures Atoi(s) == Some(n) <==> IsNumeral(s, n)
  {
    if Atoi(s) == Some(n) { AtoiIsNumeral(s, n); }
    if IsNumeral(s, n) {
      var sign: string, digits: string :|
        && s == sign + digits && sign in {"", "+", "-"}
        && digits != "" && (forall c :: c in digits ==> IsDigit(c))
        && n == (if sign == "-" then 0 - DigitsValue(digits) else DigitsValue(digits))
        && -0x8000_0000_0000_0000 <= n <= 0x7FFF_FFFF_FFFF_FFFF;
      NumeralIsAtoi(sign, digits);
    }
  }

  lemma {:induction false} ItoaValue(n: nat)
    ensures DigitsValue(Itoa(n)) == n
  {
    if n >= 10 {
      ItoaValue(n / 10);
      assert Itoa(n)[..|Itoa(n)| - 1] == Itoa(n / 10);
    }
  }

  lemma AtoiItoa(n: nat)
    requires n <= MAX_INT64
    ensures Atoi(Itoa(n)) == Some(n)
  {
    ItoaValue(n);
    assert IsDigit(Itoa(n)[0]);
  }
}
