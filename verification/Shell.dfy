/** shellQuote and the command lines of a Git deployment, read back by a tokeniser that follows
    sections 2.2.1 (backslash) and 2.2.2 (single quotes) of the POSIX Shell Command Language
    and refuses every other unquoted special character. */
module Shell {
  import opened Strings
  import opened Wrappers

  datatype Token = Word(text: string) | AndIf

  datatype Mode = Plain | Quoted | Escaped | Ampersand

  datatype Lexer =
    | Lexer(mode: Mode, word: Option<string>, tokens: seq<Token>)
    | Unsupported

  const START := Lexer(Plain, None, [])

  /** Characters read literally outside quotes; every other one must be quoted here. */
  predicate Ordinary(c: char) {
    'a' <= c <= 'z' || 'A' <= c <= 'Z' || '0' <= c <= '9'
    || c == '/' || c == '-' || c == '+' || c == '.' || c == '_' || c == '{' || c == '}'
  }

  function Extended(l: Lexer, c: char, mode: Mode): Lexer
    requires l.Lexer?
  {
    l.(mode := mode, word := Some((if l.word.Some? then l.word.value else "") + [c]))
  }

  function Delimited(l: Lexer): (r: Lexer)
    requires l.Lexer?
    ensures r.Lexer?
  {
    if l.word.None? then l else l.(word := None, tokens := l.tokens + [Word(l.word.value)])
  }

  function Step(l: Lexer, c: char): Lexer {
    if l.Unsupported? then l
    else match l.mode
      case Quoted => if c == '\'' then l.(mode := Plain) else Extended(l, c, Quoted)
      case Escaped => if c == '\n' then l.(mode := Plain) else Extended(l, c, Plain)
      case Ampersand => if c == '&' then l.(mode := Plain, tokens := l.tokens + [AndIf]) else Unsupported
      case Plain =>
        if c == ' ' || c == '\t' then Delimited(l)
        else if c == '\'' then l.(mode := Quoted, word := Some(if l.word.Some? then l.word.value else ""))
        else if c == '\\' then l.(mode := Escaped)
        else if c == '&' then Delimited(l.(mode := Ampersand))
        else if Ordinary(c) then Extended(l, c, Plain)
        else Unsupported
  }

  function Run(l: Lexer, s: string): Lexer
    decreases s
  {
    if s == "" then l else Run(Step(l, s[0]), s[1..])
  }

  /** The tokens of a whole line, or None when it ends inside a quotation or uses something else. */
  function Tokens(s: string): Option<seq<Token>> {
    var l := Run(START, s);
    if l.Unsupported? || l.mode != Plain then None else Some(Delimited(l).tokens)
  }

  // ---- The code ---------------------------------------------------------------------

  /** strings.ReplaceAll(v, "'", `'\''`). */
  function Escape(v: string): string {
    if v == "" then "" else (if v[0] == '\'' then ['\'', '\\', '\'', '\''] else [v[0]]) + Escape(v[1..])
  }

  function ShellQuote(v: string): string { ['\''] + Escape(v) + ['\''] }

  const CLEAN: seq<string> := ["find", "/app", "-mindepth", "1", "-maxdepth", "1", "-exec", "rm", "-rf", "{}", "+"]

  /** git clone, with the branch and the URL as they appear on the line. */
  function Clone(branch: string, url: string): seq<string> {
    ["git", "clone", "--branch"] + [branch, "--single-branch", url, "/app"]
  }

  const ENTER: seq<string> := ["cd", "/app"]
  function Fetch(branch: string): seq<string> { ["git", "fetch", "origin"] + [branch] }
  function Reset(ref: string): seq<string> { ["git", "reset", "--hard"] + [ref] }

  function CloneLine(branch: string, url: string): string {
    Join(CLEAN, ' ') + " && " + Join(Clone(ShellQuote(branch), ShellQuote(url)), ' ')
  }

  function PullLine(branch: string): string {
    Join(ENTER, ' ') + " && " + (Join(Fetch(ShellQuote(branch)), ' ')
    + " && " + Join(Reset("origin/" + ShellQuote(branch)), ' '))
  }

  // ---- Reading it back --------------------------------------------------------------

  lemma {:induction false} RunConcat(l: Lexer, s: string, t: string)
    ensures Run(l, s + t) == Run(Run(l, s), t)
    decreases s
  {
    if s == "" {
      assert s + t == t;
    } else {
      RunConcat(Step(l, s[0]), s[1..], t);
      assert (s + t)[1..] == s[1..] + t;
    }
  }

  lemma RunChar(l: Lexer, c: char)
    ensures Run(l, [c]) == Step(l, c)
  {
    assert Run(Step(l, c), []) == Step(l, c);
  }

  lemma EscapedQuote(l: Lexer, w: string)
    requires l.Lexer? && l.mode == Quoted && l.word == Some(w)
    ensures Run(l, ['\'', '\\', '\'', '\'']) == l.(word := Some(w + ['\'']))
  {
    var s := ['\'', '\\', '\'', '\''];
    assert s[1..] == ['\\', '\'', '\''] && s[1..][1..] == ['\'', '\''] && s[1..][1..][1..] == ['\''];
    var a := Step(l, '\'');
    var b := Step(a, '\\');
    var c := Step(b, '\'');
    assert Run(l, s) == Run(a, s[1..]) == Run(b, s[1..][1..]) == Run(c, ['\'']);
    RunChar(c, '\'');
  }

  lemma {:induction false} EscapeRuns(l: Lexer, v: string)
    requires l.Lexer? && l.mode == Quoted && l.word.Some?
    ensures Run(l, Escape(v)) == l.(word := Some(l.word.value + v))
    decreases v
  {
    if v == "" {
      assert l.word.value + v == l.word.value;
    } else {
      var head := if v[0] == '\'' then ['\'', '\\', '\'', '\''] else [v[0]];
      RunConcat(l, head, Escape(v[1..]));
      if v[0] == '\'' { EscapedQuote(l, l.word.value); } else { RunChar(l, v[0]); }
      var next := l.(word := Some(l.word.value + [v[0]]));
      assert Run(l, head) == next;
      EscapeRuns(next, v[1..]);
      assert l.word.value + v == l.word.value + [v[0]] + v[1..];
    }
  }

  /** Whatever the value, the quoted text adds exactly it to the word being read. */
  lemma QuoteRuns(l: Lexer, v: string)
    requires l.Lexer? && l.mode == Plain
    ensures Run(l, ShellQuote(v)) == l.(word := Some((if l.word.Some? then l.word.value else "") + v))
  {
    RunConcat(l, ['\''] + Escape(v), ['\'']);
    RunConcat(l, ['\''], Escape(v));
    RunChar(l, '\'');
    var inside := Step(l, '\'');
    EscapeRuns(inside, v);
    RunChar(Run(inside, Escape(v)), '\'');
  }

  /** A quoted value is one word, the value itself. */
  lemma QuoteRoundTrip(v: string)
    ensures Tokens(ShellQuote(v)) == Some([Word(v)])
  {
    QuoteRuns(START, v);
    assert "" + v == v;
    assert [] + [Word(v)] == [Word(v)];
  }

  lemma {:induction false} OrdinaryRuns(l: Lexer, s: string)
    requires l.Lexer? && l.mode == Plain && l.word.Some?
    requires forall c :: c in s ==> Ordinary(c)
    ensures Run(l, s) == l.(word := Some(l.word.value + s))
    decreases s
  {
    if s == "" {
      assert l.word.value + s == l.word.value;
    } else {
      assert s[0] in s;
      OrdinaryRuns(Step(l, s[0]), s[1..]);
      assert l.word.value + s == l.word.value + [s[0]] + s[1..];
    }
  }

  /** The piece reads as one word with the given text. */
  ghost predicate Reads(piece: string, text: string) {
    forall tokens :: Run(Lexer(Plain, None, tokens), piece) == Lexer(Plain, Some(text), tokens)
  }

  lemma OrdinaryReads(s: string)
    requires IsPlain(s)
    ensures Reads(s, s)
  {
    forall tokens ensures Run(Lexer(Plain, None, tokens), s) == Lexer(Plain, Some(s), tokens) {
      var l := Lexer(Plain, None, tokens);
      assert "" + [s[0]] == [s[0]];
      assert s[0] in s && Step(l, s[0]) == Lexer(Plain, Some([s[0]]), tokens);
      OrdinaryRuns(Step(l, s[0]), s[1..]);
      assert [s[0]] + s[1..] == s;
    }
  }

  lemma QuoteReads(v: string)
    ensures Reads(ShellQuote(v), v)
  {
    forall tokens ensures Run(Lexer(Plain, None, tokens), ShellQuote(v)) == Lexer(Plain, Some(v), tokens) {
      QuoteRuns(Lexer(Plain, None, tokens), v);
      assert "" + v == v;
    }
  }

  lemma PrefixedQuoteReads(s: string, v: string)
    requires IsPlain(s)
    ensures Reads(s + ShellQuote(v), s + v)
  {
    OrdinaryReads(s);
    forall tokens ensures Run(Lexer(Plain, None, tokens), s + ShellQuote(v)) == Lexer(Plain, Some(s + v), tokens) {
      RunConcat(Lexer(Plain, None, tokens), s, ShellQuote(v));
      QuoteRuns(Lexer(Plain, Some(s), tokens), v);
    }
  }

  function Words(texts: seq<string>): (out: seq<Token>)
    ensures |out| == |texts| && forall i :: 0 <= i < |texts| ==> out[i] == Word(texts[i])
  {
    seq(|texts|, i requires 0 <= i < |texts| => Word(texts[i]))
  }

  ghost predicate AllRead(pieces: seq<string>, texts: seq<string>) {
    |pieces| == |texts| > 0 && forall i :: 0 <= i < |pieces| ==> Reads(pieces[i], texts[i])
  }

  lemma {:induction false} CommandRuns(pieces: seq<string>, texts: seq<string>, tokens: seq<Token>)
    requires AllRead(pieces, texts)
    ensures Run(Lexer(Plain, None, tokens), Join(pieces, ' '))
            == Lexer(Plain, Some(texts[|texts| - 1]), tokens + Words(texts[..|texts| - 1]))
  {
    var l := Lexer(Plain, None, tokens);
    if |pieces| == 1 {
      assert tokens + Words(texts[..0]) == tokens;
    } else {
      RunConcat(l, pieces[0] + [' '], Join(pieces[1..], ' '));
      RunConcat(l, pieces[0], [' ']);
      assert Run(l, pieces[0]) == Lexer(Plain, Some(texts[0]), tokens);
      RunChar(Run(l, pieces[0]), ' ');
      CommandRuns(pieces[1..], texts[1..], tokens + [Word(texts[0])]);
      assert tokens + [Word(texts[0])] + Words(texts[1..][..|texts| - 2]) == tokens + Words(texts[..|texts| - 1]);
    }
  }

  /** A command followed by `&&`. */
  lemma CommandThenAnd(pieces: seq<string>, texts: seq<string>, tokens: seq<Token>)
    requires AllRead(pieces, texts)
    ensures Run(Lexer(Plain, None, tokens), Join(pieces, ' ') + " && ")
            == Lexer(Plain, None, tokens + Words(texts) + [AndIf])
  {
    CommandRuns(pieces, texts, tokens);
    RunConcat(Lexer(Plain, None, tokens), Join(pieces, ' '), " && ");
    var n := |texts| - 1;
    var l := Lexer(Plain, Some(texts[n]), tokens + Words(texts[..n]));
    assert tokens + Words(texts[..n]) + [Word(texts[n])] == tokens + Words(texts);
    var s := " && ";
    assert s[1..] == "&& " && s[1..][1..] == "& " && s[1..][1..][1..] == " ";
    var a := Step(l, ' ');
    var b := Step(a, '&');
    var c := Step(b, '&');
    assert a == Lexer(Plain, None, tokens + Words(texts));
    assert Run(l, s) == Run(a, s[1..]) == Run(b, s[1..][1..]) == Run(c, " ");
    RunChar(c, ' ');
  }

  lemma LastCommand(pieces: seq<string>, texts: seq<string>, tokens: seq<Token>)
    requires AllRead(pieces, texts)
    ensures var l := Run(Lexer(Plain, None, tokens), Join(pieces, ' '));
            l.Lexer? && l.mode == Plain && Delimited(l).tokens == tokens + Words(texts)
  {
    CommandRuns(pieces, texts, tokens);
    var n := |texts| - 1;
    assert tokens + Words(texts[..n]) + [Word(texts[n])] == tokens + Words(texts);
  }

  lemma PlainTexts(texts: seq<string>)
    requires texts != [] && forall i :: 0 <= i < |texts| ==> IsPlain(texts[i])
    ensures AllRead(texts, texts)
  {
    forall i | 0 <= i < |texts| ensures Reads(texts[i], texts[i]) { OrdinaryReads(texts[i]); }
  }

  predicate IsPlain(s: string) { s != "" && forall c :: c in s ==> Ordinary(c) }

  lemma PlainClean()
    ensures forall i :: 0 <= i < |CLEAN| ==> IsPlain(CLEAN[i])
  {
    assert IsPlain("find") && IsPlain("/app") && IsPlain("-mindepth") && IsPlain("1") && IsPlain("-maxdepth");
    assert IsPlain("-exec") && IsPlain("rm") && IsPlain("-rf") && IsPlain("{}") && IsPlain("+");
  }

  lemma CleanReads()
    ensures AllRead(CLEAN, CLEAN)
  {
    PlainClean();
    PlainTexts(CLEAN);
  }

  lemma PlainGit()
    ensures IsPlain("git") && IsPlain("clone") && IsPlain("--branch") && IsPlain("--single-branch") && IsPlain("/app")
    ensures IsPlain("cd") && IsPlain("fetch") && IsPlain("origin") && IsPlain("reset") && IsPlain("--hard")
    ensures IsPlain("origin/")
  {
  }

  lemma ReadsMore(pieces: seq<string>, texts: seq<string>, piece: string, text: string)
    requires Reads(piece, text) && AllRead(pieces, texts)
    ensures AllRead(pieces + [piece], texts + [text])
  {
  }

  lemma PlainMore(pieces: seq<string>, texts: seq<string>, word: string)
    requires IsPlain(word) && AllRead(pieces, texts)
    ensures AllRead(pieces + [word], texts + [word])
  {
    OrdinaryReads(word);
    ReadsMore(pieces, texts, word, word);
  }

  lemma CloneReads(branch: string, url: string)
    ensures AllRead(Clone(ShellQuote(branch), ShellQuote(url)), Clone(branch, url))
  {
    PlainGit();
    var head := ["git", "clone", "--branch"];
    PlainTexts(head);
    QuoteReads(branch);
    QuoteReads(url);
    CloneReadsFrom(head, "--single-branch", "/app", ShellQuote(branch), branch, ShellQuote(url), url);
  }

  lemma CloneReadsFrom(head: seq<string>, flag: string, dir: string, b: string, branch: string, u: string, url: string)
    requires AllRead(head, head) && IsPlain(flag) && IsPlain(dir) && Reads(b, branch) && Reads(u, url)
    ensures AllRead(head + [b, flag, u, dir], head + [branch, flag, url, dir])
  {
    ReadsMore(head, head, b, branch);
    PlainMore(head + [b], head + [branch], flag);
    ReadsMore(head + [b] + [flag], head + [branch] + [flag], u, url);
    PlainMore(head + [b] + [flag] + [u], head + [branch] + [flag] + [url], dir);
    assert head + [b] + [flag] + [u] + [dir] == head + [b, flag, u, dir];
    assert head + [branch] + [flag] + [url] + [dir] == head + [branch, flag, url, dir];
  }

  lemma PullReads(branch: string)
    ensures AllRead(ENTER, ENTER) && AllRead(Fetch(ShellQuote(branch)), Fetch(branch))
    ensures AllRead(Reset("origin/" + ShellQuote(branch)), Reset("origin/" + branch))
  {
    PlainGit();
    PlainTexts(ENTER);
    var fetch, reset := ["git", "fetch", "origin"], ["git", "reset", "--hard"];
    PlainTexts(fetch);
    PlainTexts(reset);
    QuoteReads(branch);
    PrefixedQuoteReads("origin/", branch);
    ReadsMore(fetch, fetch, ShellQuote(branch), branch);
    ReadsMore(reset, reset, "origin/" + ShellQuote(branch), "origin/" + branch);
  }

  lemma TwoCommands(first: seq<string>, firstTexts: seq<string>, last: seq<string>, lastTexts: seq<string>,
                    tokens: seq<Token>)
    requires AllRead(first, firstTexts) && AllRead(last, lastTexts)
    ensures var l := Run(Lexer(Plain, None, tokens), Join(first, ' ') + " && " + Join(last, ' '));
            l.Lexer? && l.mode == Plain
            && Delimited(l).tokens == tokens + Words(firstTexts) + [AndIf] + Words(lastTexts)
  {
    CommandThenAnd(first, firstTexts, tokens);
    LastCommand(last, lastTexts, tokens + Words(firstTexts) + [AndIf]);
    RunConcat(Lexer(Plain, None, tokens), Join(first, ' ') + " && ", Join(last, ' '));
  }

  /** For any branch and URL the clone line is the two intended commands, the user's values whole. */
  lemma CloneTokens(branch: string, url: string)
    ensures Tokens(CloneLine(branch, url)) == Some(Words(CLEAN) + [AndIf] + Words(Clone(branch, url)))
  {
    CleanReads();
    CloneReads(branch, url);
    LineTokens(CLEAN, CLEAN, Clone(ShellQuote(branch), ShellQuote(url)), Clone(branch, url));
  }

  lemma LineTokens(first: seq<string>, firstTexts: seq<string>, last: seq<string>, lastTexts: seq<string>)
    requires AllRead(first, firstTexts) && AllRead(last, lastTexts)
    ensures Tokens(Join(first, ' ') + " && " + Join(last, ' ')) == Some(Words(firstTexts) + [AndIf] + Words(lastTexts))
  {
    TwoCommands(first, firstTexts, last, lastTexts, []);
    assert [] + Words(firstTexts) == Words(firstTexts);
  }

  /** For any branch the update line is the three intended commands. */
  lemma PullTokens(branch: string)
    ensures Tokens(PullLine(branch)) ==
            Some(Words(ENTER) + [AndIf] + Words(Fetch(branch)) + [AndIf] + Words(Reset("origin/" + branch)))
  {
    PullReads(branch);
    var fetch, reset := Fetch(ShellQuote(branch)), Reset("origin/" + ShellQuote(branch));
    CommandThenAnd(ENTER, ENTER, []);
    assert [] + Words(ENTER) + [AndIf] == Words(ENTER) + [AndIf];
    TwoCommands(fetch, Fetch(branch), reset, Reset("origin/" + branch), Words(ENTER) + [AndIf]);
    RunConcat(START, Join(ENTER, ' ') + " && ", Join(fetch, ' ') + " && " + Join(reset, ' '));
  }

  /** Spelled out: what the shell is asked to run, the branch and the URL as whole arguments. */
  lemma CommandsExactly(branch: string, url: string)
    ensures Tokens(CloneLine(branch, url)) ==
            Some(Words(["find", "/app", "-mindepth", "1", "-maxdepth", "1", "-exec", "rm", "-rf", "{}", "+"])
                 + [AndIf] + Words(["git", "clone", "--branch", branch, "--single-branch", url, "/app"]))
    ensures Tokens(PullLine(branch)) ==
            Some(Words(["cd", "/app"]) + [AndIf] + Words(["git", "fetch", "origin", branch])
                 + [AndIf] + Words(["git", "reset", "--hard", "origin/" + branch]))
  {
    CloneTokens(branch, url);
    PullTokens(branch);
    Spelled(branch, url);
    Spelled(branch, "origin/" + branch);
  }

  lemma Spelled(branch: string, url: string)
    ensures CLEAN == ["find", "/app", "-mindepth", "1", "-maxdepth", "1", "-exec", "rm", "-rf", "{}", "+"]
    ensures Clone(branch, url) == ["git", "clone", "--branch", branch, "--single-branch", url, "/app"]
    ensures ENTER == ["cd", "/app"] && Fetch(branch) == ["git", "fetch", "origin", branch]
    ensures Reset(url) == ["git", "reset", "--hard", url]
  {
  }
}
