/** What the lexer loses: the quote of a string that is not closed, and nothing else. */
module LexQuotes {
  import opened Ast
  import opened ConditionGrammar
  import opened LexSpec

  /** The number of quotes. */
  function Quotes(s: string): nat {
    if s == "" then 0 else Quotes(s[..|s| - 1]) + if s[|s| - 1] == '"' then 1 else 0
  }

  lemma {:induction false} QuotesCat(a: string, b: string)
    ensures Quotes(a + b) == Quotes(a) + Quotes(b)
    decreases |b|
  {
    if b == "" {
      assert a + b == a;
    } else {
      var c := a + b;
      assert c[..|c| - 1] == a + b[..|b| - 1];
      QuotesCat(a, b[..|b| - 1]);
    }
  }

  lemma {:induction false} NoQuotes(s: string)
    requires '"' !in s
    ensures Quotes(s) == 0
    decreases |s|
  {
    if s != "" { NoQuotes(s[..|s| - 1]); }
  }

  /** What stands behind the last quote, or all of the text. */
  function Behind(s: string): (v: string)
    ensures |v| <= |s| && s[|s| - |v|..] == v && '"' !in v
    ensures |v| < |s| ==> s[|s| - |v| - 1] == '"'
  {
    if s == "" || s[|s| - 1] == '"' then ""
    else
      var v := Behind(s[..|s| - 1]);
      assert s[|s| - |v| - 1..] == s[..|s| - 1][|s| - 1 - |v|..] + [s[|s| - 1]];
      v + [s[|s| - 1]]
  }

  lemma {:induction false} BehindIs(s: string, q: nat)
    requires q < |s| && s[q] == '"' && '"' !in s[q + 1..]
    ensures Behind(s) == s[q + 1..]
    decreases |s|
  {
    var n := |s| - 1;
    if q < n {
      var init, v := s[..n], s[q + 1..];
      assert v == init[q + 1..] + [s[n]];
      BehindIs(init, q);
    }
  }

  /** Whether a string that is not closed comes from `p` on. */
  predicate Unclosed(s: string, p: nat)
    requires p <= |s|
    decreases |s| - p
  {
    var (l, e) := Next(s, p);
    l.token != END && ((s[l.start] == '"' && l.token.kind == Invalid) || Unclosed(s, e))
  }

  /** A quote and what follows it up to `q`, where the text ends or the next quote stands. */
  lemma QuotedPart(s: string, p: nat, q: nat)
    requires p < q <= |s| && s[p] == '"' && forall i :: p < i < q ==> NotQuote(s[i])
    ensures '"' !in s[p + 1..q] && s[p..q] == "\"" + s[p + 1..q] && Quotes(s[p..q]) == 1
    ensures q < |s| && s[q] == '"' ==>
      Writes(s[p..q + 1], Token(StringLiteral, s[p + 1..q])) && Quotes(s[p..q + 1]) == 2
    ensures q == |s| ==> s[p + 1..] == s[p + 1..q] && Behind(s) == s[p + 1..q]
  {
    hide Quotes, Behind, Writes, Lexeme;
    var v := s[p + 1..q];
    forall i | 0 <= i < |v| ensures v[i] != '"' { assert v[i] == s[p + 1 + i]; }
    QuotesAround(v);
    assert s[p..q] == "\"" + v;
    if q == |s| {
      assert s[p + 1..] == v;
      BehindIs(s, p);
    } else if s[q] == '"' {
      assert s[p..q + 1] == "\"" + v + "\"";
      QuotesWrite(v);
    }
  }

  lemma QuotesAround(v: string)
    requires forall i :: 0 <= i < |v| ==> v[i] != '"'
    ensures Quotes("\"" + v) == 1 && Quotes("\"" + v + "\"") == 2
  {
    hide Quotes;
    NoQuotes(v);
    OneQuote();
    QuotesCat("\"", v);
    QuotesCat("\"" + v, "\"");
  }

  lemma QuotesWrite(v: string)
    ensures Writes("\"" + v + "\"", Token(StringLiteral, v))
  {
  }

  lemma ScanString(s: string, p: nat)
    requires p < |s| && s[p] == '"'
    ensures var (t, e) := Scan(s, p);
      && '"' !in t.value && (t.kind == Invalid || t.kind == StringLiteral)
      && (if t.kind == Invalid then e == |s| && Quotes(s[p..e]) == 1 && t == Token(Invalid, Behind(s))
          else Quotes(s[p..e]) == 2 && Writes(s[p..e], t))
  {
    hide Scan, Quotes, Behind, RunEnd, NotQuote, Writes;
    var q := ScanOfQuote(s, p);
    QuotedPart(s, p, q);
  }

  lemma ScanOfQuote(s: string, p: nat) returns (q: nat)
    requires p < |s| && s[p] == '"'
    ensures p < q <= |s| && (forall i :: p < i < q ==> NotQuote(s[i])) && (q < |s| ==> s[q] == '"')
    ensures Scan(s, p) == if q == |s| then (Token(Invalid, s[p + 1..]), q)
      else (Token(StringLiteral, s[p + 1..q]), q + 1)
  {
    q := RunEnd(s, p + 1, NotQuote);
  }

  lemma OneQuote()
    ensures Quotes("\"") == 1
  {
    assert "\""[..0] == "";
  }

  /** The token at `p`: the quotes it takes, and what it is. */
  lemma ScanQuotes(s: string, p: nat)
    requires p < |s| && !IsSpace(s[p])
    ensures var (t, e) := Scan(s, p);
      && '"' !in t.value
      && (if s[p] == '"' && t.kind == Invalid then
            e == |s| && Quotes(s[p..e]) == 1 && t == Token(Invalid, Behind(s))
          else Quotes(s[p..e]) % 2 == 0 && Relexable(t) && Writes(s[p..e], t))
  {
    hide Scan, Lexable, Quotes, Writes;
    ScannedIsLexable(s, p);
    if s[p] == '"' {
      ScanString(s, p);
    } else {
      NoQuoteScanned(s, p);
      NoQuotes(s[p..Scan(s, p).1]);
    }
  }

  lemma NoQuoteScanned(s: string, p: nat)
    requires p < |s| && !IsSpace(s[p]) && s[p] != '"'
    ensures var (t, e) := Scan(s, p);
      && '"' !in s[p..e] && '"' !in t.value && Writes(s[p..e], t)
      && (t.kind == Invalid ==> |t.value| == 1 && Stray(t.value[0]))
  {
    hide IsKeyword;
    var (t, e) := Scan(s, p);
    var w := s[p..e];
    if IsDigit(s[p]) || IsAlpha(s[p]) || s[p] == '_' {
      forall i | 0 <= i < |w| ensures w[i] != '"' { assert w[i] == s[p + i]; }
      assert '"' !in Upper(w);
    } else {
      assert e <= p + 2;
      assert w == if e == p + 1 then [s[p]] else [s[p], s[p + 1]];
    }
  }

  /** A token and the text that stands for it: keywords in any case, all others as printed. */
  predicate Writes(w: string, t: Token) {
    if t.kind == Keyword then Upper(w) == t.value else w == Lexeme(t)
  }

  lemma SpacesHaveNoQuotes(s: string)
    requires AllSpace(s)
    ensures Quotes(s) == 0
  {
    forall i | 0 <= i < |s| ensures s[i] != '"' { assert IsSpace(s[i]); }
    NoQuotes(s);
  }

  lemma RunIsSpace(s: string, p: nat)
    requires p <= |s|
    ensures AllSpace(s[p..RunEnd(s, p, IsSpace)])
  {
    var q := RunEnd(s, p, IsSpace);
    forall i | 0 <= i < q - p ensures IsSpace(s[p..q][i]) { assert s[p..q][i] == s[p + i]; }
  }

  /** A string is left open exactly if the quotes are odd in number. */
  lemma {:induction false} UnclosedIffOdd(s: string, p: nat)
    requires p <= |s|
    ensures Unclosed(s, p) <==> Quotes(s[p..]) % 2 == 1
    decreases |s| - p
  {
    hide Scan, Quotes, Relexable, Writes, Behind, AllSpace;
    var (l, e) := Next(s, p);
    var q := l.start;
    RunIsSpace(s, p);
    SpacesHaveNoQuotes(s[p..q]);
    if l.token == END {
      assert s[p..] == s[p..q];
    } else {
      ScanQuotes(s, q);
      ThreeParts(s, p, q, e);
      UnclosedIffOdd(s, e);
      if e == |s| { NothingUnclosed(s); }
      assert Unclosed(s, p) <==> (s[q] == '"' && l.token.kind == Invalid) || Unclosed(s, e);
    }
  }

  lemma NothingUnclosed(s: string)
    ensures !Unclosed(s, |s|)
  {
  }

  lemma ThreeParts(s: string, p: nat, q: nat, e: nat)
    requires p <= q <= e <= |s|
    ensures Quotes(s[p..]) == Quotes(s[p..q]) + Quotes(s[q..e]) + Quotes(s[e..])
  {
    assert s[p..] == s[p..q] + (s[q..e] + s[e..]);
    QuotesCat(s[p..q], s[q..e] + s[e..]);
    QuotesCat(s[q..e], s[e..]);
  }

  // Writing a text with its tokens.

  ghost predicate WrittenAt(s: string, p: nat, q: nat, e: nat, t: Token) {
    p <= q <= e <= |s| && AllSpace(s[p..q]) && Writes(s[q..e], t)
  }

  /** From `p` on the text is the lexemes of the tokens with white space around them. */
  ghost predicate Written(s: string, p: nat, ts: seq<Token>)
    requires p <= |s|
    decreases |ts|
  {
    if ts == [] then AllSpace(s[p..])
    else exists q: nat, e: nat :: WrittenAt(s, p, q, e, ts[0]) && Written(s, e, ts[1..])
  }

  lemma {:induction false} WrittenClosed(s: string, p: nat)
    requires p <= |s| && !Unclosed(s, p)
    ensures Written(s, p, Bare(LexAll(s, p)))
    decreases |s| - p
  {
    hide Scan;
    var (l, e) := Next(s, p);
    var ts := Bare(LexAll(s, p));
    RunIsSpace(s, p);
    if l.token == END {
      assert ts == [END] && ts[1..] == [] && s[|s|..] == s[|s|..|s|] == "";
      assert WrittenAt(s, p, |s|, |s|, ts[0]) && Written(s, |s|, ts[1..]);
    } else {
      ScanQuotes(s, l.start);
      WrittenClosed(s, e);
      assert ts[0] == l.token && ts[1..] == Bare(LexAll(s, e));
      assert WrittenAt(s, p, l.start, e, ts[0]);
    }
  }

  lemma WriteIsEven(w: string, t: Token)
    requires Writes(w, t) && '"' !in t.value
    ensures Quotes(w) % 2 == 0
  {
    hide Quotes;
    if t.kind == StringLiteral {
      QuotesCat("\"" + t.value, "\"");
      QuotesCat("\"", t.value);
      NoQuotes(t.value);
    } else {
      forall i | 0 <= i < |w| ensures w[i] != '"' {
        if t.kind == Keyword { assert t.value[i] == UpperChar(w[i]); }
      }
      NoQuotes(w);
    }
  }

  lemma {:induction false} WrittenIsEven(s: string, p: nat, ts: seq<Token>)
    requires p <= |s| && Written(s, p, ts) && forall i :: 0 <= i < |ts| ==> '"' !in ts[i].value
    ensures Quotes(s[p..]) % 2 == 0
    decreases |ts|
  {
    hide Quotes, Writes;
    if ts == [] {
      SpacesHaveNoQuotes(s[p..]);
    } else {
      var q: nat, e: nat :| WrittenAt(s, p, q, e, ts[0]) && Written(s, e, ts[1..]);
      SpacesHaveNoQuotes(s[p..q]);
      WriteIsEven(s[q..e], ts[0]);
      WrittenIsEven(s, e, ts[1..]);
      ThreeParts(s, p, q, e);
    }
  }

  lemma {:induction false} ValuesHaveNoQuotes(s: string, p: nat, i: nat)
    requires p <= |s| && i < |LexAll(s, p)|
    ensures '"' !in LexAll(s, p)[i].token.value
    decreases i
  {
    hide Scan;
    var (l, e) := Next(s, p);
    if l.token != END {
      if i > 0 { ValuesHaveNoQuotes(s, e, i - 1); } else { ScanQuotes(s, l.start); }
    }
  }

  /** The tokens of a text write it, in order and up to white space and the case of keywords,
      if and only if its quotes are even in number. */
  lemma LosslessIffEven(s: string)
    ensures Written(s, 0, Tokens(s)) <==> Quotes(s) % 2 == 0
  {
    hide LexAll, Written;
    assert s[0..] == s;
    UnclosedIffOdd(s, 0);
    if Quotes(s) % 2 == 0 {
      WrittenClosed(s, 0);
    }
    if Written(s, 0, Tokens(s)) {
      forall i | 0 <= i < |Tokens(s)| ensures '"' !in Tokens(s)[i].value { ValuesHaveNoQuotes(s, 0, i); }
      WrittenIsEven(s, 0, Tokens(s));
    }
  }

  // Lexing what the tokens print.

  /** All tokens but a string left open are told by their lexemes; that one comes last and
      holds what stands behind the last quote. */
  lemma {:induction false} AllButUnclosed(s: string, p: nat)
    requires p <= |s|
    ensures TokensBut(Unclosed(s, p), Behind(s), LexAll(s, p))
    decreases |s| - p
  {
    hide Scan, Relexable, Quotes, Writes, Behind, TokensBut;
    var (l, e) := Next(s, p);
    if l.token != END {
      ScanQuotes(s, l.start);
      AllButUnclosed(s, e);
      if e == |s| { LexedAtEnd(s); }
      OneMoreToken(s[l.start] == '"' && l.token.kind == Invalid, Unclosed(s, e), Behind(s), l, LexAll(s, e));
    } else {
      NoTokens(Behind(s), l);
    }
  }

  /** All tokens before the end are told by their lexemes, but for the last if a string is open. */
  predicate TokensBut(open: bool, v: string, ls: seq<Lexed>) {
    var n := |ls| - 1;
    if open then n > 0 && ls[n - 1].token == Token(Invalid, v) && forall i :: 0 <= i < n - 1 ==> Relexable(ls[i].token)
    else forall i :: 0 <= i < n ==> Relexable(ls[i].token)
  }

  lemma NoTokens(v: string, l: Lexed)
    ensures TokensBut(false, v, [l])
  {
  }

  lemma OneMoreToken(here: bool, later: bool, v: string, l: Lexed, rest: seq<Lexed>)
    requires rest != [] && TokensBut(later, v, rest)
    requires if here then l.token == Token(Invalid, v) && |rest| == 1 else Relexable(l.token)
    ensures TokensBut(here || later, v, [l] + rest)
  {
    hide Relexable;
    var ls := [l] + rest;
    forall i | 0 < i < |ls| ensures ls[i] == rest[i - 1] { }
  }

  lemma LexedAtEnd(s: string)
    ensures LexAll(s, |s|) == [Lexed(END, |s|)]
  {
  }

  /** Text without quotes is one invalid token exactly if it is one stray character. */
  lemma OneInvalid(s: string, r: nat, v: string)
    requires r <= |s| && s[r..] == v && '"' !in v
    ensures Bare(LexAll(s, r)) == [Token(Invalid, v), END] <==> |v| == 1 && Stray(v[0])
  {
    hide Scan;
    var ts := Bare(LexAll(s, r));
    var (l, e) := Next(s, r);
    if ts == [Token(Invalid, v), END] {
      assert ts[0] == l.token;
      assert s[l.start] == v[l.start - r];
      NoQuoteScanned(s, l.start);
    }
    if |v| == 1 && Stray(v[0]) {
      assert s[r] == v[0] && v == [s[r]];
      StrayScanned(s, r);
      LexedAtEnd(s);
      LexOne(s, r, Token(Invalid, v), |s|);
    }
  }

  lemma StrayScanned(s: string, r: nat)
    requires r < |s| && Stray(s[r])
    ensures Scan(s, r) == (Token(Invalid, [s[r]]), r + 1) && !IsSpace(s[r])
  {
  }

  lemma RelexingOpen(s: string)
    requires Unclosed(s, 0)
    ensures var ts := Tokens(s); var v := Behind(s);
      Tokens(Joined(ts[..|ts| - 1])) == ts <==> |v| == 1 && Stray(v[0])
  {
    hide LexAll, Relexable, Joined, Behind, Stray, Unclosed;
    var ts, v := Tokens(s), Behind(s);
    var n := |ts| - 1;
    AllButUnclosed(s, 0);
    EndIsLast(s, 0, n);
    var printed := ts[..n];
    var text := Joined(printed);
    assert text[0..] == text;
    LexJoinedLast(text, 0, printed);
    var r := |text| - |v|;
    assert printed[n - 1] == Token(Invalid, v);
    StandsBehind(text, r, v);
    OneInvalid(text, r, v);
    SameEnds(ts[..n - 1], Bare(LexAll(text, r)), [Token(Invalid, v), END]);
    assert printed[..n - 1] == ts[..n - 1];
    assert ts == ts[..n - 1] + [Token(Invalid, v), END];
  }

  lemma StandsBehind(s: string, r: nat, v: string)
    requires Stands(s, r, Token(Invalid, v)) && r + |v| == |s|
    ensures s[r..] == v
  {
    assert s[r..] == s[r..|s|];
  }

  lemma SameEnds<T>(a: seq<T>, b: seq<T>, c: seq<T>)
    ensures a + b == a + c <==> b == c
  {
    if a + b == a + c {
      assert b == (a + b)[|a|..] && c == (a + c)[|a|..];
    }
  }

  lemma RelexingClosed(s: string)
    requires !Unclosed(s, 0)
    ensures var ts := Tokens(s); Tokens(Joined(ts[..|ts| - 1])) == ts
  {
    hide LexAll, Relexable, Joined, Behind, Stray, Unclosed;
    var ts := Tokens(s);
    var n := |ts| - 1;
    AllButUnclosed(s, 0);
    EndIsLast(s, 0, n);
    var printed := ts[..n];
    var text := Joined(printed);
    assert text[0..] == text;
    LexJoined(text, 0, printed);
    assert ts == ts[..n] + [END];
  }

  /** Printing the tokens of a text and lexing that gives the same tokens if and only if the
      quotes of the text are even in number, or a single stray character follows the last. */
  lemma Relexing(s: string)
    ensures var ts := Tokens(s);
      Tokens(Joined(ts[..|ts| - 1])) == ts <==>
      Quotes(s) % 2 == 0 || (|Behind(s)| == 1 && Stray(Behind(s)[0]))
  {
    hide Tokens, Joined, Quotes, Behind, Stray, Unclosed;
    assert s[0..] == s;
    UnclosedIffOdd(s, 0);
    if Unclosed(s, 0) { RelexingOpen(s); } else { RelexingClosed(s); }
  }

  /** A string left open that is lexed as a name when its token is printed. */
  lemma UnclosedStringIsLossy()
    ensures var s := "\"a"; var ts := Tokens(s);
      ts == [Token(Invalid, "a"), END] && !Written(s, 0, ts) && Tokens(Joined(ts[..1])) != ts
  {
    var s := "\"a";
    hide LexAll, Quotes, Behind, Written, Joined, Scan;
    OpenQuotes();
    LexOne(s, 0, Token(Invalid, "a"), 2);
    LexedAtEnd(s);
    BehindIs(s, 0);
    LosslessIffEven(s);
    Relexing(s);
    assert [Token(Invalid, "a")] + [END] == Tokens(s);
  }

  lemma OpenQuotes()
    ensures Scan("\"a", 0) == (Token(Invalid, "a"), 2) && Quotes("\"a") == 1
    ensures "\"a"[1..] == "a" && !Stray('a') && !IsSpace('"')
  {
    var s := "\"a";
    assert RunEnd(s, 1, NotQuote) == 2;
    assert s[1..] == "a" && s[..1] == "\"";
    OneQuote();
  }
}
