/** What the lexer makes of a text. Characters stand for bytes. */
module LexSpec {
  import opened Ast
  import opened ConditionGrammar

  predicate IsSpace(c: char) { c == ' ' || '\t' <= c <= '\r' }

  predicate IsAlpha(c: char) { 'a' <= c <= 'z' || 'A' <= c <= 'Z' }

  predicate InWord(c: char) { IsAlpha(c) || IsDigit(c) || c == '_' }

  predicate NotQuote(c: char) { c != '"' }

  predicate IsOperatorChar(c: char) { c in "=!<>*" }

  predicate IsPunctuationChar(c: char) { c in "(),;.-:" }

  function UpperChar(c: char): char {
    if 'a' <= c <= 'z' then c - 32 as char else c
  }

  function Upper(s: string): (u: string)
    ensures |u| == |s| && forall i :: 0 <= i < |s| ==> u[i] == UpperChar(s[i])
  {
    seq(|s|, i requires 0 <= i < |s| => UpperChar(s[i]))
  }

  predicate IsKeyword(s: string) { IsVerb(s) || IsClause(s) || IsNoun(s) || IsModifier(s) || IsOperation(s) }

  predicate IsVerb(s: string) {
    s in {"SELECT", "INSERT", "UPDATE", "DELETE", "CREATE", "DROP", "USE", "REVERT", "GRANT", "REVOKE"}
  }

  predicate IsClause(s: string) { s in {"FROM", "WHERE", "INTO", "VALUE", "SET", "AS", "ON", "TO"} }

  predicate IsNoun(s: string) { s in {"TABLE", "DATABASE", "USER", "PASSWORD", "INT", "STRING", "READ", "WRITE"} }

  predicate IsModifier(s: string) { s in {"NOT_NULL", "INDEXED", "DEFAULT", "NULL"} }

  predicate IsOperation(s: string) { s in {"AND", "OR", "BETWEEN", "LIKE", "SUM", "COUNT", "AVG"} }

  /** The end of the longest run of characters of one kind. */
  function RunEnd(s: string, p: nat, kind: char -> bool): (q: nat)
    requires p <= |s|
    ensures p <= q <= |s|
    ensures forall i :: p <= i < q ==> kind(s[i])
    ensures q < |s| ==> !kind(s[q])
    decreases |s| - p
  {
    if p < |s| && kind(s[p]) then RunEnd(s, p + 1, kind) else p
  }

  function WordToken(w: string): Token {
    if IsKeyword(Upper(w)) then Token(Keyword, Upper(w)) else Token(IdentifierToken, w)
  }

  /** Whether an operator takes two characters. */
  predicate IsLong(s: string, p: nat)
    requires p < |s|
  {
    s[p] != '*' && p + 1 < |s| && s[p + 1] == '='
  }

  /** The token that starts at `p`, and its end. */
  function Scan(s: string, p: nat): (r: (Token, nat))
    requires p < |s| && !IsSpace(s[p])
    ensures p < r.1 <= |s| && r.0.kind != EndOfFile
  {
    var c := s[p];
    if c == '"' then
      var q := RunEnd(s, p + 1, NotQuote);
      if q == |s| then (Token(Invalid, s[p + 1..]), q) else (Token(StringLiteral, s[p + 1..q]), q + 1)
    else if IsDigit(c) then
      var q := RunEnd(s, p + 1, IsDigit);
      (Token(IntegerLiteral, s[p..q]), q)
    else if IsAlpha(c) || c == '_' then
      var q := RunEnd(s, p + 1, InWord);
      (WordToken(s[p..q]), q)
    else if IsOperatorChar(c) then
      var q := if IsLong(s, p) then p + 2 else p + 1;
      (Token(OperatorToken, s[p..q]), q)
    else if IsPunctuationChar(c) then
      (Token(Punctuation, [c]), p + 1)
    else
      (Token(Invalid, [c]), p + 1)
  }

  /** A token and where it starts. */
  datatype Lexed = Lexed(token: Token, start: nat)

  const END := Token(EndOfFile, "")

  /** The next token from `p` on, and its end. */
  function Next(s: string, p: nat): (r: (Lexed, nat))
    requires p <= |s|
    ensures p <= r.0.start <= r.1 <= |s|
    ensures r.0.token == END <==> RunEnd(s, p, IsSpace) == |s|
    ensures r.0.token.kind == EndOfFile <==> r.0.token == END
    ensures r.0.token != END ==> p < r.1
  {
    var q := RunEnd(s, p, IsSpace);
    if q == |s| then (Lexed(END, q), q)
    else
      var (t, e) := Scan(s, q);
      (Lexed(t, q), e)
  }

  function LexAll(s: string, p: nat): (ls: seq<Lexed>)
    requires p <= |s|
    ensures |ls| > 0
    decreases |s| - p
  {
    var (l, e) := Next(s, p);
    if l.token == END then [l] else [l] + LexAll(s, e)
  }

  function Bare(ls: seq<Lexed>): (ts: seq<Token>)
    ensures |ts| == |ls| && forall i :: 0 <= i < |ls| ==> ts[i] == ls[i].token
  {
    seq(|ls|, i requires 0 <= i < |ls| => ls[i].token)
  }

  function Tokens(s: string): seq<Token> { Bare(LexAll(s, 0)) }

  // Lines and columns.

  function LineAt(s: string, p: nat): (n: nat)
    requires p <= |s|
  {
    if p == 0 then 1 else LineAt(s, p - 1) + if s[p - 1] == '\n' then 1 else 0
  }

  function ColumnAt(s: string, p: nat): (n: nat)
    requires p <= |s|
    ensures 1 <= n <= p + 1
  {
    if p == 0 || s[p - 1] == '\n' then 1 else ColumnAt(s, p - 1) + 1
  }

  /** Line and column name one place of the text: an earlier place is on an earlier line, or
      on the same one further left. */
  lemma {:induction false} PlacesDiffer(s: string, p: nat, q: nat)
    requires p < q <= |s|
    ensures LineAt(s, p) < LineAt(s, q) || (LineAt(s, p) == LineAt(s, q) && ColumnAt(s, p) < ColumnAt(s, q))
  {
    if p + 1 < q { PlacesDiffer(s, p, q - 1); }
  }

  // The tokens spell the text.

  predicate AllSpace(s: string) { forall i :: 0 <= i < |s| ==> IsSpace(s[i]) }

  /** Texts a token can come from: keywords in any case, strings with their quotes; an
      invalid token is one character, or lacks the quote of a string that is not closed. */
  predicate IsLexeme(w: string, t: Token) {
    match t.kind
    case Keyword => Upper(w) == t.value
    case StringLiteral => w == "\"" + t.value + "\""
    case Invalid => w == t.value || w == "\"" + t.value
    case IdentifierToken => w == t.value
    case IntegerLiteral => w == t.value
    case OperatorToken => w == t.value
    case Punctuation => w == t.value
    case EndOfFile => w == ""
  }

  /** From `p` on the text is the lexemes in order with only white space before each, and
      white space at the end; `END` is there once, last. */
  ghost predicate Spells(s: string, p: nat, ls: seq<Lexed>)
    requires p <= |s|
    decreases |ls|
  {
    && ls != [] && p <= ls[0].start <= |s| && AllSpace(s[p..ls[0].start])
    && (if |ls| == 1 then ls[0].token == END && ls[0].start == |s|
        else
          && ls[0].token.kind != EndOfFile
          && exists e :: ls[0].start < e <= |s| && IsLexeme(s[ls[0].start..e], ls[0].token) && Spells(s, e, ls[1..]))
  }

  lemma ScanSpells(s: string, p: nat)
    requires p < |s| && !IsSpace(s[p])
    ensures var (t, e) := Scan(s, p); IsLexeme(s[p..e], t)
  {
    hide IsKeyword;
    var (t, e) := Scan(s, p);
    if s[p] == '"' {
      var q := RunEnd(s, p + 1, NotQuote);
      assert s[p..q] == "\"" + s[p + 1..q];
      if q < |s| { assert s[p..q + 1] == s[p..q] + "\""; }
    }
  }

  /** The places of the tokens of any text, and what stands there. */
  lemma {:induction false} LexingSpells(s: string, p: nat)
    requires p <= |s|
    ensures Spells(s, p, LexAll(s, p))
    decreases |s| - p
  {
    var (l, e) := Next(s, p);
    if l.token != END {
      ScanSpells(s, l.start);
      LexingSpells(s, e);
      var ls := LexAll(s, p);
      assert ls[1..] == LexAll(s, e);
      assert IsLexeme(s[l.start..e], l.token);
    }
  }

  // Printing tokens and lexing them again.

  predicate IsWord(w: string) {
    w != "" && !IsDigit(w[0]) && forall i :: 0 <= i < |w| ==> InWord(w[i])
  }

  /** Tokens that are not invalid and that some text has. */
  predicate Lexable(t: Token) {
    match t.kind
    case Keyword => IsKeyword(t.value)
    case IdentifierToken => IsWord(t.value) && !IsKeyword(Upper(t.value))
    case StringLiteral => '"' !in t.value
    case IntegerLiteral => t.value != "" && AllDigits(t.value)
    case OperatorToken =>
      || (|t.value| == 1 && IsOperatorChar(t.value[0]))
      || (|t.value| == 2 && t.value[0] in "=!<>" && t.value[1] == '=')
    case Punctuation => |t.value| == 1 && IsPunctuationChar(t.value[0])
    case Invalid => false
    case EndOfFile => false
  }

  /** A character that starts no token. */
  predicate Stray(c: char) {
    && !IsSpace(c) && NotQuote(c) && !IsDigit(c) && !IsAlpha(c) && c != '_'
    && !IsOperatorChar(c) && !IsPunctuationChar(c)
  }

  /** Tokens that are told by their lexemes alone. */
  predicate Relexable(t: Token) {
    Lexable(t) || (t.kind == Invalid && |t.value| == 1 && Stray(t.value[0]))
  }

  function Lexeme(t: Token): string {
    if t.kind == StringLiteral then "\"" + t.value + "\"" else t.value
  }

  /** The tokens with a space between any two. */
  function Joined(ts: seq<Token>): string {
    if ts == [] then ""
    else if |ts| == 1 then Lexeme(ts[0])
    else Lexeme(ts[0]) + " " + Joined(ts[1..])
  }

  predicate IsUpper(w: string) {
    w != "" && forall i :: 0 <= i < |w| ==> 'A' <= w[i] <= 'Z' || w[i] == '_'
  }

  lemma VerbsAreUpper(w: string)
    requires IsVerb(w)
    ensures IsUpper(w)
  {
  }

  lemma NounsAreUpper(w: string)
    requires IsNoun(w) || IsModifier(w)
    ensures IsUpper(w)
  {
  }

  lemma ClausesAreUpper(w: string)
    requires IsClause(w) || IsOperation(w)
    ensures IsUpper(w)
  {
  }

  lemma KeywordIsWord(w: string)
    requires IsKeyword(w)
    ensures IsWord(w) && Upper(w) == w
  {
    hide IsVerb, IsNoun, IsModifier, IsClause, IsOperation;
    if IsVerb(w) { VerbsAreUpper(w); }
    else if IsNoun(w) || IsModifier(w) { NounsAreUpper(w); }
    else { ClausesAreUpper(w); }
  }

  lemma {:induction false} RunEndIs(s: string, p: nat, kind: char -> bool, q: nat)
    requires p <= q <= |s| && (forall i :: p <= i < q ==> kind(s[i])) && (q < |s| ==> !kind(s[q]))
    ensures RunEnd(s, p, kind) == q
    decreases q - p
  {
    if p < q { RunEndIs(s, p + 1, kind, q); }
  }

  /** The lexeme of `t` stands at `p`, at the end of the text or before a space. */
  predicate Stands(s: string, p: nat, t: Token) {
    var e := p + |Lexeme(t)|;
    e <= |s| && s[p..e] == Lexeme(t) && (e < |s| ==> s[e] == ' ')
  }

  lemma StandsAt(s: string, p: nat, t: Token)
    requires Stands(s, p, t)
    ensures forall i :: 0 <= i < |Lexeme(t)| ==> s[p + i] == Lexeme(t)[i]
  {
    var w := s[p..p + |Lexeme(t)|];
    assert forall i :: 0 <= i < |w| ==> s[p + i] == w[i];
  }

  lemma ScanWord(s: string, p: nat, t: Token)
    requires (t.kind == Keyword || t.kind == IdentifierToken) && Lexable(t) && Stands(s, p, t)
    ensures p < |s| && !IsSpace(s[p]) && Scan(s, p) == (t, p + |Lexeme(t)|)
  {
    hide IsKeyword;
    StandsAt(s, p, t);
    if t.kind == Keyword { KeywordIsWord(t.value); }
    assert s[p + 0] == t.value[0];
    forall i | p <= i < p + |t.value| ensures InWord(s[i]) {
      assert s[p + (i - p)] == t.value[i - p];
    }
    RunEndIs(s, p + 1, InWord, p + |t.value|);
  }

  lemma ScanQuoted(s: string, p: nat, t: Token)
    requires (t.kind == IntegerLiteral || t.kind == StringLiteral) && Lexable(t) && Stands(s, p, t)
    ensures p < |s| && !IsSpace(s[p]) && Scan(s, p) == (t, p + |Lexeme(t)|)
  {
    var w, e := Lexeme(t), p + |Lexeme(t)|;
    StandsAt(s, p, t);
    assert s[p + 0] == w[0];
    forall i | p <= i < e ensures s[i] == w[i - p] {
      assert s[p + (i - p)] == w[i - p];
    }
    if t.kind == IntegerLiteral {
      RunEndIs(s, p + 1, IsDigit, e);
    } else {
      RunEndIs(s, p + 1, NotQuote, e - 1);
      assert s[p + 1..e - 1] == t.value;
    }
  }

  lemma ScanSign(s: string, p: nat, t: Token)
    requires (t.kind == OperatorToken || t.kind == Punctuation) && Lexable(t) && Stands(s, p, t)
    ensures p < |s| && !IsSpace(s[p]) && Scan(s, p) == (t, p + |Lexeme(t)|)
  {
    StandsAt(s, p, t);
    assert s[p + 0] == t.value[0];
    if |t.value| == 1 { assert t.value == [s[p]]; }
  }

  lemma ScanStray(s: string, p: nat, t: Token)
    requires t.kind == Invalid && |t.value| == 1 && Stray(t.value[0]) && Stands(s, p, t)
    ensures p < |s| && !IsSpace(s[p]) && Scan(s, p) == (t, p + |Lexeme(t)|)
  {
    StandsAt(s, p, t);
    assert s[p + 0] == t.value[0];
    assert t.value == [s[p]];
  }

  /** A lexeme that ends the text or stands before a space is scanned back. */
  lemma ScanLexeme(s: string, p: nat, t: Token)
    requires Relexable(t) && Stands(s, p, t)
    ensures p < |s| && !IsSpace(s[p]) && Scan(s, p) == (t, p + |Lexeme(t)|)
  {
    hide Scan, Stands, Lexeme, IsKeyword, IsWord, Stray;
    match t.kind
    case Invalid => ScanStray(s, p, t);
    case Keyword => ScanWord(s, p, t);
    case IdentifierToken => ScanWord(s, p, t);
    case IntegerLiteral => ScanQuoted(s, p, t);
    case StringLiteral => ScanQuoted(s, p, t);
    case OperatorToken => ScanSign(s, p, t);
    case Punctuation => ScanSign(s, p, t);
  }

  lemma SkipSpace(s: string, p: nat)
    requires p < |s| && IsSpace(s[p])
    ensures LexAll(s, p) == LexAll(s, p + 1)
  {
    assert RunEnd(s, p, IsSpace) == RunEnd(s, p + 1, IsSpace);
    assert Next(s, p) == Next(s, p + 1);
  }

  lemma LexOne(s: string, p: nat, t: Token, e: nat)
    requires p < |s| && !IsSpace(s[p]) && Scan(s, p) == (t, e)
    ensures Bare(LexAll(s, p)) == [t] + Bare(LexAll(s, e))
  {
    hide Scan;
    assert Next(s, p) == (Lexed(t, p), e);
    assert LexAll(s, p) == [Lexed(t, p)] + LexAll(s, e);
  }

  /** Where the joined tokens start at `p`, so does the first, and the others follow. */
  lemma JoinedStarts(s: string, p: nat, ts: seq<Token>)
    requires ts != [] && p <= |s| && s[p..] == Joined(ts)
    ensures Stands(s, p, ts[0])
    ensures var e := p + |Lexeme(ts[0])|;
      if |ts| == 1 then e == |s| else e < |s| && s[e] == ' ' && s[e + 1..] == Joined(ts[1..])
  {
    hide Lexeme;
    var w, j := Lexeme(ts[0]), s[p..];
    var e := p + |w|;
    assert j[..|w|] == w;
    assert s[p..e] == j[..|w|];
    if |ts| > 1 {
      assert j[|w|] == ' ' && j[|w| + 1..] == Joined(ts[1..]);
      assert s[e] == j[|w|] && s[e + 1..] == j[|w| + 1..];
    }
  }

  /** Of tokens printed with spaces between them all but the last are lexed back, whatever the
      lexeme of the last is then taken for. */
  lemma {:induction false} LexJoinedLast(s: string, p: nat, ts: seq<Token>)
    requires p <= |s| && ts != [] && s[p..] == Joined(ts)
    requires forall i :: 0 <= i < |ts| - 1 ==> Relexable(ts[i])
    ensures var n := |ts| - 1; var r := |s| - |Lexeme(ts[n])|;
      && p <= r && Stands(s, r, ts[n])
      && Bare(LexAll(s, p)) == ts[..n] + Bare(LexAll(s, r))
    decreases |ts|
  {
    hide Relexable, Scan, IsSpace, Lexeme, Stands, LexAll, RunEnd, Joined;
    JoinedStarts(s, p, ts);
    if |ts| > 1 {
      var n := |ts| - 1;
      var e := p + |Lexeme(ts[0])|;
      ScanLexeme(s, p, ts[0]);
      LexOne(s, p, ts[0], e);
      BlankIsSpace();
      SkipSpace(s, e);
      LexJoinedLast(s, e + 1, ts[1..]);
      assert ts[1..][n - 1] == ts[n];
      assert ts[..n] == [ts[0]] + ts[1..][..n - 1];
    }
  }

  /** Tokens printed with spaces between them are lexed back, and nothing else. */
  lemma LexJoined(s: string, p: nat, ts: seq<Token>)
    requires p <= |s| && s[p..] == Joined(ts)
    requires forall i :: 0 <= i < |ts| ==> Relexable(ts[i])
    ensures Bare(LexAll(s, p)) == ts + [END]
  {
    hide Relexable, Scan, Lexeme, LexAll, Joined, Stands, RunEnd, IsSpace;
    if ts == [] {
      NothingLeft(s, p);
    } else {
      var n := |ts| - 1;
      LexJoinedLast(s, p, ts);
      LexLast(s, |s| - |Lexeme(ts[n])|, ts[n]);
      assert ts == ts[..n] + [ts[n]];
    }
  }

  lemma LexLast(s: string, r: nat, t: Token)
    requires Relexable(t) && Stands(s, r, t) && r + |Lexeme(t)| == |s|
    ensures Bare(LexAll(s, r)) == [t, END]
  {
    hide Relexable, Scan, Lexeme, LexAll, Stands, RunEnd, IsSpace;
    ScanLexeme(s, r, t);
    LexOne(s, r, t, |s|);
    EmptyJoined();
    NothingLeft(s, |s|);
  }

  lemma EmptyJoined()
    ensures Joined([]) == ""
  {
  }

  lemma BlankIsSpace()
    ensures IsSpace(' ')
  {
  }

  lemma NothingLeft(s: string, p: nat)
    requires p <= |s| && s[p..] == Joined([])
    ensures Bare(LexAll(s, p)) == [END]
  {
    assert p == |s|;
  }

  /** The tokens of a text are those some text has, unless one is invalid. */
  lemma {:induction false} LexedAreLexable(s: string, p: nat, i: nat)
    requires p <= |s| && i < |LexAll(s, p)|
    ensures var t := LexAll(s, p)[i].token; t == END || t.kind == Invalid || Lexable(t)
    decreases i
  {
    var (l, e) := Next(s, p);
    if l.token != END {
      if i > 0 { LexedAreLexable(s, e, i - 1); } else { ScannedIsLexable(s, l.start); }
    }
  }

  lemma ScannedIsLexable(s: string, p: nat)
    requires p < |s| && !IsSpace(s[p])
    ensures Scan(s, p).0.kind == Invalid || Lexable(Scan(s, p).0)
  {
    hide IsKeyword;
  }

  /** `END` comes last and nowhere else. */
  lemma {:induction false} EndIsLast(s: string, p: nat, i: nat)
    requires p <= |s| && i < |LexAll(s, p)|
    ensures LexAll(s, p)[i].token == END <==> i == |LexAll(s, p)| - 1
    decreases i
  {
    var (l, e) := Next(s, p);
    if l.token != END && i > 0 { EndIsLast(s, e, i - 1); }
  }
}
