/** What single characters and words are to the lexer. */
module LexSigns {
  import opened Ast
  import opened ConditionGrammar
  import opened LexSpec

  /** Blank, tabulators, line feed, form feed and carriage return separate tokens; ten
      characters and '"' begin what is no word; every other one is invalid alone. */
  lemma OneCharacter(c: char)
    ensures Tokens([c]) ==
      if c in {' ', '\t', '\n', 11 as char, 12 as char, '\r'} then [END]
      else if '0' <= c <= '9' then [Token(IntegerLiteral, [c]), END]
      else if 'a' <= c <= 'z' || 'A' <= c <= 'Z' || c == '_' then [Token(IdentifierToken, [c]), END]
      else if c in {'=', '!', '<', '>', '*'} then [Token(OperatorToken, [c]), END]
      else if c in {'(', ')', ',', ';', '.', '-', ':'} then [Token(Punctuation, [c]), END]
      else if c == '"' then [Token(Invalid, ""), END]
      else [Token(Invalid, [c]), END]
  {
    var s := [c];
    EndOfText(s);
    if IsSpace(c) {
      SkipSpace(s, 0);
    } else {
      var t := Scan(s, 0).0;
      hide IsKeyword;
      NoShortKeyword(c);
      assert Scan(s, 0).1 == 1;
      assert s[0..1] == s && s[1..] == "";
      LexOne(s, 0, t, 1);
    }
  }

  lemma EndOfText(s: string)
    ensures Bare(LexAll(s, |s|)) == [END]
  {
  }

  lemma NoShortKeyword(c: char)
    ensures !IsKeyword(Upper([c]))
  {
    hide IsVerb, IsClause, IsNoun, IsModifier, IsOperation;
    var w := Upper([c]);
    if IsVerb(w) { VerbsAreLong(w); }
    if IsClause(w) || IsOperation(w) { ClausesAreLong(w); }
    if IsNoun(w) || IsModifier(w) { NounsAreLong(w); }
  }

  lemma VerbsAreLong(w: string)
    requires IsVerb(w)
    ensures |w| > 1
  {
  }

  lemma ClausesAreLong(w: string)
    requires IsClause(w) || IsOperation(w)
    ensures |w| > 1
  {
  }

  lemma NounsAreLong(w: string)
    requires IsNoun(w) || IsModifier(w)
    ensures |w| > 1
  {
  }

  predicate InName(c: char) { 'a' <= c <= 'z' || 'A' <= c <= 'Z' || '0' <= c <= '9' || c == '_' }

  /** A letter in either case, or the character itself. */
  predicate SameLetter(c: char, k: char) {
    c == k || ('A' <= k <= 'Z' && c as int == k as int + 32)
  }

  /** `w` stands at `p`, and no letter, digit or underscore behind it. */
  ghost predicate WordAt(s: string, p: nat, w: string) {
    var e := p + |w|;
    w != "" && e <= |s| && s[p..e] == w && (e < |s| ==> !InName(s[e])) && !('0' <= w[0] <= '9')
    && forall i :: 0 <= i < |w| ==> InName(w[i])
  }

  lemma WordScanned(s: string, p: nat, w: string)
    requires WordAt(s, p, w)
    ensures p < |s| && !IsSpace(s[p]) && Scan(s, p) == (WordToken(w), p + |w|)
  {
    hide WordToken;
    var e := p + |w|;
    forall i | p <= i < e ensures InWord(s[i]) { assert s[p..e][i - p] == w[i - p]; }
    assert s[p] == w[0];
    RunEndIs(s, p + 1, InWord, e);
  }

  /** A keyword in any mix of cases is that keyword. */
  lemma KeywordInAnyCase(s: string, p: nat, w: string, k: string)
    requires IsKeyword(k) && |w| == |k| && forall i :: 0 <= i < |k| ==> SameLetter(w[i], k[i])
    requires WordAt(s, p, w)
    ensures p < |s| && !IsSpace(s[p]) && Scan(s, p) == (Token(Keyword, k), p + |w|)
  {
    hide IsKeyword, WordAt, Scan;
    WordScanned(s, p, w);
    KeywordIsWord(k);
    forall i | 0 <= i < |k| ensures Upper(w)[i] == k[i] { assert Upper(k)[i] == k[i]; }
    assert Upper(w) == k;
  }

  /** Any other word is a name, as it is written. */
  lemma NameAsWritten(s: string, p: nat, w: string)
    requires WordAt(s, p, w) && !IsKeyword(Upper(w))
    ensures p < |s| && !IsSpace(s[p]) && Scan(s, p) == (Token(IdentifierToken, w), p + |w|)
  {
    hide IsKeyword, WordAt, Scan;
    WordScanned(s, p, w);
  }

  // Lines and columns.

  ghost function LineFeeds(s: string, p: nat): set<int>
    requires p <= |s|
  {
    set i | 0 <= i < p && s[i] == '\n'
  }

  lemma OneMorePlace(s: string, p: nat)
    requires 0 < p <= |s|
    ensures |LineFeeds(s, p)| == |LineFeeds(s, p - 1)| + if s[p - 1] == '\n' then 1 else 0
  {
    assert LineFeeds(s, p) == if s[p - 1] == '\n' then LineFeeds(s, p - 1) + {p - 1} else LineFeeds(s, p - 1);
  }

  /** The line of a place is told by the line feeds before it, and the column by the
      characters since the last of them. */
  lemma {:induction false} PlaceIs(s: string, p: nat)
    requires p <= |s|
    ensures LineAt(s, p) == 1 + |LineFeeds(s, p)|
    ensures var start := p + 1 - ColumnAt(s, p);
      (start == 0 || s[start - 1] == '\n') && forall i :: start <= i < p ==> s[i] != '\n'
  {
    assert LineFeeds(s, 0) == {};
    hide LineFeeds;
    if p > 0 {
      PlaceIs(s, p - 1);
      OneMorePlace(s, p);
    }
  }
}
