/** What the words and signs of the language say: sentences written out, and the statements,
    conditions and truth values they stand for. */
module Sentences {
  import opened Bytes
  import opened Ast
  import opened ConditionGrammar
  import opened StatementGrammar
  import opened LexSpec
  import opened ConditionText
  import opened StatementPrint
  import opened StatementText
  import opened Values
  import opened TableSpec
  import opened MeaningLaws
  import E = Executor

  /** Words with single blanks between them. */
  function Blanks(words: seq<string>): string {
    if words == [] then "" else if |words| == 1 then words[0] else words[0] + " " + Blanks(words[1..])
  }

  function Lexemes(ts: seq<Token>): (words: seq<string>)
    ensures |words| == |ts| && forall i :: 0 <= i < |ts| ==> words[i] == Lexeme(ts[i])
  {
    seq(|ts|, i requires 0 <= i < |ts| => Lexeme(ts[i]))
  }

  function Quoted(s: string): string { "\"" + s + "\"" }

  lemma {:induction false} JoinedIsBlanks(ts: seq<Token>)
    ensures Joined(ts) == Blanks(Lexemes(ts))
    decreases |ts|
  {
    hide Lexeme;
    if |ts| > 1 {
      JoinedIsBlanks(ts[1..]);
      assert Lexemes(ts)[1..] == Lexemes(ts[1..]);
    }
  }

  /** The words are the text of the statement, with or without a semicolon at the end. */
  ghost predicate Says(words: seq<string>, s: Statement) {
    StatementOfText(Blanks(words)) == Some(s) && StatementOfText(Blanks(words + [";"])) == Some(s)
  }

  lemma Said(s: Statement, words: seq<string>)
    requires StatementOk(s) && StatementPrintable(s) && words == Lexemes(SpellStatement(s))
    ensures Says(words, s)
  {
    hide StatementOk, StatementPrintable, SpellStatement, StatementOfText, Joined, Blanks;
    var w := SpellStatement(s);
    StatementText.TextRoundTrip(s, false);
    StatementText.TextRoundTrip(s, true);
    JoinedIsBlanks(w);
    JoinedIsBlanks(w + [SEMICOLON]);
    assert w + [] == w;
    assert Lexemes(w + [SEMICOLON]) == words + [";"];
  }

  // Conditions.

  function ConditionOfText(text: string): Option<Condition> {
    var ts := Tokens(text);
    var c := OrAt(ts, 0);
    if c.Some? && AtEnd(ts, c.value.1) then Some(c.value.0) else None
  }

  lemma SaidCondition(c: Condition, words: seq<string>)
    requires Renderable(c) && Printable(c) && words == Lexemes(Render(c))
    ensures ConditionOfText(Blanks(words)) == Some(c)
  {
    hide Renderable, Printable, Render, OrAt, Tokens, Joined, Blanks;
    JoinedIsBlanks(Render(c));
    ConditionText.TextRoundTrip(c);
  }

  // How conditions are written.

  function Bracketed(ts: seq<Token>): seq<Token> { [OPEN] + ts + [CLOSE] }

  /** A side that must be no OR stands in brackets when it is one. */
  function OffOr(c: Condition): seq<Token>
    requires Renderable(c)
  {
    if c.Or? then Bracketed(Render(c)) else Render(c)
  }

  /** A side that must be neither. */
  function OffBoth(c: Condition): seq<Token>
    requires Renderable(c)
  {
    if c.And? || c.Or? then Bracketed(Render(c)) else Render(c)
  }

  lemma OneAndSpelled(t: AndTree)
    requires AndOk(t)
    ensures SpellOr(OrTree([t]), 1) == SpellAnd(t, |t.preds|)
  {
  }

  lemma PlainRendered(c: Condition)
    requires IsPlain(c)
    ensures Renderable(c) && Render(c) == SpellPlain(c) && SpellAnd(AndTreeOf(c), |AndTreeOf(c).preds|) == Render(c)
  {
    OneAndSpelled(AndTree([Plain(c)]));
    assert SpellAnd(AndTree([Plain(c)]), 1) == SpellPred(Plain(c));
  }

  lemma AndRendered(c: Condition)
    requires Renderable(c) && !c.Or?
    ensures Render(c) == SpellAnd(AndTreeOf(c), |AndTreeOf(c).preds|)
  {
    hide SpellAnd, SpellOr;
    if c.And? { OneAndSpelled(AndTreeOf(c)); } else { PlainRendered(c); }
  }

  lemma SidesSpelled(c: Condition)
    requires Renderable(c)
    ensures SpellAnd(AndTreeOf(c), |AndTreeOf(c).preds|) == OffOr(c)
    ensures SpellPred(PredOf(c)) == OffBoth(c)
  {
    if c.Or? {
      assert AndTreeOf(c) == AndTree([PredOf(c)]);
    } else {
      AndRendered(c);
      if !c.And? { PlainRendered(c); }
    }
  }

  lemma LastPred(t: AndTree, p: Pred)
    requires AndOk(t) && PredOk(p)
    ensures var u := AndTree(t.preds + [p]);
      AndOk(u) && SpellAnd(u, |u.preds|) == SpellAnd(t, |t.preds|) + [AND] + SpellPred(p)
  {
    var u := AndTree(t.preds + [p]);
    assert u.preds[..|t.preds|] == t.preds[..|t.preds|];
    AndPrefixSame(u, t, |t.preds|);
    hide SpellPred;
  }

  lemma LastAnd(t: OrTree, a: AndTree)
    requires OrOk(t) && AndOk(a)
    ensures var u := OrTree(t.ands + [a]);
      OrOk(u) && SpellOr(u, |u.ands|) == SpellOr(t, |t.ands|) + [OR] + SpellAnd(a, |a.preds|)
  {
    hide SpellAnd;
    var u := OrTree(t.ands + [a]);
    assert u.ands[..|t.ands|] == t.ands[..|t.ands|];
    OrPrefixSame(u, t, |t.ands|);
  }

  /** AND binds tighter than OR, and both group to the left. */
  lemma ConnectivesRendered(a: Condition, b: Condition)
    requires Renderable(a) && Renderable(b)
    ensures Render(Or(a, b)) == Render(a) + [OR] + OffOr(b)
    ensures Render(And(a, b)) == OffOr(a) + [AND] + OffBoth(b)
  {
    hide SpellAnd, SpellOr, SpellPred, PredOf;
    SidesSpelled(a);
    SidesSpelled(b);
    LastPred(AndTreeOf(a), PredOf(b));
    LastAnd(OrTreeOf(a), AndTreeOf(b));
    OneAndSpelled(AndTreeOf(And(a, b)));
  }

  // What conditions say.

  /** A name, digits, a text in quotes, or NULL. */
  function ValueWord(e: Expression): string
    requires IsValue(e)
  {
    match e
    case Identifier(name) => name
    case LiteralExpr(l) =>
      match l.kind
      case StringType => Quoted(l.value)
      case IntegerType => l.value
      case NullType => "NULL"
  }

  lemma LexemesAround(a: seq<Token>, t: Token, b: seq<Token>)
    ensures Lexemes(a + [t] + b) == Lexemes(a) + [Lexeme(t)] + Lexemes(b)
    ensures Lexeme(AND) == "AND" && Lexeme(OR) == "OR"
  {
  }

  lemma LexemesBracketed(a: seq<Token>)
    ensures Lexemes(Bracketed(a)) == ["("] + Lexemes(a) + [")"]
  {
  }

  lemma ConnectivesOk(a: Condition, b: Condition)
    requires Renderable(a) && Renderable(b) && Printable(a) && Printable(b)
    ensures Renderable(And(a, b)) && Renderable(Or(a, b)) && Printable(And(a, b)) && Printable(Or(a, b))
  {
  }

  /** AND and OR connect what stands on their sides. */
  lemma ConnectivesRead(a: Condition, b: Condition)
    requires Renderable(a) && Renderable(b) && Printable(a) && Printable(b)
    ensures ConditionOfText(Blanks(Lexemes(Render(a)) + ["OR"] + Lexemes(OffOr(b)))) == Some(Or(a, b))
    ensures ConditionOfText(Blanks(Lexemes(OffOr(a)) + ["AND"] + Lexemes(OffBoth(b)))) == Some(And(a, b))
    ensures Lexemes(Bracketed(Render(a))) == ["("] + Lexemes(Render(a)) + [")"]
  {
    hide *;
    ConnectivesRendered(a, b);
    ConnectivesOk(a, b);
    LexemesAround(Render(a), OR, OffOr(b));
    LexemesAround(OffOr(a), AND, OffBoth(b));
    LexemesBracketed(Render(a));
    SaidCondition(Or(a, b), Lexemes(Render(a)) + ["OR"] + Lexemes(OffOr(b)));
    SaidCondition(And(a, b), Lexemes(OffOr(a)) + ["AND"] + Lexemes(OffBoth(b)));
  }

  lemma SaidPlain(c: Condition, words: seq<string>)
    requires IsPlain(c) && Printable(c) && words == Lexemes(SpellPlain(c))
    ensures ConditionOfText(Blanks(words)) == Some(c)
  {
    hide IsPlain, Printable, SpellPlain, ConditionOfText, Blanks, Lexeme;
    PlainRendered(c);
    SaidCondition(c, words);
  }

  /** What each operator sign says. */
  lemma ComparisonsRead(v: Expression, w: Expression)
    requires IsValue(v) && IsValue(w) && ValuePrintable(v) && ValuePrintable(w)
    ensures var (l, r) := (ValueWord(v), ValueWord(w));
      && ConditionOfText(Blanks([l, "==", r])) == Some(Comparison(v, Equal, w))
      && ConditionOfText(Blanks([l, "!=", r])) == Some(Comparison(v, NotEqual, w))
      && ConditionOfText(Blanks([l, "<", r])) == Some(Comparison(v, Less, w))
      && ConditionOfText(Blanks([l, ">", r])) == Some(Comparison(v, Greater, w))
      && ConditionOfText(Blanks([l, "<=", r])) == Some(Comparison(v, LessEqual, w))
      && ConditionOfText(Blanks([l, ">=", r])) == Some(Comparison(v, GreaterEqual, w))
  {
    hide ConditionOfText, Blanks, ValuePrintable;
    var (l, r) := (ValueWord(v), ValueWord(w));
    SaidPlain(Comparison(v, Equal, w), [l, "==", r]);
    SaidPlain(Comparison(v, NotEqual, w), [l, "!=", r]);
    SaidPlain(Comparison(v, Less, w), [l, "<", r]);
    SaidPlain(Comparison(v, Greater, w), [l, ">", r]);
    SaidPlain(Comparison(v, LessEqual, w), [l, "<=", r]);
    SaidPlain(Comparison(v, GreaterEqual, w), [l, ">=", r]);
  }

  lemma BetweenAndLikeRead(v: Expression, lo: Expression, hi: Expression, pattern: string)
    requires IsValue(v) && IsValue(lo) && IsValue(hi) && '"' !in pattern
    requires ValuePrintable(v) && ValuePrintable(lo) && ValuePrintable(hi)
    ensures ConditionOfText(Blanks([ValueWord(v), "BETWEEN", ValueWord(lo), "AND", ValueWord(hi)])) ==
      Some(Between(v, lo, hi))
    ensures ConditionOfText(Blanks([ValueWord(v), "LIKE", Quoted(pattern)])) == Some(Like(v, pattern))
  {
    hide ConditionOfText, Blanks, ValuePrintable;
    SaidPlain(Between(v, lo, hi), [ValueWord(v), "BETWEEN", ValueWord(lo), "AND", ValueWord(hi)]);
    SaidPlain(Like(v, pattern), [ValueWord(v), "LIKE", Quoted(pattern)]);
  }

  // Truth values.

  /** A row to evaluate on, with what evaluation depends on. */
  datatype Place = Place(columns: seq<Column>, row: seq<E.Datum>, matches: (string, E.Text) -> Option<bool>,
                         order: E.TextOrder)

  ghost predicate PlaceOk(at: Place) { |at.row| == |at.columns| }

  /** The truth value of the condition a text says. */
  function Verdict(text: string, at: Place): E.Verdict
    requires PlaceOk(at)
  {
    var c := ConditionOfText(text);
    if c.None? then E.Error else E.Meaning(c.value, at.columns, at.row, at.matches, at.order)
  }

  function Truth(b: bool): E.Verdict { E.Truth(if b then True else False) }

  lemma DigitsStandFor(digits: string, at: Place)
    requires PlaceOk(at) && NumberPrintable(digits) && DigitsValue(digits) <= I32_MAX
    ensures var e := LiteralExpr(Literal(IntegerType, digits));
      && ValueWord(e) == digits && ValuePrintable(e)
      && E.ExpressionMeaning(e, at.columns, at.row) == Some(E.DInt(DigitsValue(digits)))
  {
  }

  lemma ComparisonMeans(text: string, x: string, op: Operator, digits: string, m: int, at: Place)
    requires PlaceOk(at) && NumberPrintable(digits) && DigitsValue(digits) <= I32_MAX
    requires ConditionOfText(text) == Some(Comparison(Identifier(x), op, LiteralExpr(Literal(IntegerType, digits))))
    requires E.ExpressionMeaning(Identifier(x), at.columns, at.row) == Some(E.DInt(m))
    ensures var n := DigitsValue(digits); Verdict(text, at) == Truth(Accepts(op, m < n, m == n, m > n))
  {
    hide ConditionOfText, DigitsValue, E.ExpressionMeaning, E.Compare, NumberPrintable, Accepts;
    DigitsStandFor(digits, at);
    Compares(op, m, DigitsValue(digits), [], [], E.DNull);
  }

  /** A column that holds the number `m`, compared with digits. */
  lemma OperatorsMean(x: string, digits: string, m: int, at: Place)
    requires PlaceOk(at) && NamePrintable(x) && NumberPrintable(digits) && DigitsValue(digits) <= I32_MAX
    requires E.ExpressionMeaning(Identifier(x), at.columns, at.row) == Some(E.DInt(m))
    ensures var n := DigitsValue(digits);
      && Verdict(Blanks([x, "==", digits]), at) == Truth(m == n)
      && Verdict(Blanks([x, "!=", digits]), at) == Truth(m != n)
      && Verdict(Blanks([x, "<", digits]), at) == Truth(m < n)
      && Verdict(Blanks([x, ">", digits]), at) == Truth(m > n)
      && Verdict(Blanks([x, "<=", digits]), at) == Truth(m <= n)
      && Verdict(Blanks([x, ">=", digits]), at) == Truth(m >= n)
  {
    hide ConditionOfText, Blanks, NamePrintable, NumberPrintable, DigitsValue, E.ExpressionMeaning, Verdict;
    DigitsStandFor(digits, at);
    ComparisonsRead(Identifier(x), LiteralExpr(Literal(IntegerType, digits)));
    ComparisonMeans(Blanks([x, "==", digits]), x, Equal, digits, m, at);
    ComparisonMeans(Blanks([x, "!=", digits]), x, NotEqual, digits, m, at);
    ComparisonMeans(Blanks([x, "<", digits]), x, Less, digits, m, at);
    ComparisonMeans(Blanks([x, ">", digits]), x, Greater, digits, m, at);
    ComparisonMeans(Blanks([x, "<=", digits]), x, LessEqual, digits, m, at);
    ComparisonMeans(Blanks([x, ">=", digits]), x, GreaterEqual, digits, m, at);
  }

  /** Both bounds of BETWEEN belong to it. */
  lemma BetweenMeans(x: string, low: string, high: string, m: int, at: Place)
    requires PlaceOk(at) && NamePrintable(x) && NumberPrintable(low) && NumberPrintable(high)
    requires DigitsValue(low) <= I32_MAX && DigitsValue(high) <= I32_MAX
    requires E.ExpressionMeaning(Identifier(x), at.columns, at.row) == Some(E.DInt(m))
    ensures Verdict(Blanks([x, "BETWEEN", low, "AND", high]), at) == Truth(DigitsValue(low) <= m <= DigitsValue(high))
  {
    var v, a, b := Identifier(x), LiteralExpr(Literal(IntegerType, low)), LiteralExpr(Literal(IntegerType, high));
    hide ConditionOfText, Blanks, NamePrintable, NumberPrintable, DigitsValue, E.Meaning, E.ExpressionMeaning;
    DigitsStandFor(low, at);
    DigitsStandFor(high, at);
    BetweenAndLikeRead(v, a, b, "");
    BetweenHolds(v, a, b, at.columns, at.row, at.matches, at.order);
  }

  /** A text with AND is true where both sides are, one with OR where a side is. */
  lemma ConnectivesMean(a: Condition, b: Condition, p: SqlBool, q: SqlBool, at: Place)
    requires PlaceOk(at) && Renderable(a) && Renderable(b) && Printable(a) && Printable(b)
    requires E.Meaning(a, at.columns, at.row, at.matches, at.order) == E.Truth(p)
    requires E.Meaning(b, at.columns, at.row, at.matches, at.order) == E.Truth(q)
    ensures var r := Verdict(Blanks(Lexemes(Render(a)) + ["OR"] + Lexemes(OffOr(b))), at);
      r.Truth? && (r.value == True <==> p == True || q == True) && (r.value == False <==> p == False && q == False)
    ensures var r := Verdict(Blanks(Lexemes(OffOr(a)) + ["AND"] + Lexemes(OffBoth(b))), at);
      r.Truth? && (r.value == True <==> p == True && q == True) && (r.value == False <==> p == False || q == False)
  {
    hide ConditionOfText, Blanks, Render, Renderable, Printable, OffOr, OffBoth;
    ConnectivesRead(a, b);
    TruthTables(p, q);
  }
}
