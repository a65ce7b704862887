/** Conditions as text: printing, lexing and parsing put together. */
module ConditionText {
  import opened Bytes
  import opened Ast
  import opened ConditionGrammar
  import opened LexSpec

  ghost predicate AllLexable(ts: seq<Token>) {
    forall i :: 0 <= i < |ts| ==> Lexable(ts[i])
  }

  /** Words that are no keywords. */
  predicate NamePrintable(name: string) { IsWord(name) && !IsKeyword(Upper(name)) }

  /** Strings hold no quote, integers are digits. */
  predicate LiteralPrintable(l: Literal) {
    match l.kind
    case StringType => '"' !in l.value
    case IntegerType => l.value != "" && AllDigits(l.value)
    case NullType => true
  }

  predicate ValuePrintable(e: Expression) {
    match e
    case Identifier(name) => NamePrintable(name)
    case LiteralExpr(l) => LiteralPrintable(l)
    case Aggregate(_, _) => false
  }

  predicate Printable(c: Condition) {
    match c
    case Comparison(l, _, r) => ValuePrintable(l) && ValuePrintable(r)
    case Between(v, lo, hi) => ValuePrintable(v) && ValuePrintable(lo) && ValuePrintable(hi)
    case Like(v, pattern) => ValuePrintable(v) && '"' !in pattern
    case And(a, b) => Printable(a) && Printable(b)
    case Or(a, b) => Printable(a) && Printable(b)
  }

  ghost predicate PredLexable(p: Pred)
    requires PredOk(p)
    decreases p
  {
    match p
    case Paren(t) => OrLexable(t)
    case Plain(c) => AllLexable(SpellPlain(c))
  }

  ghost predicate AndLexable(t: AndTree)
    requires AndOk(t)
    decreases t
  {
    forall i :: 0 <= i < |t.preds| ==> PredLexable(t.preds[i])
  }

  ghost predicate OrLexable(t: OrTree)
    requires OrOk(t)
    decreases t
  {
    forall i :: 0 <= i < |t.ands| ==> AndLexable(t.ands[i])
  }

  lemma SignsLexable()
    ensures Lexable(AND) && Lexable(OR) && Lexable(OPEN) && Lexable(CLOSE)
    ensures Lexable(BETWEEN) && Lexable(LIKE) && Lexable(Token(Keyword, "NULL"))
    ensures forall op :: Lexable(Token(OperatorToken, OperatorText(op)))
  {
    hide IsVerb, IsClause, IsNoun;
    assert IsOperation("AND") && IsOperation("OR") && IsOperation("BETWEEN") && IsOperation("LIKE");
    assert IsModifier("NULL");
    forall op ensures Lexable(Token(OperatorToken, OperatorText(op))) {
      OperatorsLexable(op);
    }
  }

  lemma OperatorsLexable(op: Operator)
    ensures Lexable(Token(OperatorToken, OperatorText(op)))
  {
  }

  lemma PlainLexable(c: Condition)
    requires IsPlain(c) && Printable(c)
    ensures AllLexable(SpellPlain(c))
  {
    hide Lexable;
    SignsLexable();
    match c
    case Comparison(l, op, r) => ValueLexable(l); ValueLexable(r);
    case Between(v, lo, hi) => ValueLexable(v); ValueLexable(lo); ValueLexable(hi);
    case Like(v, pattern) => ValueLexable(v); StringsLexable(pattern);
  }

  lemma StringsLexable(s: string)
    requires '"' !in s
    ensures Lexable(Token(StringLiteral, s))
  {
  }

  lemma ValueLexable(e: Expression)
    requires IsValue(e) && ValuePrintable(e)
    ensures Lexable(ValueToken(e))
  {
    hide IsKeyword;
    SignsLexable();
  }

  lemma {:induction false} SpellPredLexable(p: Pred)
    requires PredOk(p) && PredLexable(p)
    ensures AllLexable(SpellPred(p))
    decreases p, 0
  {
    hide Lexable;
    SignsLexable();
    if p.Paren? { SpellOrLexable(p.inner, |p.inner.ands|); }
  }

  lemma {:induction false} SpellAndLexable(t: AndTree, n: nat)
    requires AndOk(t) && AndLexable(t) && 0 < n <= |t.preds|
    ensures AllLexable(SpellAnd(t, n))
    decreases t, n
  {
    hide Lexable, PredLexable;
    SignsLexable();
    SpellPredLexable(t.preds[n - 1]);
    if n > 1 { SpellAndLexable(t, n - 1); }
  }

  lemma {:induction false} SpellOrLexable(t: OrTree, n: nat)
    requires OrOk(t) && OrLexable(t) && 0 < n <= |t.ands|
    ensures AllLexable(SpellOr(t, n))
    decreases t, n
  {
    hide Lexable, AndLexable;
    SignsLexable();
    SpellAndLexable(t.ands[n - 1], |t.ands[n - 1].preds|);
    if n > 1 { SpellOrLexable(t, n - 1); }
  }

  lemma {:induction false} RenderedLexable(c: Condition)
    requires Renderable(c) && Printable(c)
    ensures PredLexable(PredOf(c)) && AndLexable(AndTreeOf(c)) && OrLexable(OrTreeOf(c))
    decreases c
  {
    hide AllLexable;
    if c.And? {
      RenderedLexable(c.first);
      RenderedLexable(c.second);
      MorePreds(AndTreeOf(c.first), PredOf(c.second));
      OneAnd(AndTreeOf(c));
    } else if c.Or? {
      RenderedLexable(c.first);
      RenderedLexable(c.second);
      OneMoreAnd(OrTreeOf(c.first), AndTreeOf(c.second));
      assert OrTreeOf(c) == OrTree(OrTreeOf(c.first).ands + [AndTreeOf(c.second)]);
      OnePred(PredOf(c));
    } else {
      PlainLexable(c);
      OnePred(Plain(c));
      OneAnd(AndTree([Plain(c)]));
    }
  }

  lemma MorePreds(t: AndTree, p: Pred)
    requires AndOk(t) && PredOk(p) && AndLexable(t) && PredLexable(p)
    ensures AndOk(AndTree(t.preds + [p])) && AndLexable(AndTree(t.preds + [p]))
  {
    hide PredLexable;
  }

  lemma OnePred(p: Pred)
    requires PredOk(p) && PredLexable(p)
    ensures AndLexable(AndTree([p]))
  {
  }

  lemma OneAnd(t: AndTree)
    requires AndOk(t) && AndLexable(t)
    ensures OrLexable(OrTree([t]))
  {
  }

  lemma OneMoreAnd(t: OrTree, a: AndTree)
    requires OrOk(t) && AndOk(a) && OrLexable(t) && AndLexable(a)
    ensures OrOk(OrTree(t.ands + [a])) && OrLexable(OrTree(t.ands + [a]))
  {
    hide AndLexable;
  }

  /** A condition printed with spaces between its tokens, lexed and parsed is the same
      condition, and nothing of the text is left over. */
  lemma TextRoundTrip(c: Condition)
    requires Renderable(c) && Printable(c)
    ensures var ts := Tokens(Joined(Render(c)));
      OrAt(ts, 0) == Some((c, |ts| - 1)) && ts[|ts| - 1] == END
  {
    hide Lexable, Joined, LexAll, OrAt;
    RenderedLexable(c);
    SpellOrLexable(OrTreeOf(c), |OrTreeOf(c).ands|);
    var r := Render(c);
    var text := Joined(r);
    assert text[0..] == text;
    LexJoined(text, 0, r);
    var ts := Tokens(text);
    forall i | 0 <= i < |r| ensures TokenAt(ts, 0, r, i) {
      assert ts[i] == r[i];
    }
    RenderParses(ts, 0, c);
  }
}
