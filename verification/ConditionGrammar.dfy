/** The condition grammar: concrete trees, how they are spelled in tokens, and the parser as
    a function of the tokens and a position. */
module ConditionGrammar {
  import opened Bytes
  import opened Ast

  datatype TokenType =
    Keyword | IdentifierToken | StringLiteral | IntegerLiteral | OperatorToken | Punctuation | EndOfFile | Invalid

  datatype Token = Token(kind: TokenType, value: string)

  // Concrete trees: OR over AND over predicates.

  datatype OrTree = OrTree(ands: seq<AndTree>)

  datatype AndTree = AndTree(preds: seq<Pred>)

  datatype Pred = Paren(inner: OrTree) | Plain(condition: Condition)

  /** A value as it may stand in a condition. */
  predicate IsValue(e: Expression) {
    match e
    case Identifier(_) => true
    case LiteralExpr(l) => l.kind.NullType? ==> l.value == "NULL"
    case Aggregate(_, _) => false
  }

  predicate IsPlain(c: Condition) {
    match c
    case Comparison(l, _, r) => IsValue(l) && IsValue(r)
    case Between(v, lo, hi) => IsValue(v) && IsValue(lo) && IsValue(hi)
    case Like(v, _) => IsValue(v)
    case And(_, _) => false
    case Or(_, _) => false
  }

  predicate OrOk(t: OrTree) {
    t.ands != [] && forall i :: 0 <= i < |t.ands| ==> AndOk(t.ands[i])
  }

  predicate AndOk(t: AndTree) {
    t.preds != [] && forall i :: 0 <= i < |t.preds| ==> PredOk(t.preds[i])
  }

  predicate PredOk(p: Pred) {
    match p
    case Paren(t) => OrOk(t)
    case Plain(c) => IsPlain(c)
  }

  // Spelling.

  function OperatorText(op: Operator): string {
    match op
    case Equal => "=="
    case NotEqual => "!="
    case Less => "<"
    case Greater => ">"
    case LessEqual => "<="
    case GreaterEqual => ">="
  }

  function OperatorOf(text: string): Option<Operator> {
    if text == "==" then Some(Equal)
    else if text == "!=" then Some(NotEqual)
    else if text == "<" then Some(Less)
    else if text == ">" then Some(Greater)
    else if text == "<=" then Some(LessEqual)
    else if text == ">=" then Some(GreaterEqual)
    else None
  }

  const AND := Token(Keyword, "AND")
  const OR := Token(Keyword, "OR")
  const BETWEEN := Token(Keyword, "BETWEEN")
  const LIKE := Token(Keyword, "LIKE")
  const OPEN := Token(Punctuation, "(")
  const CLOSE := Token(Punctuation, ")")

  function ValueToken(e: Expression): Token
    requires IsValue(e)
  {
    match e
    case Identifier(name) => Token(IdentifierToken, name)
    case LiteralExpr(l) =>
      match l.kind
      case StringType => Token(StringLiteral, l.value)
      case IntegerType => Token(IntegerLiteral, l.value)
      case NullType => Token(Keyword, "NULL")
  }

  function SpellPlain(c: Condition): (s: seq<Token>)
    requires IsPlain(c)
    ensures |s| >= 3
  {
    match c
    case Comparison(l, op, r) => [ValueToken(l), Token(OperatorToken, OperatorText(op)), ValueToken(r)]
    case Between(v, lo, hi) => [ValueToken(v), BETWEEN, ValueToken(lo), AND, ValueToken(hi)]
    case Like(v, pattern) => [ValueToken(v), LIKE, Token(StringLiteral, pattern)]
  }

  function SpellPred(p: Pred): (s: seq<Token>)
    requires PredOk(p)
    ensures s != []
    decreases p, 0
  {
    match p
    case Paren(t) => [OPEN] + SpellOr(t, |t.ands|) + [CLOSE]
    case Plain(c) => SpellPlain(c)
  }

  /** The first `n` predicates, with AND between them. */
  function SpellAnd(t: AndTree, n: nat): (s: seq<Token>)
    requires AndOk(t) && 0 < n <= |t.preds|
    ensures s != []
    decreases t, n
  {
    if n == 1 then SpellPred(t.preds[0]) else SpellAnd(t, n - 1) + [AND] + SpellPred(t.preds[n - 1])
  }

  function SpellOr(t: OrTree, n: nat): (s: seq<Token>)
    requires OrOk(t) && 0 < n <= |t.ands|
    ensures s != []
    decreases t, n
  {
    var last := t.ands[n - 1];
    if n == 1 then SpellAnd(last, |last.preds|) else SpellOr(t, n - 1) + [OR] + SpellAnd(last, |last.preds|)
  }

  // What the trees stand for: both operators associate to the left.

  function MeanPred(p: Pred): Condition
    requires PredOk(p)
    decreases p, 0
  {
    match p
    case Paren(t) => MeanOr(t, |t.ands|)
    case Plain(c) => c
  }

  function MeanAnd(t: AndTree, n: nat): Condition
    requires AndOk(t) && 0 < n <= |t.preds|
    decreases t, n
  {
    if n == 1 then MeanPred(t.preds[0]) else And(MeanAnd(t, n - 1), MeanPred(t.preds[n - 1]))
  }

  function MeanOr(t: OrTree, n: nat): Condition
    requires OrOk(t) && 0 < n <= |t.ands|
    decreases t, n
  {
    var last := t.ands[n - 1];
    var c := MeanAnd(last, |last.preds|);
    if n == 1 then c else Or(MeanOr(t, n - 1), c)
  }

  // The parser as a function.

  /** Conditions the grammar has. */
  predicate Renderable(c: Condition) {
    if c.And? then Renderable(c.first) && Renderable(c.second)
    else if c.Or? then Renderable(c.first) && Renderable(c.second)
    else IsPlain(c)
  }

  predicate AtEnd(ts: seq<Token>, p: nat) {
    p >= |ts| || ts[p].kind == EndOfFile
  }

  predicate Is(ts: seq<Token>, p: nat, t: Token) {
    p < |ts| && ts[p] == t && t.kind != EndOfFile
  }

  function ParseValueAt(ts: seq<Token>, p: nat): (e: Option<Expression>)
    ensures e.Some? ==> p < |ts| && IsValue(e.value) && ts[p] == ValueToken(e.value)
  {
    if p >= |ts| then None
    else
      match ts[p].kind
      case IdentifierToken => Some(Identifier(ts[p].value))
      case StringLiteral => Some(LiteralExpr(Literal(StringType, ts[p].value)))
      case IntegerLiteral => Some(LiteralExpr(Literal(IntegerType, ts[p].value)))
      case Keyword => if ts[p].value == "NULL" then Some(LiteralExpr(Literal(NullType, "NULL"))) else None
      case _ => None
  }

  type Parsed = Option<(Condition, nat)>

  function PlainAt(ts: seq<Token>, p: nat): (r: Parsed)
    ensures r.Some? ==> p < r.value.1 <= |ts| && IsPlain(r.value.0)
  {
    var v := ParseValueAt(ts, p);
    if v.None? then None
    else if Is(ts, p + 1, BETWEEN) then
      var (lo, hi) := (ParseValueAt(ts, p + 2), ParseValueAt(ts, p + 4));
      if lo.None? || !Is(ts, p + 3, AND) || hi.None? then None else Some((Between(v.value, lo.value, hi.value), p + 5))
    else if Is(ts, p + 1, LIKE) then
      if p + 2 < |ts| && ts[p + 2].kind == StringLiteral then Some((Like(v.value, ts[p + 2].value), p + 3)) else None
    else if p + 1 < |ts| && ts[p + 1].kind == OperatorToken then
      var (op, r) := (OperatorOf(ts[p + 1].value), ParseValueAt(ts, p + 2));
      if op.None? || r.None? then None else Some((Comparison(v.value, op.value, r.value), p + 3))
    else None
  }

  function PredAt(ts: seq<Token>, p: nat): (r: Parsed)
    ensures r.Some? ==> p < r.value.1 <= |ts| && Renderable(r.value.0)
    decreases if p <= |ts| then |ts| - p else 0, 0
  {
    if !Is(ts, p, OPEN) then PlainAt(ts, p)
    else
      var inner := OrAt(ts, p + 1);
      if inner.None? || !Is(ts, inner.value.1, CLOSE) then None else Some((inner.value.0, inner.value.1 + 1))
  }

  function AndAt(ts: seq<Token>, p: nat): (r: Parsed)
    ensures r.Some? ==> p < r.value.1 <= |ts| && Renderable(r.value.0)
    decreases if p <= |ts| then |ts| - p else 0, 2
  {
    var first := PredAt(ts, p);
    if first.None? then None else AndTail(ts, first.value.0, first.value.1)
  }

  /** What follows `left` on the AND level. */
  function AndTail(ts: seq<Token>, left: Condition, p: nat): (r: Parsed)
    requires p <= |ts|
    ensures r.Some? ==> p <= r.value.1 <= |ts|
    ensures r.Some? && Renderable(left) ==> Renderable(r.value.0)
    decreases |ts| - p, 1
  {
    if !Is(ts, p, AND) then Some((left, p))
    else
      var right := PredAt(ts, p + 1);
      if right.None? then None else AndTail(ts, And(left, right.value.0), right.value.1)
  }

  function OrAt(ts: seq<Token>, p: nat): (r: Parsed)
    ensures r.Some? ==> p < r.value.1 <= |ts| && Renderable(r.value.0)
    decreases if p <= |ts| then |ts| - p else 0, 4
  {
    var first := AndAt(ts, p);
    if first.None? then None else OrTail(ts, first.value.0, first.value.1)
  }

  function OrTail(ts: seq<Token>, left: Condition, p: nat): (r: Parsed)
    requires p <= |ts|
    ensures r.Some? ==> p <= r.value.1 <= |ts|
    ensures r.Some? && Renderable(left) ==> Renderable(r.value.0)
    decreases |ts| - p, 3
  {
    if !Is(ts, p, OR) then Some((left, p))
    else
      var right := AndAt(ts, p + 1);
      if right.None? then None else OrTail(ts, Or(left, right.value.0), right.value.1)
  }

  // Whatever is spelled is parsed back.

  ghost predicate Spelled(ts: seq<Token>, p: nat, s: seq<Token>) {
    p + |s| <= |ts| && forall i :: 0 <= i < |s| ==> TokenAt(ts, p, s, i)
  }

  ghost predicate TokenAt(ts: seq<Token>, p: nat, s: seq<Token>, i: nat)
    requires p + |s| <= |ts| && i < |s|
  {
    ts[p + i] == s[i]
  }

  lemma SpelledParts(ts: seq<Token>, p: nat, a: seq<Token>, t: Token, b: seq<Token>)
    requires Spelled(ts, p, a + [t] + b)
    ensures Spelled(ts, p, a) && p + |a| < |ts| && ts[p + |a|] == t && Spelled(ts, p + |a| + 1, b)
  {
    var s := a + [t] + b;
    forall i | 0 <= i < |a| ensures TokenAt(ts, p, a, i) { assert TokenAt(ts, p, s, i); }
    assert TokenAt(ts, p, s, |a|);
    var q := p + |a| + 1;
    forall i | 0 <= i < |b| ensures TokenAt(ts, q, b, i) { assert TokenAt(ts, p, s, |a| + 1 + i); }
  }

  lemma SpelledAt(ts: seq<Token>, p: nat, s: seq<Token>, i: nat)
    requires Spelled(ts, p, s) && i < |s|
    ensures p + i < |ts| && ts[p + i] == s[i]
  {
    assert TokenAt(ts, p, s, i);
  }

  lemma PlainParses(ts: seq<Token>, p: nat, c: Condition)
    requires IsPlain(c) && Spelled(ts, p, SpellPlain(c))
    ensures PlainAt(ts, p) == Some((c, p + |SpellPlain(c)|)) && !Is(ts, p, OPEN)
  {
    var s := SpellPlain(c);
    SpelledAt(ts, p, s, 0);
    SpelledAt(ts, p, s, 1);
    SpelledAt(ts, p, s, 2);
    ValueParses(ts, p, if c.Comparison? then c.left else c.value);
    match c
    case Comparison(_, op, r) => ValueParses(ts, p + 2, r);
    case Between(_, lo, hi) =>
      SpelledAt(ts, p, s, 3);
      SpelledAt(ts, p, s, 4);
      ValueParses(ts, p + 2, lo);
      ValueParses(ts, p + 4, hi);
    case Like(_, _) =>
  }

  lemma ValueParses(ts: seq<Token>, p: nat, e: Expression)
    requires IsValue(e) && p < |ts| && ts[p] == ValueToken(e)
    ensures ParseValueAt(ts, p) == Some(e)
  {
  }

  lemma {:induction false} PredParses(ts: seq<Token>, p: nat, t: Pred)
    requires PredOk(t) && Spelled(ts, p, SpellPred(t))
    ensures PredAt(ts, p) == Some((MeanPred(t), p + |SpellPred(t)|))
    decreases t, 0
  {
    match t
    case Plain(c) => PlainParses(ts, p, c);
    case Paren(inner) =>
      var s := SpellOr(inner, |inner.ands|);
      SpelledMiddle(ts, p, OPEN, s, CLOSE);
      OrParses(ts, p + 1, inner);
  }

  lemma SpelledMiddle(ts: seq<Token>, p: nat, a: Token, s: seq<Token>, b: Token)
    requires Spelled(ts, p, [a] + s + [b])
    ensures ts[p] == a && Spelled(ts, p + 1, s) && p + 1 + |s| < |ts| && ts[p + 1 + |s|] == b
  {
    assert [a] + s + [b] == [] + [a] + (s + [b]);
    SpelledParts(ts, p, [], a, s + [b]);
    assert s + [b] == s + [b] + [];
    SpelledParts(ts, p + 1, s, b, []);
  }

  /** Parsing the first `n` predicates leaves the rest to the loop. */
  lemma {:induction false} AndPrefixParses(ts: seq<Token>, p: nat, t: AndTree, n: nat)
    requires AndOk(t) && 0 < n <= |t.preds| && Spelled(ts, p, SpellAnd(t, n))
    ensures AndAt(ts, p) == AndTail(ts, MeanAnd(t, n), p + |SpellAnd(t, n)|)
    decreases t, n
  {
    hide PredAt, SpellPred, MeanPred, Renderable, Spelled;
    if n == 1 {
      PredParses(ts, p, t.preds[0]);
    } else {
      SpelledParts(ts, p, SpellAnd(t, n - 1), AND, SpellPred(t.preds[n - 1]));
      AndPrefixParses(ts, p, t, n - 1);
      PredParses(ts, p + |SpellAnd(t, n - 1)| + 1, t.preds[n - 1]);
    }
  }

  lemma {:induction false} OrPrefixParses(ts: seq<Token>, p: nat, t: OrTree, n: nat)
    requires OrOk(t) && 0 < n <= |t.ands| && Spelled(ts, p, SpellOr(t, n))
    requires !Is(ts, p + |SpellOr(t, n)|, AND)
    ensures OrAt(ts, p) == OrTail(ts, MeanOr(t, n), p + |SpellOr(t, n)|)
    decreases t, n
  {
    hide SpellAnd, MeanAnd, PredAt, PlainAt;
    var last := t.ands[n - 1];
    if n == 1 {
      AndPrefixParses(ts, p, last, |last.preds|);
    } else {
      SpelledParts(ts, p, SpellOr(t, n - 1), OR, SpellAnd(last, |last.preds|));
      OrPrefixParses(ts, p, t, n - 1);
      AndPrefixParses(ts, p + |SpellOr(t, n - 1)| + 1, last, |last.preds|);
    }
  }

  /** A spelled tree, followed by neither AND nor OR, is parsed to what it stands for, and
      exactly its tokens are used. */
  lemma {:induction false} OrParses(ts: seq<Token>, p: nat, t: OrTree)
    requires OrOk(t) && Spelled(ts, p, SpellOr(t, |t.ands|))
    requires !Is(ts, p + |SpellOr(t, |t.ands|)|, AND) && !Is(ts, p + |SpellOr(t, |t.ands|)|, OR)
    ensures OrAt(ts, p) == Some((MeanOr(t, |t.ands|), p + |SpellOr(t, |t.ands|)|))
    decreases t, |t.ands| + 1
  {
    OrPrefixParses(ts, p, t, |t.ands|);
  }

  // Whatever is parsed was spelled.

  lemma {:induction false} AndPrefixSame(t: AndTree, u: AndTree, n: nat)
    requires AndOk(t) && AndOk(u) && 0 < n <= |t.preds| && n <= |u.preds| && t.preds[..n] == u.preds[..n]
    ensures SpellAnd(t, n) == SpellAnd(u, n) && MeanAnd(t, n) == MeanAnd(u, n)
    decreases n
  {
    assert t.preds[..n][n - 1] == u.preds[..n][n - 1];
    if n > 1 {
      assert t.preds[..n - 1] == t.preds[..n][..n - 1] && u.preds[..n - 1] == u.preds[..n][..n - 1];
      AndPrefixSame(t, u, n - 1);
    }
  }

  lemma {:induction false} OrPrefixSame(t: OrTree, u: OrTree, n: nat)
    requires OrOk(t) && OrOk(u) && 0 < n <= |t.ands| && n <= |u.ands| && t.ands[..n] == u.ands[..n]
    ensures SpellOr(t, n) == SpellOr(u, n) && MeanOr(t, n) == MeanOr(u, n)
    decreases n
  {
    hide SpellAnd, MeanAnd;
    assert t.ands[..n][n - 1] == u.ands[..n][n - 1];
    if n > 1 {
      assert t.ands[..n - 1] == t.ands[..n][..n - 1] && u.ands[..n - 1] == u.ands[..n][..n - 1];
      OrPrefixSame(t, u, n - 1);
    }
  }

  lemma SpelledJoin(ts: seq<Token>, p: nat, a: seq<Token>, t: Token, b: seq<Token>)
    requires Spelled(ts, p, a) && p + |a| < |ts| && ts[p + |a|] == t && Spelled(ts, p + |a| + 1, b)
    ensures Spelled(ts, p, a + [t] + b)
  {
    var s, q := a + [t] + b, p + |a| + 1;
    forall i | 0 <= i < |s| ensures TokenAt(ts, p, s, i) {
      if i < |a| { assert TokenAt(ts, p, a, i); } else if i > |a| { assert TokenAt(ts, q, b, i - |a| - 1); }
    }
  }

  /** `t` spells the tokens from `p` to `q` and stands for `c`. */
  ghost predicate PredAs(ts: seq<Token>, p: nat, q: nat, t: Pred, c: Condition) {
    PredOk(t) && Spelled(ts, p, SpellPred(t)) && q == p + |SpellPred(t)| && c == MeanPred(t)
  }

  ghost predicate AndAs(ts: seq<Token>, p: nat, q: nat, t: AndTree, c: Condition) {
    var n := |t.preds|;
    AndOk(t) && Spelled(ts, p, SpellAnd(t, n)) && q == p + |SpellAnd(t, n)| && c == MeanAnd(t, n)
  }

  ghost predicate OrAs(ts: seq<Token>, p: nat, q: nat, t: OrTree, c: Condition) {
    var n := |t.ands|;
    OrOk(t) && Spelled(ts, p, SpellOr(t, n)) && q == p + |SpellOr(t, n)| && c == MeanOr(t, n)
  }

  lemma PlainSpelled(ts: seq<Token>, p: nat)
    requires PlainAt(ts, p).Some?
    ensures PredAs(ts, p, PlainAt(ts, p).value.1, Plain(PlainAt(ts, p).value.0), PlainAt(ts, p).value.0)
  {
    var (c, q) := PlainAt(ts, p).value;
    var s := SpellPlain(c);
    forall i | 0 <= i < |s| ensures TokenAt(ts, p, s, i) {
      assert i == 0 || i == 1 || i == 2 || i == 3 || i == 4;
    }
  }

  lemma {:induction false} PredSpelled(ts: seq<Token>, p: nat) returns (t: Pred)
    requires PredAt(ts, p).Some?
    ensures PredAs(ts, p, PredAt(ts, p).value.1, t, PredAt(ts, p).value.0)
    decreases if p <= |ts| then |ts| - p else 0, 0
  {
    if !Is(ts, p, OPEN) {
      PlainSpelled(ts, p);
      t := Plain(PlainAt(ts, p).value.0);
    } else {
      hide PlainAt, OrAt;
      var inner := OrSpelled(ts, p + 1);
      t := Paren(inner);
      var s := SpellOr(inner, |inner.ands|);
      var q := OrAt(ts, p + 1).value.1;
      SpelledOne(ts, p);
      SpelledOne(ts, q);
      Bracketed(ts, p, s);
    }
  }

  lemma SpelledOne(ts: seq<Token>, p: nat)
    requires p < |ts|
    ensures Spelled(ts, p, [ts[p]]) && Spelled(ts, p, [])
  {
  }

  lemma Bracketed(ts: seq<Token>, p: nat, s: seq<Token>)
    requires p < |ts| && ts[p] == OPEN && Spelled(ts, p + 1, s) && p + 1 + |s| < |ts| && ts[p + 1 + |s|] == CLOSE
    ensures Spelled(ts, p, [OPEN] + s + [CLOSE])
  {
    assert Spelled(ts, p + 1 + |s| + 1, []);
    SpelledJoin(ts, p + 1, s, CLOSE, []);
    assert s + [CLOSE] + [] == s + [CLOSE];
    assert Spelled(ts, p, []);
    SpelledJoin(ts, p, [], OPEN, s + [CLOSE]);
    assert [] + [OPEN] + (s + [CLOSE]) == [OPEN] + s + [CLOSE];
  }

  lemma {:induction false} AndSpelled(ts: seq<Token>, p: nat) returns (t: AndTree)
    requires AndAt(ts, p).Some?
    ensures AndAs(ts, p, AndAt(ts, p).value.1, t, AndAt(ts, p).value.0) && !Is(ts, AndAt(ts, p).value.1, AND)
    decreases if p <= |ts| then |ts| - p else 0, 2
  {
    var first := PredSpelled(ts, p);
    hide PredAt;
    t := AndTree([first]);
    t := AndTailSpelled(ts, p, t, PredAt(ts, p).value.1);
  }

  lemma {:induction false} AndTailSpelled(ts: seq<Token>, p: nat, t: AndTree, q: nat) returns (u: AndTree)
    requires p < q <= |ts| && AndAs(ts, p, q, t, MeanAndOf(t)) && AndTail(ts, MeanAndOf(t), q).Some?
    ensures var r := AndTail(ts, MeanAndOf(t), q).value;
      AndAs(ts, p, r.1, u, r.0) && !Is(ts, r.1, AND)
    decreases |ts| - q, 1
  {
    u := t;
    if Is(ts, q, AND) {
      var right := PredSpelled(ts, q + 1);
      hide PredAt, SpellPred, MeanPred;
      var n := |t.preds|;
      var v := AndTree(t.preds + [right]);
      assert v.preds[..n] == t.preds[..n];
      AndPrefixSame(v, t, n);
      SpelledJoin(ts, p, SpellAnd(t, n), AND, SpellPred(right));
      u := AndTailSpelled(ts, p, v, PredAt(ts, q + 1).value.1);
    }
  }

  function MeanAndOf(t: AndTree): Condition {
    if AndOk(t) then MeanAnd(t, |t.preds|) else Like(Identifier(""), "")
  }

  function MeanOrOf(t: OrTree): Condition {
    if OrOk(t) then MeanOr(t, |t.ands|) else Like(Identifier(""), "")
  }

  lemma {:induction false} OrSpelled(ts: seq<Token>, p: nat) returns (t: OrTree)
    requires OrAt(ts, p).Some?
    ensures var r := OrAt(ts, p).value;
      OrAs(ts, p, r.1, t, r.0) && !Is(ts, r.1, AND) && !Is(ts, r.1, OR)
    decreases if p <= |ts| then |ts| - p else 0, 4
  {
    var first := AndSpelled(ts, p);
    hide AndAt, SpellAnd, MeanAnd;
    t := OrTree([first]);
    t := OrTailSpelled(ts, p, t, AndAt(ts, p).value.1);
  }

  lemma {:induction false} OrTailSpelled(ts: seq<Token>, p: nat, t: OrTree, q: nat) returns (u: OrTree)
    requires p < q <= |ts| && OrAs(ts, p, q, t, MeanOrOf(t)) && OrTail(ts, MeanOrOf(t), q).Some? && !Is(ts, q, AND)
    ensures var r := OrTail(ts, MeanOrOf(t), q).value;
      OrAs(ts, p, r.1, u, r.0) && !Is(ts, r.1, AND) && !Is(ts, r.1, OR)
    decreases |ts| - q, 3
  {
    u := t;
    if Is(ts, q, OR) {
      var right := AndSpelled(ts, q + 1);
      hide AndAt, SpellAnd, MeanAnd;
      var n := |t.ands|;
      var v := OrTree(t.ands + [right]);
      assert v.ands[..n] == t.ands[..n];
      OrPrefixSame(v, t, n);
      SpelledJoin(ts, p, SpellOr(t, n), OR, SpellAnd(right, |right.preds|));
      u := OrTailSpelled(ts, p, v, AndAt(ts, q + 1).value.1);
    }
  }

  /** The parser accepts exactly the spelled trees that are followed by neither AND nor OR,
      and then it returns what the tree stands for and the position behind it. */
  lemma ParsedIffSpelled(ts: seq<Token>, p: nat, c: Condition, q: nat)
    ensures OrAt(ts, p) == Some((c, q)) <==>
      !Is(ts, q, AND) && !Is(ts, q, OR) && exists t :: OrAs(ts, p, q, t, c)
  {
    if OrAt(ts, p) == Some((c, q)) {
      var t := OrSpelled(ts, p);
    }
    if !Is(ts, q, AND) && !Is(ts, q, OR) && exists t :: OrAs(ts, p, q, t, c) {
      var t :| OrAs(ts, p, q, t, c);
      OrParses(ts, p, t);
    }
  }

  // Rendering conditions with as few brackets as the grammar allows.

  function PredOf(c: Condition): (p: Pred)
    requires Renderable(c)
    ensures PredOk(p)
    decreases c, 3
  {
    if c.And? || c.Or? then Paren(OrTreeOf(c)) else Plain(c)
  }

  function AndTreeOf(c: Condition): (t: AndTree)
    requires Renderable(c)
    ensures AndOk(t)
    decreases c, 4
  {
    if c.And? then AndTree(AndTreeOf(c.first).preds + [PredOf(c.second)])
    else AndTree([PredOf(c)])
  }

  function OrTreeOf(c: Condition): (t: OrTree)
    requires Renderable(c)
    ensures OrOk(t)
    decreases c, 2
  {
    if c.Or? then OrTree(OrTreeOf(c.first).ands + [AndTreeOf(c.second)])
    else if c.And? then OrTree([AndTree(AndTreeOf(c.first).preds + [PredOf(c.second)])])
    else OrTree([AndTree([Plain(c)])])
  }

  function Render(c: Condition): seq<Token>
    requires Renderable(c)
  {
    SpellOr(OrTreeOf(c), |OrTreeOf(c).ands|)
  }

  lemma MoreAnds(t: AndTree, p: Pred)
    requires AndOk(t) && PredOk(p)
    ensures var u := AndTree(t.preds + [p]);
      AndOk(u) && MeanAnd(u, |u.preds|) == And(MeanAnd(t, |t.preds|), MeanPred(p))
  {
    var u := AndTree(t.preds + [p]);
    assert u.preds[..|t.preds|] == t.preds[..|t.preds|];
    AndPrefixSame(u, t, |t.preds|);
  }

  lemma MoreOrs(t: OrTree, a: AndTree)
    requires OrOk(t) && AndOk(a)
    ensures var u := OrTree(t.ands + [a]);
      OrOk(u) && MeanOr(u, |u.ands|) == Or(MeanOr(t, |t.ands|), MeanAnd(a, |a.preds|))
  {
    hide MeanAnd;
    var u := OrTree(t.ands + [a]);
    assert u.ands[..|t.ands|] == t.ands[..|t.ands|];
    OrPrefixSame(u, t, |t.ands|);
  }

  lemma {:induction false} RenderMeans(c: Condition)
    requires Renderable(c)
    ensures MeanOr(OrTreeOf(c), |OrTreeOf(c).ands|) == c
    ensures MeanAnd(AndTreeOf(c), |AndTreeOf(c).preds|) == c
    ensures MeanPred(PredOf(c)) == c
    decreases c
  {
    if c.And? {
      RenderMeans(c.first);
      RenderMeans(c.second);
      MoreAnds(AndTreeOf(c.first), PredOf(c.second));
    } else if c.Or? {
      RenderMeans(c.first);
      RenderMeans(c.second);
      MoreOrs(OrTreeOf(c.first), AndTreeOf(c.second));
    } else {
      assert MeanAnd(AndTree([Plain(c)]), 1) == c;
    }
  }

  /** Parsing inverts rendering: wherever a rendered condition stands, followed by neither
      AND nor OR, it is parsed back and exactly its tokens are used. */
  lemma RenderParses(ts: seq<Token>, p: nat, c: Condition)
    requires Renderable(c) && Spelled(ts, p, Render(c))
    requires !Is(ts, p + |Render(c)|, AND) && !Is(ts, p + |Render(c)|, OR)
    ensures OrAt(ts, p) == Some((c, p + |Render(c)|))
  {
    RenderMeans(c);
    OrParses(ts, p, OrTreeOf(c));
  }
}
