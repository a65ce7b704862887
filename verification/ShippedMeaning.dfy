/** What a storage node evaluates is what the server parsed. */
module ShippedMeaning {
  import opened Bytes
  import opened TableSpec
  import A = Ast
  import opened AstCodec
  import opened AstRoundTrip
  import E = Executor

  lemma LiteralKeepsMeaning(l: A.Literal)
    requires LiteralInRange(l)
    ensures E.LiteralMeaning(Canonical(l)) == E.LiteralMeaning(l)
  {
    if l.kind.IntegerType? {
      A.DigitsReadBack(A.Stoi(l.value).value);
    }
  }

  lemma ExpressionKeepsMeaning(e: A.Expression, columns: seq<Column>, row: seq<E.Datum>)
    requires ExpressionInRange(e) && |row| == |columns|
    ensures E.ExpressionMeaning(CanonicalExpression(e), columns, row) == E.ExpressionMeaning(e, columns, row)
  {
    if e.LiteralExpr? { LiteralKeepsMeaning(e.literal); }
  }

  /** A shipped condition has the same verdict as the parsed one on every row. */
  lemma {:induction false} ConditionKeepsMeaning(c: A.Condition, columns: seq<Column>, row: seq<E.Datum>,
                                                 matches: (string, E.Text) -> Option<bool>, order: E.TextOrder)
    requires ConditionInRange(c) && |row| == |columns|
    ensures ConditionJson(c).Some? && ConditionOf(ConditionJson(c).value).Some?
    ensures E.Meaning(ConditionOf(ConditionJson(c).value).value, columns, row, matches, order) ==
      E.Meaning(c, columns, row, matches, order)
  {
    ConditionRoundTrip(c);
    CanonicalMeans(c, columns, row, matches, order);
  }

  lemma {:induction false} CanonicalMeans(c: A.Condition, columns: seq<Column>, row: seq<E.Datum>,
                                          matches: (string, E.Text) -> Option<bool>, order: E.TextOrder)
    requires ConditionInRange(c) && |row| == |columns|
    ensures E.Meaning(CanonicalCondition(c), columns, row, matches, order) == E.Meaning(c, columns, row, matches, order)
    decreases c
  {
    match c
    case Comparison(l, _, r) =>
      ExpressionKeepsMeaning(l, columns, row);
      ExpressionKeepsMeaning(r, columns, row);
    case Between(v, lo, hi) =>
      ExpressionKeepsMeaning(v, columns, row);
      ExpressionKeepsMeaning(lo, columns, row);
      ExpressionKeepsMeaning(hi, columns, row);
    case Like(v, _) => ExpressionKeepsMeaning(v, columns, row);
    case And(a, b) =>
      CanonicalMeans(a, columns, row, matches, order);
      CanonicalMeans(b, columns, row, matches, order);
    case Or(a, b) =>
      CanonicalMeans(a, columns, row, matches, order);
      CanonicalMeans(b, columns, row, matches, order);
  }
}
