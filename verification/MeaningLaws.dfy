/** Laws of the meaning of conditions: what each construct makes of its parts. */
module MeaningLaws {
  import opened Bytes
  import opened Values
  import opened TableSpec
  import A = Ast
  import opened Executor

  /** The condition is false of the row. */
  ghost predicate Refutes(x: Context, c: A.Condition, fields: seq<Value>) {
    |fields| == |x.columns| && Meaning(c, x.columns, RowOf(fields, x.view), x.matches, x.order) == Truth(False)
  }

  // Connectives.

  /** OR has a truth value where both sides have one; it is true where a side is, false where
      both are, and unknown elsewhere. */
  lemma OrHolds(x: Context, a: A.Condition, b: A.Condition, fields: seq<Value>)
    ensures Decided(x, A.Or(a, b), fields) <==> Decided(x, a, fields) && Decided(x, b, fields)
    ensures Decided(x, a, fields) && Decided(x, b, fields) ==>
      && (Satisfies(x, A.Or(a, b), fields) <==> Satisfies(x, a, fields) || Satisfies(x, b, fields))
      && (Refutes(x, A.Or(a, b), fields) <==> Refutes(x, a, fields) && Refutes(x, b, fields))
  {
  }

  /** AND has a truth value where both sides have one; it is true where both are, false where
      a side is, and unknown elsewhere. */
  lemma AndHolds(x: Context, a: A.Condition, b: A.Condition, fields: seq<Value>)
    ensures Decided(x, A.And(a, b), fields) <==> Decided(x, a, fields) && Decided(x, b, fields)
    ensures Decided(x, a, fields) && Decided(x, b, fields) ==>
      && (Satisfies(x, A.And(a, b), fields) <==> Satisfies(x, a, fields) && Satisfies(x, b, fields))
      && (Refutes(x, A.And(a, b), fields) <==> Refutes(x, a, fields) || Refutes(x, b, fields))
  {
  }

  // Comparisons.

  /** Which of the orders an operator accepts. */
  ghost predicate Accepts(op: A.Operator, less: bool, equal: bool, greater: bool) {
    match op
    case Equal => equal
    case NotEqual => less || greater
    case Less => less
    case Greater => greater
    case LessEqual => less || equal
    case GreaterEqual => greater || equal
  }

  /** Numbers are compared as numbers, texts byte by byte from the first place where they
      differ; a comparison with NULL is unknown, and one of a number with a text is an error. */
  lemma Compares(op: A.Operator, m: int, n: int, s: Text, t: Text, d: Datum)
    ensures Compare(op, DInt(m), DInt(n)) == Truth(if Accepts(op, m < n, m == n, m > n) then True else False)
    ensures Compare(op, DText(s), DText(t)) ==
      Truth(if Accepts(op, exists k: nat :: LessFrom(s, t, k), s == t, exists k: nat :: LessFrom(t, s, k))
            then True else False)
    ensures Compare(op, DNull, d) == Compare(op, d, DNull) == Truth(Unknown)
    ensures Compare(op, DInt(m), DText(t)) == Compare(op, DText(t), DInt(m)) == Error
  {
    hide LexLess, LessFrom;
    LexLessIs(s, t);
    LexLessIs(t, s);
    LexOrder(s, t, s);
  }

  // BETWEEN and LIKE.

  /** Two texts, which BETWEEN compares by their ids. */
  predicate BothTexts(a: Option<Datum>, b: Option<Datum>) {
    a.Some? && b.Some? && a.value.DText? && b.value.DText?
  }

  /** Off texts BETWEEN is the two comparisons with its bounds, both included. */
  lemma BetweenIsAnd(v: A.Expression, lo: A.Expression, hi: A.Expression, columns: seq<Column>, row: seq<Datum>,
                     matches: (string, Text) -> Option<bool>, order: TextOrder)
    requires |row| == |columns|
    requires var x := ExpressionMeaning(v, columns, row);
      !BothTexts(x, ExpressionMeaning(lo, columns, row)) && !BothTexts(x, ExpressionMeaning(hi, columns, row))
    ensures Meaning(A.Between(v, lo, hi), columns, row, matches, order) ==
      Meaning(A.And(A.Comparison(v, A.GreaterEqual, lo), A.Comparison(v, A.LessEqual, hi)),
              columns, row, matches, order)
  {
    hide Compare, ExpressionMeaning;
    var c, d := A.Comparison(v, A.GreaterEqual, lo), A.Comparison(v, A.LessEqual, hi);
    assert Meaning(A.And(c, d), columns, row, matches, order) ==
      Both(Meaning(c, columns, row, matches, order), Meaning(d, columns, row, matches, order));
  }

  /** On numbers that is the interval, on texts the interval of the order. */
  lemma BetweenHolds(v: A.Expression, lo: A.Expression, hi: A.Expression, columns: seq<Column>, row: seq<Datum>,
                     matches: (string, Text) -> Option<bool>, order: TextOrder)
    requires |row| == |columns|
    ensures var (x, a, b) := (ExpressionMeaning(v, columns, row), ExpressionMeaning(lo, columns, row),
                              ExpressionMeaning(hi, columns, row));
      var r := Meaning(A.Between(v, lo, hi), columns, row, matches, order);
      && (forall k, m, n :: x == Some(DInt(k)) && a == Some(DInt(m)) && b == Some(DInt(n)) ==>
          r == Truth(if m <= k <= n then True else False))
      && (forall s, t, u :: x == Some(DText(s)) && a == Some(DText(t)) && b == Some(DText(u)) ==>
          r == Truth(if !order(s, t) && (order(s, u) || s == u) then True else False))
  {
    hide ExpressionMeaning;
  }

  /** LIKE is true exactly where the engine finds that the text matches, false where it finds
      that it does not, unknown for NULL, and else an error. */
  lemma LikeHolds(v: A.Expression, pattern: string, columns: seq<Column>, row: seq<Datum>,
                  matches: (string, Text) -> Option<bool>, order: TextOrder)
    requires |row| == |columns|
    ensures var (x, r) := (ExpressionMeaning(v, columns, row),
                           Meaning(A.Like(v, pattern), columns, row, matches, order));
      && (r == Truth(True) <==> x.Some? && x.value.DText? && matches(pattern, x.value.text) == Some(true))
      && (r == Truth(False) <==> x.Some? && x.value.DText? && matches(pattern, x.value.text) == Some(false))
      && (r == Truth(Unknown) <==> x == Some(DNull))
  {
    hide ExpressionMeaning;
  }

  // Expressions and assignments.

  /** A column stands for its field, digits for their number, a quoted text for its bytes. */
  lemma ExpressionsStandFor(columns: seq<Column>, row: seq<Datum>, i: nat, n: nat, s: string)
    requires |row| == |columns| && i < |columns|
    requires forall j :: 0 <= j < |columns| && j != i ==> columns[j].name != columns[i].name
    ensures ExpressionMeaning(A.Identifier(columns[i].name), columns, row) == Some(row[i])
    ensures ExpressionMeaning(A.LiteralExpr(A.Literal(A.IntegerType, A.ToDigits(n))), columns, row) ==
      if n <= I32_MAX then Some(DInt(n)) else None
    ensures ExpressionMeaning(A.LiteralExpr(A.Literal(A.StringType, s)), columns, row) == Some(DText(TextOf(s)))
    ensures ExpressionMeaning(A.LiteralExpr(A.Literal(A.NullType, s)), columns, row) == Some(DNull)
  {
    A.StoiReads(n, s);
    hide A.Stoi, A.ToDigits, A.DigitsValue;
  }

  /** A column that is given no value holds its default, or NULL without one. */
  lemma DefaultsStandFor(c: Column, v: Value, view: map<nat, Text>, n: int, t: Text)
    requires IsDefault(c, v, view)
    ensures c.default == DefaultInt(n) ==> DatumOf(v, view) == DInt(n)
    ensures c.default == DefaultString(t) ==> DatumOf(v, view) == DText(t)
    ensures c.default == NoDefault || c.default == DefaultNull ==> DatumOf(v, view) == DNull
  {
  }

  /** SET stores a value in its column and leaves the others, or fails for an unknown column
      or an expression without value. */
  lemma AssignStores(columns: seq<Column>, row: seq<Datum>, name: string, e: A.Expression)
    requires |row| == |columns|
    ensures var (r, v) := (AssignMeaning([(name, e)], columns, row), ExpressionMeaning(e, columns, row));
      && (r.None? <==> v.None? || forall j :: 0 <= j < |columns| ==> columns[j].name != name)
      && (r.Some? ==> forall j :: 0 <= j < |columns| ==>
          if ColumnIndex(columns, name) == Some(j) then r.value[j] == v.value else r.value[j] == row[j])
  {
    hide ExpressionMeaning;
    var init := [(name, e)][..0];
    assert AssignMeaning(init, columns, row) == Some(row);
  }

  /** Assignments are made in order: the later ones see what the earlier ones stored. */
  lemma {:induction false} AssignInOrder(first: seq<(string, A.Expression)>, second: seq<(string, A.Expression)>,
                                         columns: seq<Column>, row: seq<Datum>)
    requires |row| == |columns|
    ensures var mid := AssignMeaning(first, columns, row);
      AssignMeaning(first + second, columns, row) ==
        if mid.None? then None else AssignMeaning(second, columns, mid.value)
    decreases |second|
  {
    hide ExpressionMeaning;
    if second == [] {
      assert first + second == first;
    } else {
      var init := second[..|second| - 1];
      assert (first + second)[..|first + second| - 1] == first + init;
      AssignInOrder(first, init, columns, row);
    }
  }
}
