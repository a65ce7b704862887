/** What shipping does to the words of a statement: leading zeros go, and nothing else. */
module ShippedSpelling {
  import opened Bytes
  import opened Ast
  import opened ConditionGrammar
  import opened StatementGrammar
  import opened AstCodec
  import A = AstRoundTrip
  import S = Sentences

  /** An integer without leading zeros. */
  function Short(t: Token): Token {
    if t.kind == IntegerLiteral && Stoi(t.value).Some? then Number(ToDigits(Stoi(t.value).value)) else t
  }

  function AllShort(ts: seq<Token>): (r: seq<Token>)
    ensures |r| == |ts| && forall i :: 0 <= i < |ts| ==> r[i] == Short(ts[i])
  {
    seq(|ts|, i requires 0 <= i < |ts| => Short(ts[i]))
  }

  /** The integers are in range. */
  predicate Fit(ts: seq<Token>) {
    forall i :: 0 <= i < |ts| ==> (ts[i].kind == IntegerLiteral ==> Stoi(ts[i].value).Some?)
  }

  /** `short` is what shipping makes of the tokens `ts`, which it does if they are `fit`. */
  ghost predicate Ships(ts: seq<Token>, short: seq<Token>, fit: bool) {
    short == AllShort(ts) && (fit <==> Fit(ts))
  }

  lemma Joins(a: seq<Token>, a': seq<Token>, f: bool, b: seq<Token>, b': seq<Token>, g: bool)
    requires Ships(a, a', f) && Ships(b, b', g)
    ensures Ships(a + b, a' + b', f && g)
  {
    hide Short;
    var s := a + b;
    assert AllShort(s) == AllShort(a) + AllShort(b);
    if Fit(s) {
      forall i | 0 <= i < |a| ensures a[i].kind == IntegerLiteral ==> Stoi(a[i].value).Some? { assert s[i] == a[i]; }
      forall i | 0 <= i < |b| ensures b[i].kind == IntegerLiteral ==> Stoi(b[i].value).Some? {
        assert s[|a| + i] == b[i];
      }
    }
  }

  /** Tokens without integers are shipped as they are. */
  lemma Stays(ts: seq<Token>)
    requires forall i :: 0 <= i < |ts| ==> ts[i].kind != IntegerLiteral
    ensures Ships(ts, ts, true)
  {
  }

  lemma OneShips(t: Token)
    ensures Ships([t], [Short(t)], t.kind == IntegerLiteral ==> Stoi(t.value).Some?)
  {
    assert [t][0] == t;
  }

  lemma ValueShips(e: Expression)
    requires IsValue(e)
    ensures IsValue(CanonicalExpression(e))
    ensures Ships([ValueToken(e)], [ValueToken(CanonicalExpression(e))], ExpressionInRange(e))
  {
    OneShips(ValueToken(e));
  }

  // Conditions.

  lemma PlainShips(c: Condition)
    requires IsPlain(c)
    ensures IsPlain(CanonicalCondition(c))
    ensures Ships(SpellPlain(c), SpellPlain(CanonicalCondition(c)), ConditionInRange(c))
  {
    hide Short, Ships, CanonicalExpression, ExpressionInRange, ValueToken, IsValue;
    match c
    case Comparison(l, op, r) =>
      ValueShips(l);
      ValueShips(r);
      var (a, b, t) := ([ValueToken(l)], [ValueToken(r)], [Token(OperatorToken, OperatorText(op))]);
      var (a', b') := ([ValueToken(CanonicalExpression(l))], [ValueToken(CanonicalExpression(r))]);
      Stays(t);
      Joins(a, a', ExpressionInRange(l), t, t, true);
      Joins(a + t, a' + t, ExpressionInRange(l), b, b', ExpressionInRange(r));
      assert a + t + b == SpellPlain(c) && a' + t + b' == SpellPlain(CanonicalCondition(c));
    case Between(v, lo, hi) =>
      ValueShips(v);
      ValueShips(lo);
      ValueShips(hi);
      var (x, a, b) := ([ValueToken(v)], [ValueToken(lo)], [ValueToken(hi)]);
      var (x', a', b') := ([ValueToken(CanonicalExpression(v))], [ValueToken(CanonicalExpression(lo))],
                           [ValueToken(CanonicalExpression(hi))]);
      Stays([BETWEEN]);
      Stays([AND]);
      Joins(x, x', ExpressionInRange(v), [BETWEEN], [BETWEEN], true);
      Joins(a, a', ExpressionInRange(lo), [AND], [AND], true);
      Joins(x + [BETWEEN], x' + [BETWEEN], ExpressionInRange(v), a + [AND], a' + [AND], ExpressionInRange(lo));
      Joins(x + [BETWEEN] + (a + [AND]), x' + [BETWEEN] + (a' + [AND]), ExpressionInRange(v) && ExpressionInRange(lo),
            b, b', ExpressionInRange(hi));
      assert x + [BETWEEN] + (a + [AND]) + b == SpellPlain(c);
      assert x' + [BETWEEN] + (a' + [AND]) + b' == SpellPlain(CanonicalCondition(c));
    case Like(v, pattern) =>
      var t := [LIKE, Token(StringLiteral, pattern)];
      ValueShips(v);
      Stays(t);
      Joins([ValueToken(v)], [ValueToken(CanonicalExpression(v))], ExpressionInRange(v), t, t, true);
      assert [ValueToken(v)] + t == SpellPlain(c);
      assert [ValueToken(CanonicalExpression(v))] + t == SpellPlain(CanonicalCondition(c));
  }

  lemma BracketsShip(ts: seq<Token>, short: seq<Token>, fit: bool)
    requires Ships(ts, short, fit)
    ensures Ships(S.Bracketed(ts), S.Bracketed(short), fit)
  {
    hide Ships;
    Stays([OPEN]);
    Stays([CLOSE]);
    Joins([OPEN], [OPEN], true, ts, short, fit);
    Joins([OPEN] + ts, [OPEN] + short, fit, [CLOSE], [CLOSE], true);
  }

  lemma SidesShip(c: Condition)
    requires Renderable(c) && Renderable(CanonicalCondition(c))
    requires Ships(Render(c), Render(CanonicalCondition(c)), ConditionInRange(c))
    ensures Ships(S.OffOr(c), S.OffOr(CanonicalCondition(c)), ConditionInRange(c))
    ensures Ships(S.OffBoth(c), S.OffBoth(CanonicalCondition(c)), ConditionInRange(c))
  {
    hide Ships, Render, S.Bracketed, ConditionInRange;
    BracketsShip(Render(c), Render(CanonicalCondition(c)), ConditionInRange(c));
  }

  lemma {:induction false} ConditionShips(c: Condition)
    requires Renderable(c)
    ensures Renderable(CanonicalCondition(c))
    ensures Ships(Render(c), Render(CanonicalCondition(c)), ConditionInRange(c))
    decreases c
  {
    hide Ships, Render, S.OffOr, S.OffBoth;
    if c.And? || c.Or? {
      var a, b, a', b' := c.first, c.second, CanonicalCondition(c.first), CanonicalCondition(c.second);
      var f, g := ConditionInRange(a), ConditionInRange(b);
      ConditionShips(a);
      ConditionShips(b);
      SidesShip(a);
      SidesShip(b);
      S.ConnectivesRendered(a, b);
      S.ConnectivesRendered(a', b');
      Stays([AND]);
      Stays([OR]);
      if c.And? {
        Joins(S.OffOr(a), S.OffOr(a'), f, [AND], [AND], true);
        Joins(S.OffOr(a) + [AND], S.OffOr(a') + [AND], f, S.OffBoth(b), S.OffBoth(b'), g);
      } else {
        Joins(Render(a), Render(a'), f, [OR], [OR], true);
        Joins(Render(a) + [OR], Render(a') + [OR], f, S.OffOr(b), S.OffOr(b'), g);
      }
    } else {
      PlainShips(c);
      S.PlainRendered(c);
      S.PlainRendered(CanonicalCondition(c));
    }
  }

  lemma WhereShips(c: Option<Condition>)
    requires c.Some? ==> Renderable(c.value)
    ensures A.CanonicalOption(c).Some? ==> Renderable(A.CanonicalOption(c).value)
    ensures Ships(SpellWhere(c), SpellWhere(A.CanonicalOption(c)), c.Some? ==> ConditionInRange(c.value))
  {
    hide Ships, Render, Renderable, ConditionInRange;
    Stays([]);
    if c.Some? {
      ConditionShips(c.value);
      Stays([Word("WHERE")]);
      Joins([Word("WHERE")], [Word("WHERE")], true, Render(c.value), Render(CanonicalCondition(c.value)),
            ConditionInRange(c.value));
    }
  }

  // Lists.

  /** `change` is what shipping does to the items that are spelled with `spell`. */
  ghost predicate ItemShips<X(!new)>(x: X, change: X -> X, spell: X -> seq<Token>, fit: X -> bool) {
    Ships(spell(x), spell(change(x)), fit(x))
  }

  lemma {:induction false} ListShips<X(!new)>(xs: seq<X>, change: X -> X, spell: X -> seq<Token>, fit: X -> bool)
    requires forall i :: 0 <= i < |xs| ==> ItemShips(xs[i], change, spell, fit)
    ensures Ships(SpellList(xs, spell), SpellList(A.Image(xs, change), spell), forall i :: 0 <= i < |xs| ==> fit(xs[i]))
    decreases |xs|
  {
    hide Ships;
    var ys := A.Image(xs, change);
    if xs == [] {
      Stays([]);
    } else if |xs| == 1 {
      assert ItemShips(xs[0], change, spell, fit);
    } else {
      var n := |xs| - 1;
      var (init, f) := (xs[..n], forall i :: 0 <= i < n ==> fit(xs[i]));
      assert A.Image(init, change) == ys[..n];
      ListShips(init, change, spell, fit);
      assert f <==> forall i :: 0 <= i < |init| ==> fit(init[i]);
      assert ItemShips(xs[n], change, spell, fit);
      Stays([COMMA]);
      Joins(SpellList(init, spell), SpellList(ys[..n], spell), f, [COMMA], [COMMA], true);
      Joins(SpellList(init, spell) + [COMMA], SpellList(ys[..n], spell) + [COMMA], f,
            spell(xs[n]), spell(change(xs[n])), fit(xs[n]));
    }
  }

  // Parts of statements.

  lemma LiteralShips(l: Literal)
    requires LiteralOk(l)
    ensures LiteralOk(Canonical(l)) && Ships(SpellLiteral(l), SpellLiteral(Canonical(l)), LiteralInRange(l))
  {
    ValueShips(LiteralExpr(l));
  }

  lemma RowShips(row: seq<Literal>)
    requires RowOk(row)
    ensures RowOk(A.CanonicalRow(row)) && Ships(SpellRow(row), SpellRow(A.CanonicalRow(row)), A.RowInRange(row))
  {
    hide Ships, LiteralOk, LiteralInRange, Canonical, SpellLiteral, SpellList;
    forall i | 0 <= i < |row|
      ensures ItemShips(row[i], Canonical, SpellLiteral, LiteralInRange) && LiteralOk(Canonical(row[i]))
    {
      LiteralShips(row[i]);
    }
    ListShips(row, Canonical, SpellLiteral, LiteralInRange);
    BracketsShip(SpellList(row, SpellLiteral), SpellList(A.Image(row, Canonical), SpellLiteral), A.RowInRange(row));
  }

  lemma ColumnShips(c: ColumnDef)
    requires ColumnDefOk(c)
    ensures ColumnDefOk(A.CanonicalColumn(c))
    ensures Ships(SpellColumn(c), SpellColumn(A.CanonicalColumn(c)), A.ColumnInRange(c))
  {
    hide Ships, LiteralOk, LiteralInRange, Canonical, SpellLiteral;
    var head := [Name(c.name), Word(if c.isInt then "INT" else "STRING")]
      + SpellFlag(c.notNull, "NOT_NULL") + SpellFlag(c.indexed, "INDEXED");
    Stays(head);
    Stays([]);
    if c.defaultValue.None? {
      Joins(head, head, true, [], [], true);
    } else {
      var l := c.defaultValue.value;
      var (a, b) := (SpellLiteral(l), SpellLiteral(Canonical(l)));
      LiteralShips(l);
      Stays([Word("DEFAULT")]);
      Joins([Word("DEFAULT")], [Word("DEFAULT")], true, a, b, LiteralInRange(l));
      Joins(head, head, true, [Word("DEFAULT")] + a, [Word("DEFAULT")] + b, LiteralInRange(l));
    }
  }

  predicate AssignmentInRange(a: (string, Expression)) { ExpressionInRange(a.1) }

  lemma AssignmentShips(a: (string, Expression))
    requires IsValue(a.1)
    ensures IsValue(A.CanonicalAssignment(a).1)
    ensures Ships(SpellAssignment(a), SpellAssignment(A.CanonicalAssignment(a)), AssignmentInRange(a))
  {
    hide Ships, IsValue, ValueToken, CanonicalExpression, ExpressionInRange;
    var head := [Name(a.0), ASSIGN];
    ValueShips(a.1);
    Stays(head);
    var (v, w) := ([ValueToken(a.1)], [ValueToken(CanonicalExpression(a.1))]);
    Joins(head, head, true, v, w, ExpressionInRange(a.1));
    assert head + v == SpellAssignment(a) && head + w == SpellAssignment(A.CanonicalAssignment(a));
  }

  predicate ItemInRange(item: SelectItem) { ExpressionInRange(item.expr) }

  lemma ItemShipped(item: SelectItem)
    requires ItemOk(item)
    ensures ItemOk(A.CanonicalItem(item))
    ensures Ships(SpellItem(item), SpellItem(A.CanonicalItem(item)), ItemInRange(item))
  {
    hide Ships, IsValue, ValueToken;
    var alias := if item.alias == "" then [] else [Word("AS"), Name(item.alias)];
    Stays(alias);
    var (e, f) := (SpellExpression(item.expr), SpellExpression(CanonicalExpression(item.expr)));
    if item.expr.Aggregate? { Stays(e); } else { ValueShips(item.expr); }
    Joins(e, f, ItemInRange(item), alias, alias, true);
  }

  lemma TableStays(t: TableRef)
    ensures Ships(SpellTable(t), SpellTable(t), true)
  {
    hide Ships;
    Stays(SpellTable(t));
  }

  // Statements.

  lemma CreateTableShips(s: Statement)
    requires StatementOk(s) && s.CreateTable?
    ensures StatementOk(A.CanonicalStatement(s))
    ensures Ships(SpellStatement(s), SpellStatement(A.CanonicalStatement(s)), A.InRange(s))
  {
    hide Ships, SpellTable, SpellColumn, SpellList, ColumnDefOk, A.CanonicalColumn, A.ColumnInRange;
    var cs, t := s.columns, SpellTable(s.table);
    forall i | 0 <= i < |cs|
      ensures ItemShips(cs[i], A.CanonicalColumn, SpellColumn, A.ColumnInRange) && ColumnDefOk(A.CanonicalColumn(cs[i]))
    {
      ColumnShips(cs[i]);
    }
    ListShips(cs, A.CanonicalColumn, SpellColumn, A.ColumnInRange);
    var (a, b) := (SpellList(cs, SpellColumn), SpellList(A.Image(cs, A.CanonicalColumn), SpellColumn));
    var head := [Word("CREATE"), Word("TABLE")];
    TableStays(s.table);
    Stays(head);
    Stays([OPEN]);
    Stays([CLOSE]);
    Joins(head, head, true, t, t, true);
    Joins(head + t, head + t, true, [OPEN], [OPEN], true);
    Joins(head + t + [OPEN], head + t + [OPEN], true, a, b, A.InRange(s));
    Joins(head + t + [OPEN] + a, head + t + [OPEN] + b, A.InRange(s), [CLOSE], [CLOSE], true);
  }

  lemma InsertShips(s: Statement)
    requires StatementOk(s) && s.Insert?
    ensures StatementOk(A.CanonicalStatement(s))
    ensures Ships(SpellStatement(s), SpellStatement(A.CanonicalStatement(s)), A.InRange(s))
  {
    hide Ships, SpellTable, SpellRow, SpellList, RowOk, A.CanonicalRow, A.RowInRange;
    var rows, t, ns := s.values, SpellTable(s.table), SpellList(s.columnNames, SpellName);
    forall i | 0 <= i < |rows|
      ensures ItemShips(rows[i], A.CanonicalRow, SpellRow, A.RowInRange) && RowOk(A.CanonicalRow(rows[i]))
    {
      RowShips(rows[i]);
    }
    ListShips(rows, A.CanonicalRow, SpellRow, A.RowInRange);
    var (a, b) := (SpellList(rows, SpellRow), SpellList(A.Image(rows, A.CanonicalRow), SpellRow));
    var (head, middle) := ([Word("INSERT"), Word("INTO")], [CLOSE, Word("VALUE")]);
    TableStays(s.table);
    NamesStay(s.columnNames);
    Stays(head);
    Stays([OPEN]);
    Stays(middle);
    Joins(head, head, true, t, t, true);
    Joins(head + t, head + t, true, [OPEN], [OPEN], true);
    Joins(head + t + [OPEN], head + t + [OPEN], true, ns, ns, true);
    var all := head + t + [OPEN] + ns;
    Joins(all, all, true, middle, middle, true);
    Joins(all + middle, all + middle, true, a, b, A.InRange(s));
  }

  lemma {:induction false} NamesStay(names: seq<string>)
    ensures Ships(SpellList(names, SpellName), SpellList(names, SpellName), true)
    decreases |names|
  {
    hide Ships;
    if names == [] {
      Stays([]);
    } else {
      var n := |names| - 1;
      Stays([Name(names[n])]);
      if n > 0 {
        var init := SpellList(names[..n], SpellName);
        NamesStay(names[..n]);
        Stays([COMMA]);
        Joins(init, init, true, [COMMA], [COMMA], true);
        Joins(init + [COMMA], init + [COMMA], true, [Name(names[n])], [Name(names[n])], true);
      }
    }
  }

  lemma UpdateShips(s: Statement)
    requires StatementOk(s) && s.Update?
    ensures StatementOk(A.CanonicalStatement(s))
    ensures Ships(SpellStatement(s), SpellStatement(A.CanonicalStatement(s)), A.InRange(s))
  {
    hide Ships, SpellTable, SpellAssignment, SpellList, IsValue, A.CanonicalAssignment, ExpressionInRange, SpellWhere;
    hide ConditionInRange, Renderable;
    var xs, t, c := s.assignments, SpellTable(s.table), s.condition;
    forall i | 0 <= i < |xs|
      ensures ItemShips(xs[i], A.CanonicalAssignment, SpellAssignment, AssignmentInRange)
        && IsValue(A.CanonicalAssignment(xs[i]).1)
    {
      AssignmentShips(xs[i]);
    }
    ListShips(xs, A.CanonicalAssignment, SpellAssignment, AssignmentInRange);
    WhereShips(c);
    var (a, b) := (SpellList(xs, SpellAssignment), SpellList(A.Image(xs, A.CanonicalAssignment), SpellAssignment));
    var fit := forall i :: 0 <= i < |xs| ==> AssignmentInRange(xs[i]);
    TableStays(s.table);
    Stays([Word("UPDATE")]);
    Stays([Word("SET")]);
    var head := [Word("UPDATE")] + t + [Word("SET")];
    Joins([Word("UPDATE")], [Word("UPDATE")], true, t, t, true);
    Joins([Word("UPDATE")] + t, [Word("UPDATE")] + t, true, [Word("SET")], [Word("SET")], true);
    Joins(head, head, true, a, b, fit);
    Joins(head + a, head + b, fit, SpellWhere(c), SpellWhere(A.CanonicalOption(c)), ConditionInRange(c.value));
  }

  lemma DeleteShips(s: Statement)
    requires StatementOk(s) && s.Delete?
    ensures StatementOk(A.CanonicalStatement(s))
    ensures Ships(SpellStatement(s), SpellStatement(A.CanonicalStatement(s)), A.InRange(s))
  {
    hide Ships, SpellTable, SpellWhere, ConditionInRange, Renderable;
    var t, c, head := SpellTable(s.table), s.condition, [Word("DELETE"), Word("FROM")];
    WhereShips(c);
    TableStays(s.table);
    Stays(head);
    Joins(head, head, true, t, t, true);
    Joins(head + t, head + t, true, SpellWhere(c), SpellWhere(A.CanonicalOption(c)), ConditionInRange(c.value));
  }

  lemma SelectShips(s: Statement)
    requires StatementOk(s) && s.Select?
    ensures StatementOk(A.CanonicalStatement(s))
    ensures Ships(SpellStatement(s), SpellStatement(A.CanonicalStatement(s)), A.InRange(s))
  {
    hide Ships, SpellTable, SpellItem, SpellList, ItemOk, A.CanonicalItem, ExpressionInRange, SpellWhere;
    hide ConditionInRange, Renderable;
    var xs, t, c := s.items, SpellTable(s.table), s.condition;
    forall i | 0 <= i < |xs|
      ensures ItemShips(xs[i], A.CanonicalItem, SpellItem, ItemInRange) && ItemOk(A.CanonicalItem(xs[i]))
    {
      ItemShipped(xs[i]);
    }
    ListShips(xs, A.CanonicalItem, SpellItem, ItemInRange);
    WhereShips(c);
    Stays([STAR]);
    var (a, b) := if s.all then ([STAR], [STAR])
                  else (SpellList(xs, SpellItem), SpellList(A.Image(xs, A.CanonicalItem), SpellItem));
    var fit := forall i :: 0 <= i < |xs| ==> ItemInRange(xs[i]);
    TableStays(s.table);
    Stays([Word("SELECT")]);
    Stays([Word("FROM")]);
    var (p, q) := ([Word("SELECT")] + a + [Word("FROM")], [Word("SELECT")] + b + [Word("FROM")]);
    Joins([Word("SELECT")], [Word("SELECT")], true, a, b, fit);
    Joins([Word("SELECT")] + a, [Word("SELECT")] + b, fit, [Word("FROM")], [Word("FROM")], true);
    Joins(p, q, fit, t, t, true);
    Joins(p + t, q + t, fit, SpellWhere(c), SpellWhere(A.CanonicalOption(c)), c.Some? ==> ConditionInRange(c.value));
  }

  lemma OthersStay(s: Statement)
    requires s.CreateDatabase? || s.DropDatabase? || s.UseDatabase? || s.DropTable?
    ensures Ships(SpellStatement(s), SpellStatement(A.CanonicalStatement(s)), A.InRange(s))
  {
    hide Ships;
    Stays(SpellStatement(s));
  }

  lemma RightsStay(s: Statement)
    requires StatementOk(s) && (s.Grant? || s.Revoke?)
    ensures Ships(SpellStatement(s), SpellStatement(A.CanonicalStatement(s)), A.InRange(s))
  {
    hide Ships;
    WordsStay(s.permissions);
    hide SpellList;
    Stays(SpellStatement(s));
  }

  lemma {:induction false} WordsStay(ps: seq<string>)
    ensures forall i :: 0 <= i < |SpellList(ps, SpellPermission)| ==>
      SpellList(ps, SpellPermission)[i].kind != IntegerLiteral
    decreases |ps|
  {
    if |ps| > 1 { WordsStay(ps[..|ps| - 1]); }
  }

  /** Every statement but a REVERT, whose time stamp is shipped as it is, and the password of
      a user: what arrives is spelled with the same tokens, the integers without leading
      zeros; and it is shipped exactly when each integer is in range. */
  lemma StatementShips(s: Statement)
    requires StatementOk(s)
    ensures StatementOk(A.CanonicalStatement(s))
    ensures !s.Revert? && !s.CreateUser? ==>
      Ships(SpellStatement(s), SpellStatement(A.CanonicalStatement(s)), A.InRange(s))
    ensures s.Revert? ==> A.CanonicalStatement(s) == s && A.InRange(s)
    ensures s.CreateUser? ==> A.CanonicalStatement(s) == s.(password := "") && A.InRange(s)
  {
    hide Ships, SpellStatement;
    match s
    case CreateTable(_, _) => CreateTableShips(s);
    case Insert(_, _, _) => InsertShips(s);
    case Update(_, _, _) => UpdateShips(s);
    case Delete(_, _) => DeleteShips(s);
    case Select(_, _, _, _) => SelectShips(s);
    case Grant(_, _, _) => RightsStay(s);
    case Revoke(_, _, _) => RightsStay(s);
    case Revert(_, _) =>
    case CreateUser(_, _) =>
    case _ => OthersStay(s);
  }
}
