/** Which accepted statements the grammar has, by tests on the tokens alone. */
module StatementTests {
  import opened Bytes
  import opened Ast
  import opened ConditionGrammar
  import opened StatementGrammar
  import opened StatementProofs
  import opened StatementSpelling
  import opened StatementExact

  /** The first place from `p` on with a token of some kind. */
  function First(ts: seq<Token>, p: nat, kind: Token -> bool): (q: nat)
    ensures p <= q
    decreases |ts| - p
  {
    if p >= |ts| || kind(ts[p]) then p else First(ts, p + 1, kind)
  }

  ghost predicate Clear(ts: seq<Token>, p: nat, q: nat, kind: Token -> bool) {
    p <= q <= |ts| && forall i :: p <= i < q ==> !kind(ts[i])
  }

  lemma {:induction false} FirstIs(ts: seq<Token>, p: nat, q: nat, kind: Token -> bool)
    requires Clear(ts, p, q, kind) && (q < |ts| ==> kind(ts[q]))
    ensures First(ts, p, kind) == q
    decreases q - p
  {
    if p < q { FirstIs(ts, p + 1, q, kind); }
  }

  predicate IsValueWord(t: Token) { t == Word("VALUE") }

  predicate IsFrom(t: Token) { t == Word("FROM") }

  predicate IsLiteralToken(t: Token) { t.kind == StringLiteral || t.kind == IntegerLiteral || t == Word("NULL") }

  /** The end of the tokens, or a semicolon. */
  predicate IsStop(t: Token) { t.kind == EndOfFile || t == SEMICOLON }

  /** A comma behind the first VALUE of an INSERT. */
  predicate CommaFirst(ts: seq<Token>, p: nat) {
    Is(ts, p, Word("INSERT")) && Is(ts, First(ts, p, IsValueWord) + 1, COMMA)
  }

  /** A literal before the first FROM of a SELECT. */
  predicate LiteralItem(ts: seq<Token>, p: nat) {
    Is(ts, p, Word("SELECT")) && First(ts, p, IsLiteralToken) < First(ts, p, IsFrom)
  }

  /** A semicolon before any end of the tokens. */
  predicate HasSemicolon(ts: seq<Token>, p: nat) {
    Is(ts, First(ts, p, IsStop), SEMICOLON)
  }

  // What kinds of tokens the parts of a statement are free of.

  ghost predicate EachClear<X(!new)>(ts: seq<Token>, spelled: (seq<Token>, nat, nat, X) -> bool, kind: Token -> bool) {
    forall p: nat, q: nat, x :: spelled(ts, p, q, x) ==> p < q && Clear(ts, p, q, kind)
  }

  lemma {:induction false} ListClear<X(!new)>(ts: seq<Token>, p: nat, q: nat, xs: seq<X>,
                                              spelled: (seq<Token>, nat, nat, X) -> bool, kind: Token -> bool)
    requires ListSpelled(ts, p, q, xs, spelled) && EachClear(ts, spelled, kind) && !kind(COMMA)
    ensures p < q && Clear(ts, p, q, kind)
    decreases |xs|
  {
    var n := |xs| - 1;
    if n > 0 {
      var m: nat :| ListSpelled(ts, p, m, xs[..n], spelled) && Is(ts, m, COMMA) && spelled(ts, m + 1, q, xs[n]);
      ListClear(ts, p, m, xs[..n], spelled, kind);
    }
  }

  lemma NamesClear(ts: seq<Token>)
    ensures EachClear(ts, NameSpelled, IsValueWord) && EachClear(ts, NameSpelled, IsStop)
    ensures EachClear(ts, TableSpelled, IsValueWord) && EachClear(ts, TableSpelled, IsStop)
    ensures EachClear(ts, ScopeSpelled, IsStop) && EachClear(ts, PermissionSpelled, IsStop)
  {
    hide Clear, TableSpelled, ScopeSpelled, NameSpelled, PermissionSpelled;
    forall p: nat, q: nat, name | NameSpelled(ts, p, q, name)
      ensures p < q && Clear(ts, p, q, IsValueWord) && Clear(ts, p, q, IsStop)
    {
      NameClear(ts, p, q, name);
    }
    forall p: nat, q: nat, t | TableSpelled(ts, p, q, t)
      ensures p < q && Clear(ts, p, q, IsValueWord) && Clear(ts, p, q, IsStop)
    {
      TableClear(ts, p, q, t);
    }
    forall p: nat, q: nat, t | ScopeSpelled(ts, p, q, t) ensures p < q && Clear(ts, p, q, IsStop) {
      ScopeClear(ts, p, q, t);
    }
    forall p: nat, q: nat, s | PermissionSpelled(ts, p, q, s) ensures p < q && Clear(ts, p, q, IsStop) {
      PermissionClear(ts, p, q, s);
    }
  }

  lemma NameClear(ts: seq<Token>, p: nat, q: nat, name: string)
    requires NameSpelled(ts, p, q, name)
    ensures p < q && Clear(ts, p, q, IsValueWord) && Clear(ts, p, q, IsStop)
  {
  }

  lemma TableClear(ts: seq<Token>, p: nat, q: nat, t: TableRef)
    requires TableSpelled(ts, p, q, t)
    ensures p < q && Clear(ts, p, q, IsValueWord) && Clear(ts, p, q, IsStop)
  {
  }

  lemma ScopeClear(ts: seq<Token>, p: nat, q: nat, t: TableRef)
    requires ScopeSpelled(ts, p, q, t)
    ensures p < q && Clear(ts, p, q, IsStop)
  {
  }

  lemma PermissionClear(ts: seq<Token>, p: nat, q: nat, s: string)
    requires PermissionSpelled(ts, p, q, s)
    ensures p < q && Clear(ts, p, q, IsStop)
  {
  }

  lemma LiteralsClear(ts: seq<Token>)
    ensures EachClear(ts, LiteralSpelled, IsStop)
  {
  }

  lemma RowsClear(ts: seq<Token>)
    ensures EachClear(ts, RowSpelled, IsStop)
  {
    hide LiteralSpelled;
    forall p: nat, q: nat, row | RowSpelled(ts, p, q, row) ensures p < q && Clear(ts, p, q, IsStop) {
      LiteralsClear(ts);
      ListClear(ts, p + 1, q - 1, row, LiteralSpelled, IsStop);
    }
  }

  lemma ColumnClear(ts: seq<Token>, p: nat, q: nat, c: ColumnDef)
    requires ColumnSpelled(ts, p, q, c)
    ensures p < q && Clear(ts, p, q, IsStop)
  {
  }

  lemma ColumnsClear(ts: seq<Token>)
    ensures EachClear(ts, ColumnSpelled, IsStop)
  {
    hide ColumnSpelled, Clear;
    forall p: nat, q: nat, c | ColumnSpelled(ts, p, q, c) ensures p < q && Clear(ts, p, q, IsStop) {
      ColumnClear(ts, p, q, c);
    }
  }

  lemma AssignmentsClear(ts: seq<Token>)
    ensures EachClear(ts, AssignmentSpelled, IsStop)
  {
  }

  /** One item of SELECT; it has a literal token exactly if it is a literal. */
  lemma ItemClear(ts: seq<Token>, p: nat, q: nat, item: SelectItem)
    requires AnyItem(ts, p, q, item)
    ensures p < q && Clear(ts, p, q, IsStop) && Clear(ts, p, q, IsFrom)
    ensures Clear(ts, p, q, IsLiteralToken) <==> !item.expr.LiteralExpr?
  {
    if item.expr.LiteralExpr? { assert IsLiteralToken(ts[p]); }
  }

  lemma ItemsClear(ts: seq<Token>)
    ensures EachClear(ts, AnyItem, IsStop) && EachClear(ts, AnyItem, IsFrom)
  {
    hide AnyItem, Clear;
    forall p: nat, q: nat, item | AnyItem(ts, p, q, item)
      ensures p < q && Clear(ts, p, q, IsStop) && Clear(ts, p, q, IsFrom)
    {
      ItemClear(ts, p, q, item);
    }
  }

  /** The items are the grammar's exactly if none of their tokens is a literal. */
  lemma LiteralFree(ts: seq<Token>, p: nat, q: nat, items: seq<SelectItem>)
    requires ListSpelled(ts, p, q, items, AnyItem)
    ensures ListSpelled(ts, p, q, items, ItemSpelled) <==> Clear(ts, p, q, IsLiteralToken)
  {
    hide AnyItem, Clear, ItemSpelled, IsLiteralToken, ListSpelled;
    if ListSpelled(ts, p, q, items, ItemSpelled) { StrictClear(ts, p, q, items); }
    if Clear(ts, p, q, IsLiteralToken) { ClearStrict(ts, p, q, items); }
  }

  lemma {:induction false} ClearStrict(ts: seq<Token>, p: nat, q: nat, items: seq<SelectItem>)
    requires ListSpelled(ts, p, q, items, AnyItem) && Clear(ts, p, q, IsLiteralToken)
    ensures ListSpelled(ts, p, q, items, ItemSpelled)
    decreases |items|
  {
    hide AnyItem, Clear, ItemSpelled, IsLiteralToken;
    var n := |items| - 1;
    if n == 0 {
      ItemClear(ts, p, q, items[0]);
      NoLiteral(ts, p, q, items[0]);
    } else {
      var m: nat :| ListSpelled(ts, p, m, items[..n], AnyItem) && Is(ts, m, COMMA) && AnyItem(ts, m + 1, q, items[n]);
      ListEnds(ts, p, m, items[..n]);
      ItemClear(ts, m + 1, q, items[n]);
      ClearParts(ts, p, m, m + 1, q, IsLiteralToken);
      NoLiteral(ts, m + 1, q, items[n]);
      ClearStrict(ts, p, m, items[..n]);
    }
  }

  lemma ListEnds(ts: seq<Token>, p: nat, q: nat, items: seq<SelectItem>)
    requires ListSpelled(ts, p, q, items, AnyItem)
    ensures p < q
  {
    hide AnyItem, Clear, ListSpelled;
    ItemsClear(ts);
    ListClear(ts, p, q, items, AnyItem, IsStop);
  }

  lemma NoLiteral(ts: seq<Token>, p: nat, q: nat, item: SelectItem)
    requires AnyItem(ts, p, q, item)
    ensures ItemSpelled(ts, p, q, item) <==> !item.expr.LiteralExpr?
  {
  }

  lemma ClearParts(ts: seq<Token>, p: nat, m: nat, r: nat, q: nat, kind: Token -> bool)
    requires Clear(ts, p, q, kind) && p <= m <= r <= q
    ensures Clear(ts, p, m, kind) && Clear(ts, r, q, kind)
  {
  }

  lemma {:induction false} StrictClear(ts: seq<Token>, p: nat, q: nat, items: seq<SelectItem>)
    requires ListSpelled(ts, p, q, items, ItemSpelled)
    ensures Clear(ts, p, q, IsLiteralToken)
  {
    hide AnyItem;
    forall a: nat, b: nat, item | ItemSpelled(ts, a, b, item) ensures a < b && Clear(ts, a, b, IsLiteralToken) {
      ItemClear(ts, a, b, item);
    }
    ListClear(ts, p, q, items, ItemSpelled, IsLiteralToken);
  }

  // Conditions and whole statements are free of ends and semicolons.

  ghost predicate NoStops(s: seq<Token>) {
    forall i :: 0 <= i < |s| ==> !IsStop(s[i])
  }

  lemma PlainNoStops(c: Condition)
    requires IsPlain(c)
    ensures NoStops(SpellPlain(c))
  {
  }

  lemma {:induction false} PredNoStops(t: Pred)
    requires PredOk(t)
    ensures NoStops(SpellPred(t))
    decreases t, 0
  {
    if t.Paren? { OrNoStops(t.inner, |t.inner.ands|); } else { PlainNoStops(t.condition); }
  }

  lemma {:induction false} AndNoStops(t: AndTree, n: nat)
    requires AndOk(t) && 0 < n <= |t.preds|
    ensures NoStops(SpellAnd(t, n))
    decreases t, n
  {
    PredNoStops(t.preds[n - 1]);
    if n > 1 { AndNoStops(t, n - 1); }
  }

  lemma {:induction false} OrNoStops(t: OrTree, n: nat)
    requires OrOk(t) && 0 < n <= |t.ands|
    ensures NoStops(SpellOr(t, n))
    decreases t, n
  {
    AndNoStops(t.ands[n - 1], |t.ands[n - 1].preds|);
    if n > 1 { OrNoStops(t, n - 1); }
  }

  lemma WhereClear(ts: seq<Token>, p: nat, q: nat, c: Condition)
    requires WhereSpelled(ts, p, q, c)
    ensures p < q && Clear(ts, p, q, IsStop)
  {
    hide SpellOr;
    var r := p + 1;
    var t :| OrAs(ts, r, q, t, c);
    OrNoStops(t, |t.ands|);
    SpelledTokens(ts, r, SpellOr(t, |t.ands|));
    forall i | r <= i < q ensures !IsStop(ts[i]) {
      assert ts[r + (i - r)] == SpellOr(t, |t.ands|)[i - r];
    }
  }

  lemma TimestampClear(ts: seq<Token>, p: nat, q: nat, time: string)
    requires TimestampSpelled(ts, p, q, time)
    ensures p < q && Clear(ts, p, q, IsStop)
  {
    var w := SpellTimestamp(time);
    assert NoStops(w);
    SpelledTokens(ts, p, w);
    forall i | p <= i < q ensures !IsStop(ts[i]) { assert ts[p + (i - p)] == w[i - p]; }
  }

  lemma RightsClear(ts: seq<Token>, p: nat, a: nat, b: nat, q: nat, verb: string, ps: seq<string>, scope: TableRef,
                    preposition: string, user: string)
    requires RightsSpelled(ts, p, a, b, q, verb, ps, scope, preposition, user)
    ensures p < q && Clear(ts, p, q, IsStop)
  {
    hide NameSpelled, TableSpelled, ScopeSpelled, PermissionSpelled, ListSpelled;
    NamesClear(ts);
    ListClear(ts, p + 1, a, ps, PermissionSpelled, IsStop);
    assert Clear(ts, a + 1, b, IsStop) && Clear(ts, b + 1, q, IsStop);
  }

  lemma CreateTableClear(ts: seq<Token>, p: nat, a: nat, q: nat, t: TableRef, cs: seq<ColumnDef>)
    requires CreateTableSpelled(ts, p, a, q, t, cs)
    ensures p < q && Clear(ts, p, q, IsStop)
  {
    hide TableSpelled, ColumnSpelled, ListSpelled;
    NamesClear(ts);
    ColumnsClear(ts);
    ListClear(ts, a + 1, q - 1, cs, ColumnSpelled, IsStop);
    assert Clear(ts, p + 2, a, IsStop);
  }

  lemma InsertClear(ts: seq<Token>, p: nat, a: nat, b: nat, q: nat, t: TableRef,
                    names: seq<string>, rows: seq<seq<Literal>>)
    requires InsertSpelled(false, ts, p, a, b, q, t, names, rows)
    ensures p < q && Clear(ts, p, q, IsStop)
  {
    hide NameSpelled, TableSpelled, RowSpelled, ListSpelled;
    NamesClear(ts);
    RowsClear(ts);
    ListClear(ts, a + 1, b, names, NameSpelled, IsStop);
    ListClear(ts, if ListSpelled(ts, b + 2, q, rows, RowSpelled) then b + 2 else b + 3, q, rows, RowSpelled, IsStop);
    assert Clear(ts, p + 2, a, IsStop);
  }

  lemma UpdateClear(ts: seq<Token>, p: nat, a: nat, b: nat, q: nat, t: TableRef,
                    assignments: seq<(string, Expression)>, c: Condition)
    requires UpdateSpelled(ts, p, a, b, q, t, assignments, c)
    ensures p < q && Clear(ts, p, q, IsStop)
  {
    hide TableSpelled, AssignmentSpelled, WhereSpelled, ListSpelled;
    NamesClear(ts);
    AssignmentsClear(ts);
    ListClear(ts, a + 1, b, assignments, AssignmentSpelled, IsStop);
    WhereClear(ts, b, q, c);
    assert Clear(ts, p + 1, a, IsStop);
  }

  lemma SelectClear(ts: seq<Token>, p: nat, a: nat, b: nat, q: nat, s: Statement)
    requires s.Select? && SelectSpelled(false, ts, p, a, b, q, s)
    ensures p < q && Clear(ts, p, q, IsStop)
  {
    hide TableSpelled, AnyItem, WhereSpelled, ListSpelled;
    NamesClear(ts);
    ItemsClear(ts);
    if !s.all { ListClear(ts, p + 1, a, s.items, AnyItem, IsStop); }
    if s.condition.Some? { WhereClear(ts, b, q, s.condition.value); }
    assert Clear(ts, p + 1, a, IsStop) && Clear(ts, a + 1, b, IsStop);
  }

  lemma ShortClear(ts: seq<Token>, p: nat, q: nat, s: Statement)
    requires s.CreateDatabase? || s.DropDatabase? || s.UseDatabase? || s.CreateUser? || s.DropTable?
      || s.Revert? || s.Delete?
    requires StatementSpelled(false, ts, p, q, s)
    ensures p < q && Clear(ts, p, q, IsStop)
  {
    hide TableSpelled, WhereSpelled, TimestampSpelled;
    NamesClear(ts);
    if s.DropTable? {
      assert Clear(ts, p + 2, q, IsStop);
    } else if s.Revert? {
      var a: nat :| RevertSpelled(ts, p, a, q, s.table, s.timestamp);
      TimestampClear(ts, a, q, s.timestamp);
      assert Clear(ts, p + 1, a, IsStop);
    } else if s.Delete? {
      var a: nat :| DeleteSpelled(ts, p, a, q, s.table, s.condition.value);
      WhereClear(ts, a, q, s.condition.value);
      assert Clear(ts, p + 2, a, IsStop);
    }
  }

  lemma StatementClear(ts: seq<Token>, p: nat, q: nat, s: Statement)
    requires StatementSpelled(false, ts, p, q, s)
    ensures p < q && Clear(ts, p, q, IsStop)
  {
    hide RightsSpelled, CreateTableSpelled, InsertSpelled, UpdateSpelled, SelectSpelled,
      RevertSpelled, DeleteSpelled, Clear;
    if s.Grant? {
      var a: nat, b: nat :| RightsSpelled(ts, p, a, b, q, "GRANT", s.permissions, s.scope, "TO", s.username);
      RightsClear(ts, p, a, b, q, "GRANT", s.permissions, s.scope, "TO", s.username);
    } else if s.Revoke? {
      var a: nat, b: nat :| RightsSpelled(ts, p, a, b, q, "REVOKE", s.permissions, s.scope, "FROM", s.username);
      RightsClear(ts, p, a, b, q, "REVOKE", s.permissions, s.scope, "FROM", s.username);
    } else if s.CreateTable? {
      var a: nat :| CreateTableSpelled(ts, p, a, q, s.table, s.columns);
      CreateTableClear(ts, p, a, q, s.table, s.columns);
    } else if s.Insert? {
      var a: nat, b: nat :| InsertSpelled(false, ts, p, a, b, q, s.table, s.columnNames, s.values);
      InsertClear(ts, p, a, b, q, s.table, s.columnNames, s.values);
    } else if s.Update? {
      var a: nat, b: nat :| UpdateSpelled(ts, p, a, b, q, s.table, s.assignments, s.condition.value);
      UpdateClear(ts, p, a, b, q, s.table, s.assignments, s.condition.value);
    } else if s.Select? {
      var a: nat, b: nat :| SelectSpelled(false, ts, p, a, b, q, s);
      SelectClear(ts, p, a, b, q, s);
    } else {
      ShortClear(ts, p, q, s);
    }
  }

  // The tests.

  lemma ValueFirst(strict: bool, ts: seq<Token>, p: nat, a: nat, b: nat, q: nat, t: TableRef,
                   names: seq<string>, rows: seq<seq<Literal>>)
    requires InsertSpelled(strict, ts, p, a, b, q, t, names, rows)
    ensures First(ts, p, IsValueWord) == b + 1
  {
    hide NameSpelled, TableSpelled, RowsSpelled, ListSpelled;
    NamesClear(ts);
    ListClear(ts, a + 1, b, names, NameSpelled, IsValueWord);
    assert EachClear(ts, TableSpelled, IsValueWord) && TableSpelled(ts, p + 2, a, t);
    FirstIs(ts, p, b + 1, IsValueWord);
  }

  lemma InsertInGrammar(ts: seq<Token>, p: nat, q: nat, s: Statement)
    requires s.Insert? && StatementAt(ts, p) == Some((s, q))
    ensures StatementSpelled(true, ts, p, q, s) <==> !CommaFirst(ts, p)
  {
    hide StatementAt, InsertAt, RowsSpelled, ListSpelled, RowsAt, First;
    WhichStatement(ts, p);
    var a, b := InsertSound(ts, p, q, s.table, s.columnNames, s.values);
    ValueFirst(false, ts, p, a, b, q, s.table, s.columnNames, s.values);
    RowsOfInsert(ts, b + 2, q, s.values);
    if !CommaFirst(ts, p) { assert InsertSpelled(true, ts, p, a, b, q, s.table, s.columnNames, s.values); }
    if StatementSpelled(true, ts, p, q, s) {
      var c: nat, d: nat :| InsertSpelled(true, ts, p, c, d, q, s.table, s.columnNames, s.values);
      ValueFirst(true, ts, p, c, d, q, s.table, s.columnNames, s.values);
    }
  }

  lemma FromFirst(ts: seq<Token>, p: nat, a: nat, b: nat, q: nat, s: Statement)
    requires s.Select? && SelectSpelled(false, ts, p, a, b, q, s)
    ensures First(ts, p, IsFrom) == a
    ensures LiteralItem(ts, p) <==> !Clear(ts, p + 1, a, IsLiteralToken)
  {
    hide AnyItem, TableSpelled, WhereSpelled;
    ItemsClear(ts);
    if !s.all { ListClear(ts, p + 1, a, s.items, AnyItem, IsFrom); }
    FirstIs(ts, p, a, IsFrom);
    FirstBefore(ts, p, a, IsLiteralToken);
  }

  lemma {:induction false} FirstBefore(ts: seq<Token>, p: nat, q: nat, kind: Token -> bool)
    requires p <= q <= |ts|
    ensures First(ts, p, kind) < q <==> !Clear(ts, p, q, kind)
    decreases q - p
  {
    if p < q && !kind(ts[p]) { FirstBefore(ts, p + 1, q, kind); }
  }

  lemma StrictIsLoose(ts: seq<Token>, p: nat, a: nat, b: nat, q: nat, s: Statement)
    requires s.Select? && SelectSpelled(true, ts, p, a, b, q, s)
    ensures SelectSpelled(false, ts, p, a, b, q, s)
  {
    hide TableSpelled, WhereSpelled, AnyItem;
    if !s.all { MoreItems(ts, p + 1, a, s.items); }
  }

  lemma {:induction false} MoreItems(ts: seq<Token>, p: nat, q: nat, items: seq<SelectItem>)
    requires ListSpelled(ts, p, q, items, ItemSpelled)
    ensures ListSpelled(ts, p, q, items, AnyItem)
    decreases |items|
  {
    var n := |items| - 1;
    if n > 0 {
      var m: nat :| ListSpelled(ts, p, m, items[..n], ItemSpelled) && Is(ts, m, COMMA)
        && ItemSpelled(ts, m + 1, q, items[n]);
      MoreItems(ts, p, m, items[..n]);
      assert AnyItem(ts, m + 1, q, items[n]);
    }
  }

  lemma SelectInGrammar(ts: seq<Token>, p: nat, q: nat, s: Statement)
    requires s.Select? && StatementAt(ts, p) == Some((s, q))
    ensures StatementSpelled(true, ts, p, q, s) <==> !LiteralItem(ts, p)
  {
    hide StatementAt, SelectAt, First, AnyItem, TableSpelled, WhereSpelled, LiteralItem;
    WhichStatement(ts, p);
    var a, b := SelectSound(ts, p, q, s);
    FromFirst(ts, p, a, b, q, s);
    if !s.all { LiteralFree(ts, p + 1, a, s.items); }
    if !LiteralItem(ts, p) { assert SelectSpelled(true, ts, p, a, b, q, s); }
    if StatementSpelled(true, ts, p, q, s) {
      var c: nat, d: nat :| SelectSpelled(true, ts, p, c, d, q, s);
      StrictIsLoose(ts, p, c, d, q, s);
      FromFirst(ts, p, c, d, q, s);
    }
  }

  /** A parsed statement is one of the grammar if and only if it is no INSERT with a comma
      behind VALUE and no SELECT with a literal before FROM. */
  lemma StatementInGrammar(ts: seq<Token>, p: nat, q: nat, s: Statement)
    requires StatementAt(ts, p) == Some((s, q))
    ensures StatementSpelled(true, ts, p, q, s) <==> !CommaFirst(ts, p) && !LiteralItem(ts, p)
  {
    hide StatementAt, First;
    StatementSound(ts, p, q, s);
    if s.Insert? {
      InsertInGrammar(ts, p, q, s);
    } else if s.Select? {
      SelectInGrammar(ts, p, q, s);
    } else {
      OtherStatement(ts, p, q, s);
    }
    if s.Insert? || s.Select? { WhichStatement(ts, p); }
  }

  lemma OtherStatement(ts: seq<Token>, p: nat, q: nat, s: Statement)
    requires StatementSpelled(false, ts, p, q, s) && !s.Insert? && !s.Select?
    ensures StatementSpelled(true, ts, p, q, s) && !Is(ts, p, Word("INSERT")) && !Is(ts, p, Word("SELECT"))
  {
  }

  /** A statement of the grammar and its semicolon, and nothing more. */
  ghost predicate InGrammar(ts: seq<Token>, p: nat, s: Statement) {
    exists q: nat :: StatementSpelled(true, ts, p, q, s) && Is(ts, q, SEMICOLON) && AtEnd(ts, q + 1)
  }

  lemma GrammarIsAccepted(ts: seq<Token>, p: nat, q: nat, s: Statement)
    requires StatementSpelled(true, ts, p, q, s)
    ensures StatementSpelled(false, ts, p, q, s)
  {
    hide AnyItem, TableSpelled, WhereSpelled, ListSpelled;
    if s.Select? {
      var a: nat, b: nat :| SelectSpelled(true, ts, p, a, b, q, s);
      StrictIsLoose(ts, p, a, b, q, s);
    } else if s.Insert? {
      var a: nat, b: nat :| InsertSpelled(true, ts, p, a, b, q, s.table, s.columnNames, s.values);
      assert InsertSpelled(false, ts, p, a, b, q, s.table, s.columnNames, s.values);
    }
  }

  /** What the grammar has is accepted, and what is accepted is in the grammar if and only if
      it has none of the parser's liberties: a comma before the first row, a literal among the
      items of SELECT, no semicolon. */
  lemma AcceptedInGrammar(ts: seq<Token>, p: nat, s: Statement)
    ensures InGrammar(ts, p, s) <==>
      ProgramAt(ts, p) == Some(s) && !CommaFirst(ts, p) && !LiteralItem(ts, p) && HasSemicolon(ts, p)
  {
    hide StatementAt, StatementSpelled, First, CommaFirst, LiteralItem;
    if InGrammar(ts, p, s) {
      var q: nat :| StatementSpelled(true, ts, p, q, s) && Is(ts, q, SEMICOLON) && AtEnd(ts, q + 1);
      GrammarIsAccepted(ts, p, q, s);
      StatementComplete(ts, p, q, s);
      StatementInGrammar(ts, p, q, s);
      StatementClear(ts, p, q, s);
      FirstIs(ts, p, q, IsStop);
    }
    if ProgramAt(ts, p) == Some(s) && !CommaFirst(ts, p) && !LiteralItem(ts, p) && HasSemicolon(ts, p) {
      var q := StatementAt(ts, p).value.1;
      StatementSound(ts, p, q, s);
      StatementInGrammar(ts, p, q, s);
      StatementClear(ts, p, q, s);
      assert q < |ts| ==> IsStop(ts[q]);
      FirstIs(ts, p, q, IsStop);
    }
  }
}
