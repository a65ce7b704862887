/** Statements as they are spelled are parsed back, and what is parsed can be spelled. */
module StatementProofs {
  import opened Bytes
  import opened Ast
  import opened ConditionGrammar
  import opened StatementGrammar

  lemma SpelledCat(ts: seq<Token>, p: nat, a: seq<Token>, b: seq<Token>)
    requires Spelled(ts, p, a + b)
    ensures Spelled(ts, p, a) && Spelled(ts, p + |a|, b)
  {
    forall i | 0 <= i < |a| ensures TokenAt(ts, p, a, i) { assert TokenAt(ts, p, a + b, i); }
    var q := p + |a|;
    forall i | 0 <= i < |b| ensures TokenAt(ts, q, b, i) { assert TokenAt(ts, p, a + b, |a| + i); }
  }

  lemma SpelledHead(ts: seq<Token>, p: nat, t: Token, rest: seq<Token>)
    requires Spelled(ts, p, [t] + rest)
    ensures p < |ts| && ts[p] == t && Spelled(ts, p + 1, rest)
  {
    SpelledCat(ts, p, [t], rest);
    assert TokenAt(ts, p, [t], 0);
  }

  /** The tokens from `p` on, each of which stands where it is spelled. */
  lemma SpelledTokens(ts: seq<Token>, p: nat, s: seq<Token>)
    requires Spelled(ts, p, s)
    ensures forall i :: 0 <= i < |s| ==> ts[p + i] == s[i]
  {
    forall i | 0 <= i < |s| ensures ts[p + i] == s[i] { assert TokenAt(ts, p, s, i); }
  }

  // Lists.

  /** A comma or the token behind the list. */
  predicate Ends(ts: seq<Token>, q: nat, after: Token) {
    q < |ts| && (ts[q] == COMMA || ts[q] == after)
  }

  ghost predicate ItemParses<X(!new)>(ts: seq<Token>, x: X, q: nat, item: (seq<Token>, nat) -> At<X>,
                                      spell: X -> seq<Token>, after: Token) {
    spell(x) != [] && (Spelled(ts, q, spell(x)) && Ends(ts, q + |spell(x)|, after) ==>
                       item(ts, q) == Some((x, q + |spell(x)|)))
  }

  ghost predicate ItemsParse<X(!new)>(ts: seq<Token>, xs: seq<X>, item: (seq<Token>, nat) -> At<X>,
                                      spell: X -> seq<Token>, after: Token) {
    forall i, q: nat :: 0 <= i < |xs| ==> ItemParses(ts, xs[i], q, item, spell, after)
  }

  lemma {:induction false} ListPrefix<X(!new)>(ts: seq<Token>, p: nat, xs: seq<X>, item: (seq<Token>, nat) -> At<X>,
                                               spell: X -> seq<Token>, after: Token)
    requires xs != [] && ItemsParse(ts, xs, item, spell, after)
    requires Spelled(ts, p, SpellList(xs, spell)) && Ends(ts, p + |SpellList(xs, spell)|, after)
    ensures ListAt(ts, p, item) == ListTail(ts, xs, p + |SpellList(xs, spell)|, item)
    decreases |xs|
  {
    hide Spelled;
    var n := |xs| - 1;
    if n == 0 {
      assert ItemParses(ts, xs[0], p, item, spell, after);
      assert xs == [xs[0]];
    } else {
      var a := SpellList(xs[..n], spell);
      SpelledParts(ts, p, a, COMMA, spell(xs[n]));
      forall i, q: nat | 0 <= i < n ensures ItemParses(ts, xs[..n][i], q, item, spell, after) {
        assert ItemParses(ts, xs[i], q, item, spell, after);
      }
      ListPrefix(ts, p, xs[..n], item, spell, after);
      assert ItemParses(ts, xs[n], p + |a| + 1, item, spell, after);
      assert xs == xs[..n] + [xs[n]];
    }
  }

  /** A list is parsed back when its items are, up to the token behind it. */
  lemma ListParses<X(!new)>(ts: seq<Token>, p: nat, xs: seq<X>, item: (seq<Token>, nat) -> At<X>,
                            spell: X -> seq<Token>, after: Token)
    requires xs != [] && ItemsParse(ts, xs, item, spell, after) && after != COMMA
    requires var q := p + |SpellList(xs, spell)|;
      Spelled(ts, p, SpellList(xs, spell)) && q < |ts| && ts[q] == after
    ensures ListAt(ts, p, item) == Some((xs, p + |SpellList(xs, spell)|))
  {
    hide Spelled, ItemsParse, ListAt, SpellList;
    ListPrefix(ts, p, xs, item, spell, after);
  }

  // Items.

  lemma NamesParse(ts: seq<Token>, names: seq<string>, after: Token)
    ensures ItemsParse(ts, names, NameAt, SpellName, after)
  {
    forall i, q: nat | 0 <= i < |names| ensures ItemParses(ts, names[i], q, NameAt, SpellName, after) {
      if Spelled(ts, q, SpellName(names[i])) { SpelledAt(ts, q, SpellName(names[i]), 0); }
    }
  }

  lemma PermissionsParse(ts: seq<Token>, ps: seq<string>, after: Token)
    requires forall i :: 0 <= i < |ps| ==> IsPermission(ps[i])
    ensures ItemsParse(ts, ps, PermissionAt, SpellPermission, after)
  {
    forall i, q: nat | 0 <= i < |ps| ensures ItemParses(ts, ps[i], q, PermissionAt, SpellPermission, after) {
      if Spelled(ts, q, SpellPermission(ps[i])) { SpelledAt(ts, q, SpellPermission(ps[i]), 0); }
    }
  }

  lemma LiteralsParse(ts: seq<Token>, row: seq<Literal>, after: Token)
    requires forall i :: 0 <= i < |row| ==> LiteralOk(row[i])
    ensures ItemsParse(ts, row, LiteralAt, SpellLiteral, after)
  {
    forall i, q: nat | 0 <= i < |row| ensures ItemParses(ts, row[i], q, LiteralAt, SpellLiteral, after) {
      if Spelled(ts, q, SpellLiteral(row[i])) { LiteralParses(ts, q, row[i]); }
    }
  }

  lemma LiteralParses(ts: seq<Token>, q: nat, l: Literal)
    requires LiteralOk(l) && Spelled(ts, q, SpellLiteral(l))
    ensures LiteralAt(ts, q) == Some((l, q + 1)) && |SpellLiteral(l)| == 1
  {
    SpelledAt(ts, q, SpellLiteral(l), 0);
    ValueParses(ts, q, LiteralExpr(l));
  }

  lemma RowParses(ts: seq<Token>, q: nat, row: seq<Literal>)
    requires RowOk(row) && Spelled(ts, q, SpellRow(row))
    ensures RowAt(ts, q) == Some((row, q + |SpellRow(row)|))
  {
    hide ListAt, SpellList, LiteralAt;
    SpelledMiddle(ts, q, OPEN, SpellList(row, SpellLiteral), CLOSE);
    LiteralsParse(ts, row, CLOSE);
    ListParses(ts, q + 1, row, LiteralAt, SpellLiteral, CLOSE);
  }

  lemma RowsParse(ts: seq<Token>, rows: seq<seq<Literal>>, after: Token)
    requires forall i :: 0 <= i < |rows| ==> RowOk(rows[i])
    ensures ItemsParse(ts, rows, RowAt, SpellRow, after)
  {
    hide RowAt, RowOk, Spelled;
    forall i, q: nat | 0 <= i < |rows| ensures ItemParses(ts, rows[i], q, RowAt, SpellRow, after) {
      if Spelled(ts, q, SpellRow(rows[i])) { RowParses(ts, q, rows[i]); }
    }
  }

  lemma AssignmentsParse(ts: seq<Token>, assignments: seq<(string, Expression)>, after: Token)
    requires forall i :: 0 <= i < |assignments| ==> IsValue(assignments[i].1)
    ensures ItemsParse(ts, assignments, AssignmentAt, SpellAssignment, after)
  {
    forall i, q: nat | 0 <= i < |assignments|
      ensures ItemParses(ts, assignments[i], q, AssignmentAt, SpellAssignment, after) {
      var a := assignments[i];
      if Spelled(ts, q, SpellAssignment(a)) {
        SpelledAt(ts, q, SpellAssignment(a), 0);
        SpelledAt(ts, q, SpellAssignment(a), 1);
        SpelledAt(ts, q, SpellAssignment(a), 2);
        ValueParses(ts, q + 2, a.1);
      }
    }
  }

  lemma ExpressionParses(ts: seq<Token>, q: nat, e: Expression)
    requires (e.Aggregate? || IsValue(e)) && Spelled(ts, q, SpellExpression(e))
    ensures ExpressionAt(ts, q) == Some((e, q + |SpellExpression(e)|))
  {
    SpelledTokens(ts, q, SpellExpression(e));
    if e.Aggregate? {
      var s := SpellExpression(e);
      assert ts[q + 0] == s[0] && ts[q + 1] == s[1] && ts[q + 2] == s[2] && ts[q + 3] == s[3];
    } else {
      SpelledAt(ts, q, SpellExpression(e), 0);
      ValueParses(ts, q, e);
    }
  }

  lemma ItemsOfSelectParse(ts: seq<Token>, items: seq<SelectItem>, after: Token)
    requires after == Word("FROM") && forall i :: 0 <= i < |items| ==> ItemOk(items[i])
    ensures ItemsParse(ts, items, ItemAt, SpellItem, after)
  {
    hide ItemAt, ItemOk, Spelled, Ends;
    forall i, q: nat | 0 <= i < |items| ensures ItemParses(ts, items[i], q, ItemAt, SpellItem, after) {
      SelectItemParses(ts, q, items[i]);
    }
  }

  lemma SelectItemParses(ts: seq<Token>, q: nat, item: SelectItem)
    requires ItemOk(item)
    ensures SpellItem(item) != []
    ensures Spelled(ts, q, SpellItem(item)) && Ends(ts, q + |SpellItem(item)|, Word("FROM")) ==>
      ItemAt(ts, q) == Some((item, q + |SpellItem(item)|))
  {
    hide Spelled, ExpressionAt;
    var a, b := SpellExpression(item.expr), if item.alias == "" then [] else [Word("AS"), Name(item.alias)];
    if Spelled(ts, q, a + b) && Ends(ts, q + |SpellItem(item)|, Word("FROM")) {
      SpelledCat(ts, q, a, b);
      ExpressionParses(ts, q, item.expr);
      if item.alias != "" {
        SpelledAt(ts, q + |a|, b, 0);
        SpelledAt(ts, q + |a|, b, 1);
      }
    }
  }

  lemma FlagParses(ts: seq<Token>, q: nat, on: bool, word: string)
    requires Spelled(ts, q, SpellFlag(on, word)) && (!on ==> !Is(ts, q, Word(word)))
    ensures Flag(ts, q, word) == (on, q + |SpellFlag(on, word)|)
  {
    if on { SpelledAt(ts, q, SpellFlag(on, word), 0); }
  }

  lemma DefaultParses(ts: seq<Token>, q: nat, d: Option<Literal>)
    requires (d.Some? ==> LiteralOk(d.value)) && Spelled(ts, q, SpellDefault(d))
    requires d.None? ==> !Is(ts, q, Word("DEFAULT"))
    ensures DefaultAt(ts, q) == Some((d, q + |SpellDefault(d)|))
  {
    hide LiteralAt, SpellLiteral;
    if d.Some? {
      SpelledHead(ts, q, Word("DEFAULT"), SpellLiteral(d.value));
      LiteralParses(ts, q + 1, d.value);
    }
  }

  /** The token at the place of a part that may be missing. */
  lemma FirstOf(ts: seq<Token>, q: nat, a: seq<Token>)
    requires Spelled(ts, q, a)
    ensures a != [] ==> q < |ts| && ts[q] == a[0]
  {
    if a != [] { SpelledAt(ts, q, a, 0); }
  }

  /** Name, type, flags and default of a column, each where it is spelled. */
  lemma ColumnPieces(ts: seq<Token>, q: nat, c: ColumnDef)
    requires Spelled(ts, q, SpellColumn(c))
    ensures q + 1 < |ts| && ts[q] == Name(c.name) && ts[q + 1] == Word(if c.isInt then "INT" else "STRING")
    ensures var n, x := SpellFlag(c.notNull, "NOT_NULL"), SpellFlag(c.indexed, "INDEXED");
      && Spelled(ts, q + 2, n) && Spelled(ts, q + 2 + |n|, x)
      && Spelled(ts, q + 2 + |n| + |x|, SpellDefault(c.defaultValue))
  {
    hide SpellDefault, SpellFlag;
    var head := [Name(c.name), Word(if c.isInt then "INT" else "STRING")];
    var n, x, d := SpellFlag(c.notNull, "NOT_NULL"), SpellFlag(c.indexed, "INDEXED"), SpellDefault(c.defaultValue);
    SpelledCat(ts, q, head + n + x, d);
    SpelledCat(ts, q, head + n, x);
    SpelledCat(ts, q, head, n);
    SpelledAt(ts, q, head, 0);
    SpelledAt(ts, q, head, 1);
  }

  lemma ColumnParses(ts: seq<Token>, q: nat, c: ColumnDef)
    requires ColumnDefOk(c) && Spelled(ts, q, SpellColumn(c)) && Ends(ts, q + |SpellColumn(c)|, CLOSE)
    ensures ColumnAt(ts, q) == Some((c, q + |SpellColumn(c)|))
  {
    hide Spelled, SpellDefault, DefaultAt, Flag;
    var n, x, d := SpellFlag(c.notNull, "NOT_NULL"), SpellFlag(c.indexed, "INDEXED"), SpellDefault(c.defaultValue);
    ColumnPieces(ts, q, c);
    var q1 := q + 2 + |n|;
    var q2 := q1 + |x|;
    FirstOf(ts, q1, x);
    FirstOf(ts, q2, d);
    DefaultFirst(c.defaultValue);
    assert d == [] ==> !Is(ts, q2, Word("DEFAULT")) && !Is(ts, q2, Word("INDEXED")) && !Is(ts, q2, Word("NOT_NULL"));
    assert d != [] ==> ts[q2] == Word("DEFAULT");
    DefaultParses(ts, q2, c.defaultValue);
    assert !c.indexed ==> q1 == q2;
    FlagParses(ts, q1, c.indexed, "INDEXED");
    FlagParses(ts, q + 2, c.notNull, "NOT_NULL");
  }

  lemma DefaultFirst(d: Option<Literal>)
    ensures if d.None? then SpellDefault(d) == [] else SpellDefault(d) != [] && SpellDefault(d)[0] == Word("DEFAULT")
  {
  }

  lemma ColumnsParse(ts: seq<Token>, cs: seq<ColumnDef>)
    requires forall i :: 0 <= i < |cs| ==> ColumnDefOk(cs[i])
    ensures ItemsParse(ts, cs, ColumnAt, SpellColumn, CLOSE)
  {
    hide ColumnAt, ColumnDefOk, Spelled, Ends;
    forall i, q: nat | 0 <= i < |cs| ensures ItemParses(ts, cs[i], q, ColumnAt, SpellColumn, CLOSE) {
      if Spelled(ts, q, SpellColumn(cs[i])) && Ends(ts, q + |SpellColumn(cs[i])|, CLOSE) { ColumnParses(ts, q, cs[i]); }
    }
  }

  // Parts of statements.

  lemma TableParses(ts: seq<Token>, q: nat, t: TableRef)
    requires Spelled(ts, q, SpellTable(t)) && !Is(ts, q + |SpellTable(t)|, DOT)
    ensures TableRefAt(ts, q) == Some((t, q + |SpellTable(t)|))
  {
    var s := SpellTable(t);
    SpelledAt(ts, q, s, 0);
    if t.database != "" {
      SpelledAt(ts, q, s, 1);
      SpelledAt(ts, q, s, 2);
    }
  }

  lemma ScopeParses(ts: seq<Token>, q: nat, t: TableRef)
    requires Spelled(ts, q, SpellScope(t))
    ensures ScopeAt(ts, q) == Some((t, q + 3))
  {
    var s := SpellScope(t);
    SpelledAt(ts, q, s, 0);
    SpelledAt(ts, q, s, 1);
    SpelledAt(ts, q, s, 2);
  }

  lemma TimestampParses(ts: seq<Token>, q: nat, s: string)
    requires IsTimestamp(s) && Spelled(ts, q, SpellTimestamp(s))
    ensures TimestampAt(ts, q) == Some((s, q + 13))
  {
    var w := SpellTimestamp(s);
    SpelledTokens(ts, q, w);
    assert ts[q + 0] == w[0] && ts[q + 1] == w[1] && ts[q + 2] == w[2] && ts[q + 3] == w[3] && ts[q + 4] == w[4];
    assert DateAt(ts, q) && DateText(ts, q) == s[..10] by { TimeParts(s); }
    assert ts[q + 5] == w[5];
    var r := q + 6;
    assert ts[r + 0] == w[6] && ts[r + 1] == w[7] && ts[r + 2] == w[8] && ts[r + 3] == w[9] && ts[r + 4] == w[10];
    assert ts[r + 5] == w[11] && ts[r + 6] == w[12];
    assert ClockAt(ts, r) && ClockText(ts, r) == s[11..] by { TimeParts(s); }
    assert s == s[..10] + "-" + s[11..];
  }

  lemma TimeParts(s: string)
    requires IsTimestamp(s)
    ensures s[..4] + "." + s[5..7] + "." + s[8..10] == s[..10]
    ensures s[11..13] + ":" + s[14..16] + ":" + s[17..19] + "." + s[20..] == s[11..]
  {
  }

  /** A condition behind WHERE, at the end of a statement. */
  lemma WhereParses(ts: seq<Token>, q: nat, c: Condition)
    requires Renderable(c) && Spelled(ts, q, SpellWhere(Some(c)))
    requires var e := q + |SpellWhere(Some(c))|; !Is(ts, e, AND) && !Is(ts, e, OR)
    ensures WhereAt(ts, q) == Some((c, q + |SpellWhere(Some(c))|)) && Is(ts, q, Word("WHERE"))
  {
    hide Render, OrAt;
    SpelledHead(ts, q, Word("WHERE"), Render(c));
    RenderParses(ts, q + 1, c);
  }

  lemma RightsParse(ts: seq<Token>, q: nat, ps: seq<string>, scope: TableRef, preposition: string, user: string)
    requires ps != [] && forall i :: 0 <= i < |ps| ==> IsPermission(ps[i])
    requires Spelled(ts, q, SpellRights(ps, scope, preposition, user))
    ensures RightsAt(ts, q, preposition) == Some(((ps, scope, user), q + |SpellRights(ps, scope, preposition, user)|))
  {
    hide SpellList, ListAt, ScopeAt, IsPermission;
    var a, b, c := SpellList(ps, SpellPermission), SpellScope(scope), [Word(preposition), Name(user)];
    SpelledCat(ts, q, a + [Word("ON")] + b, c);
    SpelledParts(ts, q, a, Word("ON"), b);
    PermissionsParse(ts, ps, Word("ON"));
    ListParses(ts, q, ps, PermissionAt, SpellPermission, Word("ON"));
    ScopeParses(ts, q + |a| + 1, scope);
    SpelledAt(ts, q + |a| + 4, c, 0);
    SpelledAt(ts, q + |a| + 4, c, 1);
  }

  // Statements.

  /** What may stand behind a statement: nothing that would continue it. */
  predicate Over(ts: seq<Token>, q: nat) {
    q < |ts| && (ts[q] == SEMICOLON || ts[q] == Token(EndOfFile, ""))
  }

  /** The first keyword, and the second where there are two, choose the function. */
  lemma ByFirstWord(ts: seq<Token>, p: nat)
    ensures Is(ts, p, Word("INSERT")) ==> StatementAt(ts, p) == InsertAt(ts, p + 1)
    ensures Is(ts, p, Word("UPDATE")) ==> StatementAt(ts, p) == UpdateAt(ts, p + 1)
    ensures Is(ts, p, Word("DELETE")) ==> StatementAt(ts, p) == DeleteAt(ts, p + 1)
    ensures Is(ts, p, Word("SELECT")) ==> StatementAt(ts, p) == SelectAt(ts, p + 1)
    ensures Is(ts, p, Word("REVERT")) ==> StatementAt(ts, p) == RevertAt(ts, p + 1)
    ensures Is(ts, p, Word("CREATE")) ==> StatementAt(ts, p) == CreateAt(ts, p + 1)
    ensures Is(ts, p, Word("DROP")) ==> StatementAt(ts, p) == DropAt(ts, p + 1)
  {
    hide CreateAt, DropAt, UseAt, GrantAt, RevokeAt, RevertAt, InsertAt, UpdateAt, DeleteAt, SelectAt;
  }

  lemma CreateTableWords(ts: seq<Token>, p: nat)
    requires Is(ts, p, Word("CREATE")) && Is(ts, p + 1, Word("TABLE"))
    ensures StatementAt(ts, p) == CreateTableAt(ts, p + 2)
  {
    hide StatementAt, CreateTableAt, NameAt;
    ByFirstWord(ts, p);
  }

  /** Where the parts of a CREATE TABLE stand. */
  lemma CreateTablePieces(ts: seq<Token>, p: nat, s: Statement)
    requires s.CreateTable? && StatementOk(s) && Spelled(ts, p, SpellStatement(s))
    ensures Is(ts, p, Word("CREATE")) && Is(ts, p + 1, Word("TABLE"))
    ensures var t, l := SpellTable(s.table), SpellList(s.columns, SpellColumn); var q := p + 2 + |t|;
      && Spelled(ts, p + 2, t) && Is(ts, q, OPEN) && Spelled(ts, q + 1, l) && Is(ts, q + 1 + |l|, CLOSE)
      && p + |SpellStatement(s)| == q + 1 + |l| + 1
  {
    hide SpellList, SpellTable, ColumnDefOk, Spelled;
    var h, t, l := [Word("CREATE"), Word("TABLE")], SpellTable(s.table), SpellList(s.columns, SpellColumn);
    SpelledCat(ts, p, h + t + [OPEN] + l, [CLOSE]);
    SpelledParts(ts, p, h + t, OPEN, l);
    SpelledCat(ts, p, h, t);
    SpelledAt(ts, p, h, 0);
    SpelledAt(ts, p, h, 1);
    var e := p + 2 + |t| + 1 + |l|;
    assert Spelled(ts, e, [CLOSE]);
    SpelledAt(ts, e, [CLOSE], 0);
  }

  lemma CreateTableParses(ts: seq<Token>, p: nat, s: Statement)
    requires s.CreateTable? && StatementOk(s) && Spelled(ts, p, SpellStatement(s))
    ensures StatementAt(ts, p) == Some((s, p + |SpellStatement(s)|))
  {
    hide ListAt, SpellList, ColumnAt, SpellTable, TableRefAt, StatementAt, Spelled, SpellStatement;
    CreateTablePieces(ts, p, s);
    CreateTableWords(ts, p);
    var q := p + 2 + |SpellTable(s.table)|;
    TableParses(ts, p + 2, s.table);
    ColumnsParse(ts, s.columns);
    ListParses(ts, q + 1, s.columns, ColumnAt, SpellColumn, CLOSE);
  }

  /** Where the parts of an INSERT stand. */
  lemma InsertPieces(ts: seq<Token>, p: nat, s: Statement)
    requires s.Insert? && StatementOk(s) && Spelled(ts, p, SpellStatement(s))
    ensures Is(ts, p, Word("INSERT")) && Is(ts, p + 1, Word("INTO"))
    ensures var t, n, rows := SpellTable(s.table), SpellList(s.columnNames, SpellName), SpellList(s.values, SpellRow);
      var q := p + 2 + |t|; var r := q + 1 + |n|;
      && Spelled(ts, p + 2, t) && Is(ts, q, OPEN) && Spelled(ts, q + 1, n)
      && Is(ts, r, CLOSE) && Is(ts, r + 1, Word("VALUE")) && Spelled(ts, r + 2, rows)
      && p + |SpellStatement(s)| == r + 2 + |rows|
  {
    hide SpellList, SpellTable, RowOk, Spelled;
    var h, t := [Word("INSERT"), Word("INTO")], SpellTable(s.table);
    var n, rows := SpellList(s.columnNames, SpellName), SpellList(s.values, SpellRow);
    var v := [CLOSE, Word("VALUE")];
    SpelledCat(ts, p, h + t + [OPEN] + n + v, rows);
    SpelledCat(ts, p, h + t + [OPEN] + n, v);
    SpelledParts(ts, p, h + t, OPEN, n);
    SpelledCat(ts, p, h, t);
    SpelledAt(ts, p, h, 0);
    SpelledAt(ts, p, h, 1);
    SpelledAt(ts, p + 2 + |t| + 1 + |n|, v, 0);
    SpelledAt(ts, p + 2 + |t| + 1 + |n|, v, 1);
  }

  /** The rows of an INSERT, which end the statement. */
  lemma AllRowsParse(ts: seq<Token>, q: nat, rows: seq<seq<Literal>>)
    requires rows != [] && (forall i :: 0 <= i < |rows| ==> RowOk(rows[i])) && Spelled(ts, q, SpellList(rows, SpellRow))
    requires Over(ts, q + |SpellList(rows, SpellRow)|)
    ensures RowsAt(ts, q) == Some((rows, q + |SpellList(rows, SpellRow)|))
  {
    hide ListAt, SpellList, RowAt, RowOk, Spelled;
    var e := q + |SpellList(rows, SpellRow)|;
    FirstOfRows(rows);
    FirstOf(ts, q, SpellList(rows, SpellRow));
    RowsParse(ts, rows, ts[e]);
    ListParses(ts, q, rows, RowAt, SpellRow, ts[e]);
  }

  lemma InsertParses(ts: seq<Token>, p: nat, s: Statement)
    requires s.Insert? && StatementOk(s) && Spelled(ts, p, SpellStatement(s)) && Over(ts, p + |SpellStatement(s)|)
    ensures StatementAt(ts, p) == Some((s, p + |SpellStatement(s)|))
  {
    hide ListAt, SpellList, NameAt, SpellTable, TableRefAt, StatementAt, Spelled, SpellStatement, RowsAt, RowOk, Over;
    InsertPieces(ts, p, s);
    ByFirstWord(ts, p);
    var q := p + 2 + |SpellTable(s.table)|;
    var r := q + 1 + |SpellList(s.columnNames, SpellName)|;
    TableParses(ts, p + 2, s.table);
    NamesParse(ts, s.columnNames, CLOSE);
    ListParses(ts, q + 1, s.columnNames, NameAt, SpellName, CLOSE);
    AllRowsParse(ts, r + 2, s.values);
  }

  lemma {:induction false} FirstOfRows(rows: seq<seq<Literal>>)
    requires rows != []
    ensures SpellList(rows, SpellRow) != [] && SpellList(rows, SpellRow)[0] == OPEN
    decreases |rows|
  {
    if |rows| > 1 { FirstOfRows(rows[..|rows| - 1]); }
  }

  /** Where the parts of an UPDATE stand. */
  lemma UpdatePieces(ts: seq<Token>, p: nat, s: Statement)
    requires s.Update? && StatementOk(s) && Spelled(ts, p, SpellStatement(s))
    ensures Is(ts, p, Word("UPDATE"))
    ensures var t, l, w := SpellTable(s.table), SpellList(s.assignments, SpellAssignment), SpellWhere(s.condition);
      var q := p + 1 + |t|;
      && Spelled(ts, p + 1, t) && Is(ts, q, Word("SET")) && Spelled(ts, q + 1, l) && Spelled(ts, q + 1 + |l|, w)
      && p + |SpellStatement(s)| == q + 1 + |l| + |w|
  {
    hide SpellList, SpellTable, SpellWhere, IsValue, Renderable, Spelled;
    var t, l, w := SpellTable(s.table), SpellList(s.assignments, SpellAssignment), SpellWhere(s.condition);
    SpelledCat(ts, p, [Word("UPDATE")] + t + [Word("SET")] + l, w);
    SpelledParts(ts, p, [Word("UPDATE")] + t, Word("SET"), l);
    SpelledHead(ts, p, Word("UPDATE"), t);
  }

  lemma UpdateParses(ts: seq<Token>, p: nat, s: Statement)
    requires s.Update? && StatementOk(s) && Spelled(ts, p, SpellStatement(s)) && Over(ts, p + |SpellStatement(s)|)
    ensures StatementAt(ts, p) == Some((s, p + |SpellStatement(s)|))
  {
    hide ListAt, SpellList, AssignmentAt, SpellTable, TableRefAt, WhereAt, Render, StatementAt, Spelled, SpellStatement;
    hide SpellWhere, IsValue, Renderable;
    UpdatePieces(ts, p, s);
    ByFirstWord(ts, p);
    var q := p + 1 + |SpellTable(s.table)|;
    var l := SpellList(s.assignments, SpellAssignment);
    TableParses(ts, p + 1, s.table);
    WhereParses(ts, q + 1 + |l|, s.condition.value);
    AssignmentsParse(ts, s.assignments, Word("WHERE"));
    ListParses(ts, q + 1, s.assignments, AssignmentAt, SpellAssignment, Word("WHERE"));
  }

  /** Where the parts of a DELETE stand. */
  lemma DeletePieces(ts: seq<Token>, p: nat, s: Statement)
    requires s.Delete? && StatementOk(s) && Spelled(ts, p, SpellStatement(s))
    ensures Is(ts, p, Word("DELETE")) && Is(ts, p + 1, Word("FROM"))
    ensures var t, w := SpellTable(s.table), SpellWhere(s.condition);
      && Spelled(ts, p + 2, t) && Spelled(ts, p + 2 + |t|, w)
      && p + |SpellStatement(s)| == p + 2 + |t| + |w|
  {
    hide SpellTable, SpellWhere, Renderable, Spelled;
    var h, t, w := [Word("DELETE"), Word("FROM")], SpellTable(s.table), SpellWhere(s.condition);
    SpelledCat(ts, p, h + t, w);
    SpelledCat(ts, p, h, t);
    SpelledAt(ts, p, h, 0);
    SpelledAt(ts, p, h, 1);
  }

  lemma DeleteParses(ts: seq<Token>, p: nat, s: Statement)
    requires s.Delete? && StatementOk(s) && Spelled(ts, p, SpellStatement(s)) && Over(ts, p + |SpellStatement(s)|)
    ensures StatementAt(ts, p) == Some((s, p + |SpellStatement(s)|))
  {
    hide SpellTable, TableRefAt, WhereAt, Render, StatementAt, Spelled, SpellWhere, SpellStatement, Renderable;
    DeletePieces(ts, p, s);
    ByFirstWord(ts, p);
    var e := p + 2 + |SpellTable(s.table)|;
    WhereParses(ts, e, s.condition.value);
    TableParses(ts, p + 2, s.table);
  }

  lemma ProjectionParses(ts: seq<Token>, q: nat, s: Statement)
    requires s.Select? && StatementOk(s)
    requires Spelled(ts, q, SpellProjection(s)) && Is(ts, q + |SpellProjection(s)|, Word("FROM"))
    ensures ProjectionAt(ts, q) == Some(((s.all, s.items), q + |SpellProjection(s)|))
  {
    hide ListAt, ItemAt;
    if s.all {
      SpelledAt(ts, q, [STAR], 0);
    } else {
      FirstOfItems(s.items);
      FirstOf(ts, q, SpellList(s.items, SpellItem));
      ItemsOfSelectParse(ts, s.items, Word("FROM"));
      ListParses(ts, q, s.items, ItemAt, SpellItem, Word("FROM"));
    }
  }

  lemma {:induction false} FirstOfItems(items: seq<SelectItem>)
    requires items != [] && forall i :: 0 <= i < |items| ==> ItemOk(items[i])
    ensures SpellList(items, SpellItem) != [] && SpellList(items, SpellItem)[0] != STAR
    decreases |items|
  {
    if |items| > 1 { FirstOfItems(items[..|items| - 1]); }
  }

  /** The star or the items of a SELECT, spelled. */
  function SpellProjection(s: Statement): seq<Token>
    requires s.Select?
  {
    if s.all then [STAR] else SpellList(s.items, SpellItem)
  }

  /** Where the parts of a SELECT stand. */
  lemma SelectPieces(ts: seq<Token>, p: nat, s: Statement)
    requires s.Select? && StatementOk(s) && Spelled(ts, p, SpellStatement(s))
    ensures Is(ts, p, Word("SELECT"))
    ensures var l, t, w := SpellProjection(s), SpellTable(s.table), SpellWhere(s.condition); var q := p + 1 + |l|;
      && Spelled(ts, p + 1, l) && Is(ts, q, Word("FROM")) && Spelled(ts, q + 1, t) && Spelled(ts, q + 1 + |t|, w)
      && p + |SpellStatement(s)| == q + 1 + |t| + |w|
  {
    hide SpellList, SpellTable, SpellWhere, ItemOk, Renderable, Spelled;
    var l, t, w := SpellProjection(s), SpellTable(s.table), SpellWhere(s.condition);
    SpelledCat(ts, p, [Word("SELECT")] + l + [Word("FROM")] + t, w);
    SpelledParts(ts, p, [Word("SELECT")] + l, Word("FROM"), t);
    SpelledHead(ts, p, Word("SELECT"), l);
  }

  lemma SelectParses(ts: seq<Token>, p: nat, s: Statement)
    requires s.Select? && StatementOk(s) && Spelled(ts, p, SpellStatement(s)) && Over(ts, p + |SpellStatement(s)|)
    ensures StatementAt(ts, p) == Some((s, p + |SpellStatement(s)|))
  {
    hide SpellTable, TableRefAt, WhereAt, Render, ProjectionAt, SpellProjection, StatementAt, Spelled, SpellStatement;
    hide ItemOk, Renderable, SpellWhere;
    SelectPieces(ts, p, s);
    ByFirstWord(ts, p);
    var q := p + 1 + |SpellProjection(s)|;
    ProjectionParses(ts, p + 1, s);
    var e := q + 1 + |SpellTable(s.table)|;
    if s.condition.Some? { WhereParses(ts, e, s.condition.value); } else { NoWhere(); }
    TableParses(ts, q + 1, s.table);
  }

  lemma NoWhere()
    ensures SpellWhere(None) == []
  {
  }

  lemma ShortParses(ts: seq<Token>, p: nat, s: Statement)
    requires s.CreateDatabase? || s.DropDatabase? || s.UseDatabase? || s.CreateUser?
    requires Spelled(ts, p, SpellStatement(s))
    ensures StatementAt(ts, p) == Some((s, p + |SpellStatement(s)|))
  {
    var w := SpellStatement(s);
    SpelledTokens(ts, p, w);
    assert ts[p + 0] == w[0] && ts[p + 1] == w[1];
    if s.CreateUser? { assert ts[p + 2] == w[2] && ts[p + 3] == w[3] && ts[p + 4] == w[4]; }
    else if !s.UseDatabase? { assert ts[p + 2] == w[2]; }
  }

  lemma DropTableParses(ts: seq<Token>, p: nat, s: Statement)
    requires s.DropTable? && Spelled(ts, p, SpellStatement(s)) && Over(ts, p + |SpellStatement(s)|)
    ensures StatementAt(ts, p) == Some((s, p + |SpellStatement(s)|))
  {
    hide SpellTable, TableRefAt, StatementAt, Spelled, NameAt;
    var h, t := [Word("DROP"), Word("TABLE")], SpellTable(s.table);
    ByFirstWord(ts, p);
    SpelledCat(ts, p, h, t);
    SpelledAt(ts, p, h, 0);
    SpelledAt(ts, p, h, 1);
    TableParses(ts, p + 2, s.table);
  }

  lemma RevertParses(ts: seq<Token>, p: nat, s: Statement)
    requires s.Revert? && StatementOk(s) && Spelled(ts, p, SpellStatement(s))
    ensures StatementAt(ts, p) == Some((s, p + |SpellStatement(s)|))
  {
    hide SpellTable, TableRefAt, TimestampAt, SpellTimestamp, IsTimestamp, StatementAt, Spelled;
    var t, w := SpellTable(s.table), SpellTimestamp(s.timestamp);
    SpelledCat(ts, p, [Word("REVERT")] + t, w);
    SpelledHead(ts, p, Word("REVERT"), t);
    ByFirstWord(ts, p);
    TimestampFirst(s.timestamp);
    FirstOf(ts, p + 1 + |t|, w);
    TableParses(ts, p + 1, s.table);
    TimestampParses(ts, p + 1 + |t|, s.timestamp);
  }

  lemma TimestampFirst(s: string)
    requires IsTimestamp(s)
    ensures |SpellTimestamp(s)| == 13 && SpellTimestamp(s)[0].kind == IntegerLiteral
  {
  }

  lemma RightsStatementParses(ts: seq<Token>, p: nat, s: Statement)
    requires (s.Grant? || s.Revoke?) && StatementOk(s) && Spelled(ts, p, SpellStatement(s))
    ensures StatementAt(ts, p) == Some((s, p + |SpellStatement(s)|))
  {
    hide SpellRights, RightsAt, IsPermission;
    if s.Grant? {
      SpelledHead(ts, p, Word("GRANT"), SpellRights(s.permissions, s.scope, "TO", s.username));
      RightsParse(ts, p + 1, s.permissions, s.scope, "TO", s.username);
    } else {
      SpelledHead(ts, p, Word("REVOKE"), SpellRights(s.permissions, s.scope, "FROM", s.username));
      RightsParse(ts, p + 1, s.permissions, s.scope, "FROM", s.username);
    }
  }

  /** Parsing inverts spelling, for every statement the parser can produce. */
  lemma StatementParses(ts: seq<Token>, p: nat, s: Statement)
    requires StatementOk(s) && Spelled(ts, p, SpellStatement(s)) && Over(ts, p + |SpellStatement(s)|)
    ensures StatementAt(ts, p) == Some((s, p + |SpellStatement(s)|))
  {
    hide StatementAt, SpellStatement, StatementOk, Spelled;
    match s
    case CreateDatabase(_) => ShortParses(ts, p, s);
    case DropDatabase(_) => ShortParses(ts, p, s);
    case UseDatabase(_) => ShortParses(ts, p, s);
    case CreateUser(_, _) => ShortParses(ts, p, s);
    case Grant(_, _, _) => RightsStatementParses(ts, p, s);
    case Revoke(_, _, _) => RightsStatementParses(ts, p, s);
    case Revert(_, _) => RevertParses(ts, p, s);
    case CreateTable(_, _) => CreateTableParses(ts, p, s);
    case DropTable(_) => DropTableParses(ts, p, s);
    case Insert(_, _, _) => InsertParses(ts, p, s);
    case Update(_, _, _) => UpdateParses(ts, p, s);
    case Delete(_, _) => DeleteParses(ts, p, s);
    case Select(_, _, _, _) => SelectParses(ts, p, s);
  }

  // What is parsed can be spelled.

  ghost predicate ItemsAre<X(!new)>(ts: seq<Token>, item: (seq<Token>, nat) -> At<X>, ok: X -> bool) {
    forall q: nat :: item(ts, q).Some? ==> ok(item(ts, q).value.0)
  }

  lemma {:induction false} TailItems<X(!new)>(ts: seq<Token>, xs: seq<X>, p: nat,
                                              item: (seq<Token>, nat) -> At<X>, ok: X -> bool)
    requires p <= |ts| && xs != [] && ItemsAre(ts, item, ok) && forall i :: 0 <= i < |xs| ==> ok(xs[i])
    ensures var r := ListTail(ts, xs, p, item);
      r.Some? ==> r.value.0 != [] && forall i :: 0 <= i < |r.value.0| ==> ok(r.value.0[i])
    decreases |ts| - p
  {
    if Is(ts, p, COMMA) {
      var x := item(ts, p + 1);
      if x.Some? && p + 1 < x.value.1 <= |ts| { TailItems(ts, xs + [x.value.0], x.value.1, item, ok); }
    }
  }

  lemma ListItems<X(!new)>(ts: seq<Token>, p: nat, item: (seq<Token>, nat) -> At<X>, ok: X -> bool)
    requires ItemsAre(ts, item, ok)
    ensures var r := ListAt(ts, p, item);
      r.Some? ==> r.value.0 != [] && forall i :: 0 <= i < |r.value.0| ==> ok(r.value.0[i])
  {
    var x := item(ts, p);
    if x.Some? && p < x.value.1 <= |ts| { TailItems(ts, [x.value.0], x.value.1, item, ok); }
  }

  predicate AssignmentOk(a: (string, Expression)) { IsValue(a.1) }

  predicate AnyName(name: string) { true }

  lemma RowsAreOk(ts: seq<Token>)
    ensures ItemsAre(ts, RowAt, RowOk)
  {
    hide ListAt, LiteralOk;
    LiteralsAreOk(ts);
    forall q: nat | RowAt(ts, q).Some? ensures RowOk(RowAt(ts, q).value.0) {
      ListItems(ts, q + 1, LiteralAt, LiteralOk);
    }
  }

  lemma LiteralsAreOk(ts: seq<Token>)
    ensures ItemsAre(ts, LiteralAt, LiteralOk)
  {
  }

  /** Which parsing function a statement comes from. */
  lemma WhichStatement(ts: seq<Token>, p: nat)
    requires StatementAt(ts, p).Some?
    ensures var r := StatementAt(ts, p); var s := r.value.0;
      && (s.Grant? ==> Is(ts, p, Word("GRANT")) && r == GrantAt(ts, p + 1))
      && (s.Revoke? ==> Is(ts, p, Word("REVOKE")) && r == RevokeAt(ts, p + 1))
      && (s.Revert? ==> Is(ts, p, Word("REVERT")) && r == RevertAt(ts, p + 1))
      && (s.CreateTable? ==> Is(ts, p, Word("CREATE")) && Is(ts, p + 1, Word("TABLE")) && r == CreateTableAt(ts, p + 2))
      && (s.DropTable? ==> Is(ts, p, Word("DROP")) && Is(ts, p + 1, Word("TABLE")) && r == DropAt(ts, p + 1))
      && (s.Insert? ==> Is(ts, p, Word("INSERT")) && r == InsertAt(ts, p + 1))
      && (s.Update? ==> Is(ts, p, Word("UPDATE")) && r == UpdateAt(ts, p + 1) && s.condition.Some?)
      && (s.Delete? ==> Is(ts, p, Word("DELETE")) && r == DeleteAt(ts, p + 1) && s.condition.Some?)
      && (s.Select? ==> Is(ts, p, Word("SELECT")) && r == SelectAt(ts, p + 1))
  {
    hide CreateAt, DropAt, UseAt, GrantAt, RevokeAt, RevertAt, InsertAt, UpdateAt, DeleteAt, SelectAt;
    FromWhere(ts, p + 1);
  }

  /** What the parsing functions make. */
  lemma FromWhere(ts: seq<Token>, p: nat)
    ensures GrantAt(ts, p).Some? ==> GrantAt(ts, p).value.0.Grant?
    ensures RevokeAt(ts, p).Some? ==> RevokeAt(ts, p).value.0.Revoke?
    ensures RevertAt(ts, p).Some? ==> RevertAt(ts, p).value.0.Revert?
    ensures var r := CreateAt(ts, p); r.Some? ==>
      if Is(ts, p, Word("TABLE")) then r == CreateTableAt(ts, p + 1) && r.value.0.CreateTable?
      else r.value.0.CreateDatabase? || r.value.0.CreateUser?
    ensures var r := DropAt(ts, p); r.Some? ==>
      if Is(ts, p, Word("TABLE")) then r.value.0.DropTable? else r.value.0.DropDatabase?
    ensures UseAt(ts, p).Some? ==> UseAt(ts, p).value.0.UseDatabase?
    ensures InsertAt(ts, p).Some? ==> InsertAt(ts, p).value.0.Insert?
    ensures UpdateAt(ts, p).Some? ==> UpdateAt(ts, p).value.0.Update? && UpdateAt(ts, p).value.0.condition.Some?
    ensures DeleteAt(ts, p).Some? ==> DeleteAt(ts, p).value.0.Delete? && DeleteAt(ts, p).value.0.condition.Some?
    ensures SelectAt(ts, p).Some? ==> SelectAt(ts, p).value.0.Select?
  {
    hide ListAt, RightsAt, TableRefAt, WhereAt, ProjectionAt, TimestampAt, RowsAt;
  }

  /** Every parsed statement is one that can be spelled. */
  lemma ParsedIsOk(ts: seq<Token>, p: nat)
    requires StatementAt(ts, p).Some?
    ensures StatementOk(StatementAt(ts, p).value.0)
  {
    hide ListAt, IsPermission, ColumnDefOk, ItemOk, RowOk, Renderable, OrAt, IsTimestamp, TableRefAt,
      ScopeAt, StatementAt, RightsAt;
    var s := StatementAt(ts, p).value.0;
    WhichStatement(ts, p);
    match s
    case Grant(_, _, _) => RightsAreOk(ts, p + 1, "TO");
    case Revoke(_, _, _) => RightsAreOk(ts, p + 1, "FROM");
    case Revert(t, _) => TimestampIsOk(ts, TableRefAt(ts, p + 1).value.1);
    case CreateTable(_, _) =>
      ColumnsAreOk(ts);
      ListItems(ts, TableRefAt(ts, p + 2).value.1 + 1, ColumnAt, ColumnDefOk);
    case Insert(_, _, _) =>
      RowsAreOk(ts);
      var q := TableRefAt(ts, p + 2).value.1 + 1;
      ListItems(ts, q, NameAt, AnyName);
      var e := ListAt(ts, q, NameAt).value.1 + 2;
      ListItems(ts, if Is(ts, e, COMMA) then e + 1 else e, RowAt, RowOk);
    case Update(_, _, _) =>
      AssignmentsAreOk(ts);
      ListItems(ts, TableRefAt(ts, p + 1).value.1 + 1, AssignmentAt, AssignmentOk);
      assert forall i :: 0 <= i < |s.assignments| ==> AssignmentOk(s.assignments[i]);
    case Select(all, items, _, _) =>
      ItemsAreOk(ts);
      if !all { ListItems(ts, p + 1, ItemAt, ItemOk); }
    case Delete(_, _) =>
    case CreateDatabase(_) =>
    case DropDatabase(_) =>
    case UseDatabase(_) =>
    case CreateUser(_, _) =>
    case DropTable(_) =>
  }

  lemma RightsAreOk(ts: seq<Token>, p: nat, preposition: string)
    ensures var r := RightsAt(ts, p, preposition);
      r.Some? ==> r.value.0.0 != [] && forall i :: 0 <= i < |r.value.0.0| ==> IsPermission(r.value.0.0[i])
  {
    hide ListAt, ScopeAt;
    ListItems(ts, p, PermissionAt, IsPermission);
  }

  lemma TimestampIsOk(ts: seq<Token>, p: nat)
    requires TimestampAt(ts, p).Some?
    ensures IsTimestamp(TimestampAt(ts, p).value.0)
  {
    var d, c := DateText(ts, p), ClockText(ts, p + 6);
    assert d[4] == '.' && d[7] == '.';
    assert c[2] == ':' && c[5] == ':' && c[8] == '.';
    var s := d + "-" + c;
    assert s[13] == c[2] && s[16] == c[5] && s[19] == c[8];
  }

  lemma ColumnsAreOk(ts: seq<Token>)
    ensures ItemsAre(ts, ColumnAt, ColumnDefOk)
  {
  }

  lemma AssignmentsAreOk(ts: seq<Token>)
    ensures ItemsAre(ts, AssignmentAt, AssignmentOk)
  {
  }

  lemma ItemsAreOk(ts: seq<Token>)
    ensures ItemsAre(ts, ItemAt, ItemOk)
  {
  }
}
