/** Statements that can be written as a text: the tokens they are spelled with are all ones
    the lexer makes. */
module StatementPrint {
  import opened Bytes
  import opened Ast
  import opened ConditionGrammar
  import opened StatementGrammar
  import opened LexSpec
  import opened ConditionText

  predicate TablePrintable(t: TableRef) {
    (t.database == "" || NamePrintable(t.database)) && NamePrintable(t.table)
  }

  predicate ScopePartPrintable(s: string) { s == "*" || NamePrintable(s) }

  predicate ScopePrintable(t: TableRef) { ScopePartPrintable(t.database) && ScopePartPrintable(t.table) }

  predicate NumberPrintable(s: string) { s != "" && AllDigits(s) }

  predicate TimestampPrintable(s: string)
    requires IsTimestamp(s)
  {
    && NumberPrintable(s[..4]) && NumberPrintable(s[5..7]) && NumberPrintable(s[8..10])
    && NumberPrintable(s[11..13]) && NumberPrintable(s[14..16]) && NumberPrintable(s[17..19])
    && NumberPrintable(s[20..])
  }

  predicate RowPrintable(row: seq<Literal>) {
    forall i :: 0 <= i < |row| ==> LiteralPrintable(row[i])
  }

  predicate ColumnPrintable(c: ColumnDef) {
    NamePrintable(c.name) && (c.defaultValue.Some? ==> LiteralPrintable(c.defaultValue.value))
  }

  predicate AssignmentPrintable(a: (string, Expression)) { NamePrintable(a.0) && ValuePrintable(a.1) }

  predicate ItemPrintable(item: SelectItem) {
    && (if item.expr.Aggregate? then NamePrintable(item.expr.column) else ValuePrintable(item.expr))
    && (item.alias == "" || NamePrintable(item.alias))
  }

  predicate WherePrintable(c: Option<Condition>) { c.Some? ==> Printable(c.value) }

  predicate StatementPrintable(s: Statement)
    requires StatementOk(s)
  {
    match s
    case CreateDatabase(name) => NamePrintable(name)
    case DropDatabase(name) => NamePrintable(name)
    case UseDatabase(name) => NamePrintable(name)
    case CreateUser(user, password) => NamePrintable(user) && '"' !in password
    case Grant(_, scope, user) => ScopePrintable(scope) && NamePrintable(user)
    case Revoke(_, scope, user) => ScopePrintable(scope) && NamePrintable(user)
    case Revert(t, time) => TablePrintable(t) && TimestampPrintable(time)
    case CreateTable(t, cs) => TablePrintable(t) && forall i :: 0 <= i < |cs| ==> ColumnPrintable(cs[i])
    case DropTable(t) => TablePrintable(t)
    case Insert(t, names, rows) =>
      && TablePrintable(t) && (forall i :: 0 <= i < |names| ==> NamePrintable(names[i]))
      && forall i :: 0 <= i < |rows| ==> RowPrintable(rows[i])
    case Update(t, assignments, c) =>
      TablePrintable(t) && (forall i :: 0 <= i < |assignments| ==> AssignmentPrintable(assignments[i]))
        && WherePrintable(c)
    case Delete(t, c) => TablePrintable(t) && WherePrintable(c)
    case Select(_, items, t, c) =>
      TablePrintable(t) && (forall i :: 0 <= i < |items| ==> ItemPrintable(items[i])) && WherePrintable(c)
  }

  // Single tokens.

  lemma VerbsLexable()
    ensures Lexable(Word("SELECT")) && Lexable(Word("INSERT")) && Lexable(Word("UPDATE")) && Lexable(Word("DELETE"))
    ensures Lexable(Word("CREATE")) && Lexable(Word("DROP")) && Lexable(Word("USE")) && Lexable(Word("REVERT"))
    ensures Lexable(Word("GRANT")) && Lexable(Word("REVOKE"))
  {
    hide IsClause, IsNoun, IsModifier, IsOperation;
  }

  lemma ClausesLexable()
    ensures Lexable(Word("FROM")) && Lexable(Word("WHERE")) && Lexable(Word("INTO")) && Lexable(Word("VALUE"))
    ensures Lexable(Word("SET")) && Lexable(Word("AS")) && Lexable(Word("ON")) && Lexable(Word("TO"))
  {
    hide IsVerb, IsNoun, IsModifier, IsOperation;
  }

  lemma NounsLexable()
    ensures Lexable(Word("TABLE")) && Lexable(Word("DATABASE")) && Lexable(Word("USER")) && Lexable(Word("PASSWORD"))
    ensures Lexable(Word("INT")) && Lexable(Word("STRING")) && Lexable(Word("READ")) && Lexable(Word("WRITE"))
  {
    hide IsVerb, IsClause, IsModifier, IsOperation;
  }

  lemma OthersLexable()
    ensures Lexable(Word("NOT_NULL")) && Lexable(Word("INDEXED")) && Lexable(Word("DEFAULT"))
    ensures Lexable(Word("SUM")) && Lexable(Word("COUNT")) && Lexable(Word("AVG"))
  {
    hide IsVerb, IsClause, IsNoun;
  }

  lemma MarksLexable()
    ensures Lexable(COMMA) && Lexable(DOT) && Lexable(DASH) && Lexable(COLON) && Lexable(SEMICOLON)
    ensures Lexable(STAR) && Lexable(ASSIGN)
  {
  }

  lemma NameLexable(name: string)
    requires NamePrintable(name)
    ensures Lexable(Name(name))
  {
    hide IsKeyword, IsWord;
  }

  lemma NumberLexable(s: string)
    requires NumberPrintable(s)
    ensures Lexable(Number(s))
  {
  }

  // Parts.

  lemma {:induction false} ListLexable<X>(xs: seq<X>, spell: X -> seq<Token>)
    requires forall i :: 0 <= i < |xs| ==> AllLexable(spell(xs[i]))
    ensures AllLexable(SpellList(xs, spell))
    decreases |xs|
  {
    hide Lexable;
    MarksLexable();
    if |xs| > 1 { ListLexable(xs[..|xs| - 1], spell); }
  }

  lemma TableLexable(t: TableRef)
    requires TablePrintable(t)
    ensures AllLexable(SpellTable(t))
  {
    hide Lexable, NamePrintable;
    MarksLexable();
    NameLexable(t.table);
    if t.database != "" { NameLexable(t.database); }
  }

  lemma ScopeLexable(t: TableRef)
    requires ScopePrintable(t)
    ensures AllLexable(SpellScope(t))
  {
    hide Lexable, NamePrintable;
    MarksLexable();
    if t.database != "*" { NameLexable(t.database); }
    if t.table != "*" { NameLexable(t.table); }
  }

  lemma TimestampLexable(s: string)
    requires IsTimestamp(s) && TimestampPrintable(s)
    ensures AllLexable(SpellTimestamp(s))
  {
    hide Lexable, NumberPrintable;
    MarksLexable();
    NumberLexable(s[..4]);
    NumberLexable(s[5..7]);
    NumberLexable(s[8..10]);
    NumberLexable(s[11..13]);
    NumberLexable(s[14..16]);
    NumberLexable(s[17..19]);
    NumberLexable(s[20..]);
  }

  lemma LiteralLexable(l: Literal)
    requires LiteralPrintable(l)
    ensures AllLexable(SpellLiteral(l))
  {
    hide Lexable, LiteralPrintable;
    if LiteralOk(l) { ValueLexable(LiteralExpr(l)); }
  }

  lemma RowLexable(row: seq<Literal>)
    requires RowPrintable(row)
    ensures AllLexable(SpellRow(row))
  {
    hide Lexable, LiteralPrintable, SpellLiteral;
    SignsLexable();
    forall i | 0 <= i < |row| ensures AllLexable(SpellLiteral(row[i])) { LiteralLexable(row[i]); }
    ListLexable(row, SpellLiteral);
  }

  lemma ColumnLexable(c: ColumnDef)
    requires ColumnPrintable(c)
    ensures AllLexable(SpellColumn(c))
  {
    hide Lexable, LiteralPrintable, NamePrintable, SpellLiteral;
    NameLexable(c.name);
    NounsLexable();
    OthersLexable();
    if c.defaultValue.Some? { LiteralLexable(c.defaultValue.value); }
  }

  lemma AssignmentLexable(a: (string, Expression))
    requires AssignmentPrintable(a)
    ensures AllLexable(SpellAssignment(a))
  {
    hide Lexable, NamePrintable, ValuePrintable;
    NameLexable(a.0);
    MarksLexable();
    if IsValue(a.1) { ValueLexable(a.1); }
  }

  lemma ItemLexable(item: SelectItem)
    requires ItemPrintable(item)
    ensures AllLexable(SpellItem(item))
  {
    hide Lexable, NamePrintable, ValuePrintable;
    SignsLexable();
    OthersLexable();
    ClausesLexable();
    if item.expr.Aggregate? { NameLexable(item.expr.column); } else if IsValue(item.expr) { ValueLexable(item.expr); }
    if item.alias != "" { NameLexable(item.alias); }
  }

  lemma WhereLexable(c: Option<Condition>)
    requires (c.Some? ==> Renderable(c.value)) && WherePrintable(c)
    ensures AllLexable(SpellWhere(c))
  {
    hide Lexable, Printable, Renderable, SpellOr;
    ClausesLexable();
    if c.Some? {
      RenderedLexable(c.value);
      SpellOrLexable(OrTreeOf(c.value), |OrTreeOf(c.value).ands|);
    }
  }

  lemma RightsLexable(ps: seq<string>, scope: TableRef, preposition: string, user: string)
    requires forall i :: 0 <= i < |ps| ==> IsPermission(ps[i])
    requires ScopePrintable(scope) && NamePrintable(user) && (preposition == "TO" || preposition == "FROM")
    ensures AllLexable(SpellRights(ps, scope, preposition, user))
  {
    hide Lexable, NamePrintable, ScopePrintable, SpellScope;
    NounsLexable();
    VerbsLexable();
    ClausesLexable();
    ListLexable(ps, SpellPermission);
    ScopeLexable(scope);
    NameLexable(user);
  }

  // Whole statements.

  lemma ShortLexable(s: Statement)
    requires StatementOk(s) && StatementPrintable(s)
    requires s.CreateDatabase? || s.DropDatabase? || s.UseDatabase? || s.CreateUser? || s.DropTable? || s.Revert?
    ensures AllLexable(SpellStatement(s))
  {
    hide Lexable, NamePrintable, TablePrintable, SpellTable, SpellTimestamp, IsTimestamp, TimestampPrintable;
    VerbsLexable();
    NounsLexable();
    match s
    case CreateDatabase(name) => NameLexable(name);
    case DropDatabase(name) => NameLexable(name);
    case UseDatabase(name) => NameLexable(name);
    case CreateUser(user, password) => NameLexable(user); StringsLexable(password);
    case DropTable(t) => TableLexable(t);
    case Revert(t, time) => TableLexable(t); TimestampLexable(time);
  }

  lemma RightsStatementLexable(s: Statement)
    requires StatementOk(s) && StatementPrintable(s) && (s.Grant? || s.Revoke?)
    ensures AllLexable(SpellStatement(s))
  {
    hide Lexable, NamePrintable, ScopePrintable, SpellRights, IsPermission;
    VerbsLexable();
    RightsLexable(s.permissions, s.scope, if s.Grant? then "TO" else "FROM", s.username);
  }

  lemma CreateTableLexable(s: Statement)
    requires StatementOk(s) && StatementPrintable(s) && s.CreateTable?
    ensures AllLexable(SpellStatement(s))
  {
    hide Lexable, TablePrintable, SpellTable, ColumnPrintable, SpellColumn, ColumnDefOk;
    VerbsLexable();
    NounsLexable();
    SignsLexable();
    TableLexable(s.table);
    forall i | 0 <= i < |s.columns| ensures AllLexable(SpellColumn(s.columns[i])) { ColumnLexable(s.columns[i]); }
    ListLexable(s.columns, SpellColumn);
  }

  lemma InsertLexable(s: Statement)
    requires StatementOk(s) && StatementPrintable(s) && s.Insert?
    ensures AllLexable(SpellStatement(s))
  {
    hide Lexable, TablePrintable, SpellTable, RowPrintable, SpellRow, RowOk, NamePrintable;
    VerbsLexable();
    ClausesLexable();
    SignsLexable();
    TableLexable(s.table);
    forall i | 0 <= i < |s.columnNames| ensures AllLexable(SpellName(s.columnNames[i])) {
      NameLexable(s.columnNames[i]);
    }
    ListLexable(s.columnNames, SpellName);
    forall i | 0 <= i < |s.values| ensures AllLexable(SpellRow(s.values[i])) { RowLexable(s.values[i]); }
    ListLexable(s.values, SpellRow);
  }

  lemma UpdateLexable(s: Statement)
    requires StatementOk(s) && StatementPrintable(s) && (s.Update? || s.Delete?)
    ensures AllLexable(SpellStatement(s))
  {
    hide Lexable, TablePrintable, SpellTable, AssignmentPrintable, SpellAssignment, SpellWhere,
      WherePrintable, Renderable;
    VerbsLexable();
    ClausesLexable();
    TableLexable(s.table);
    WhereLexable(s.condition);
    if s.Update? {
      forall i | 0 <= i < |s.assignments| ensures AllLexable(SpellAssignment(s.assignments[i])) {
        AssignmentLexable(s.assignments[i]);
      }
      ListLexable(s.assignments, SpellAssignment);
    }
  }

  lemma SelectLexable(s: Statement)
    requires StatementOk(s) && StatementPrintable(s) && s.Select?
    ensures AllLexable(SpellStatement(s))
  {
    hide Lexable, TablePrintable, SpellTable, ItemPrintable, SpellItem, ItemOk, SpellWhere, WherePrintable, Renderable;
    VerbsLexable();
    ClausesLexable();
    MarksLexable();
    TableLexable(s.table);
    WhereLexable(s.condition);
    forall i | 0 <= i < |s.items| ensures AllLexable(SpellItem(s.items[i])) { ItemLexable(s.items[i]); }
    ListLexable(s.items, SpellItem);
  }

  /** The tokens of a printable statement are ones some text has. */
  lemma StatementLexable(s: Statement)
    requires StatementOk(s) && StatementPrintable(s)
    ensures AllLexable(SpellStatement(s))
  {
    hide *;
    match s
    case Grant(_, _, _) => RightsStatementLexable(s);
    case Revoke(_, _, _) => RightsStatementLexable(s);
    case CreateTable(_, _) => CreateTableLexable(s);
    case Insert(_, _, _) => InsertLexable(s);
    case Update(_, _, _) => UpdateLexable(s);
    case Delete(_, _) => UpdateLexable(s);
    case Select(_, _, _, _) => SelectLexable(s);
    case _ => ShortLexable(s);
  }
}
