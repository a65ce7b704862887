/** The statements that texts stand for are exactly those that can be written. */
module TextPrint {
  import opened Bytes
  import opened Ast
  import opened ConditionGrammar
  import opened StatementGrammar
  import opened StatementProofs
  import opened LexSpec
  import opened ConditionText
  import opened StatementPrint
  import opened StatementText
  import opened StatementSentences

  /** As the lexer makes them: the tokens are ones some text has, or invalid. */
  ghost predicate Clean(ts: seq<Token>) {
    forall i :: 0 <= i < |ts| ==> ts[i].kind == EndOfFile || ts[i].kind == Invalid || Lexable(ts[i])
  }

  lemma LexedAreClean(text: string)
    ensures Clean(Tokens(text))
  {
    hide Lexable, LexAll;
    var ts := Tokens(text);
    forall i | 0 <= i < |ts| ensures ts[i].kind == EndOfFile || ts[i].kind == Invalid || Lexable(ts[i]) {
      LexedAreLexable(text, 0, i);
      assert ts[i] == LexAll(text, 0)[i].token;
    }
  }

  // Names and values.

  lemma TokenPrints(ts: seq<Token>, p: nat)
    requires Clean(ts)
    ensures HasKind(ts, p, IdentifierToken) ==> NamePrintable(ts[p].value)
    ensures HasKind(ts, p, StringLiteral) ==> '"' !in ts[p].value
    ensures HasKind(ts, p, IntegerLiteral) ==> NumberPrintable(ts[p].value)
  {
    hide IsKeyword, IsWord;
  }

  lemma ValuePrints(ts: seq<Token>, p: nat)
    requires Clean(ts) && ParseValueAt(ts, p).Some?
    ensures ValuePrintable(ParseValueAt(ts, p).value)
  {
    hide NamePrintable, Clean;
    TokenPrints(ts, p);
  }

  lemma TablePrints(ts: seq<Token>, p: nat)
    requires Clean(ts)
    ensures TableRefAt(ts, p).Some? ==> TablePrintable(TableRefAt(ts, p).value.0)
    ensures ScopeAt(ts, p).Some? ==> ScopePrintable(ScopeAt(ts, p).value.0)
  {
    hide NamePrintable, Clean;
    TokenPrints(ts, p);
    TokenPrints(ts, p + 2);
  }

  lemma TimePrints(ts: seq<Token>, p: nat)
    requires Clean(ts) && TimestampAt(ts, p).Some?
    ensures IsTimestamp(TimestampAt(ts, p).value.0) && TimestampPrintable(TimestampAt(ts, p).value.0)
  {
    hide NumberPrintable, Clean, IsTimestamp;
    TokenPrints(ts, p);
    TokenPrints(ts, p + 2);
    TokenPrints(ts, p + 4);
    TokenPrints(ts, p + 6);
    TokenPrints(ts, p + 8);
    TokenPrints(ts, p + 10);
    TokenPrints(ts, p + 12);
    StampParts(ts[p].value, ts[p + 2].value, ts[p + 4].value,
               ts[p + 6].value, ts[p + 8].value, ts[p + 10].value, ts[p + 12].value);
  }

  // Conditions.

  lemma PlainPrints(ts: seq<Token>, p: nat)
    requires Clean(ts) && PlainAt(ts, p).Some?
    ensures Printable(PlainAt(ts, p).value.0)
  {
    hide Clean, ParseValueAt, ValuePrintable, IsPlain;
    ValuePrints(ts, p);
    if ParseValueAt(ts, p + 2).Some? { ValuePrints(ts, p + 2); }
    if ParseValueAt(ts, p + 4).Some? { ValuePrints(ts, p + 4); }
    TokenPrints(ts, p + 2);
  }

  lemma {:induction false} PredPrints(ts: seq<Token>, p: nat)
    requires Clean(ts) && PredAt(ts, p).Some?
    ensures Printable(PredAt(ts, p).value.0)
    decreases if p <= |ts| then |ts| - p else 0, 0
  {
    hide Clean, Printable, PlainAt;
    if Is(ts, p, OPEN) { OrPrints(ts, p + 1); } else { PlainPrints(ts, p); }
  }

  lemma {:induction false} AndPrints(ts: seq<Token>, p: nat)
    requires Clean(ts) && AndAt(ts, p).Some?
    ensures Printable(AndAt(ts, p).value.0)
    decreases if p <= |ts| then |ts| - p else 0, 2
  {
    hide Clean, Printable, PredAt;
    PredPrints(ts, p);
    AndTailPrints(ts, PredAt(ts, p).value.0, PredAt(ts, p).value.1);
  }

  lemma {:induction false} AndTailPrints(ts: seq<Token>, left: Condition, p: nat)
    requires Clean(ts) && p <= |ts| && Printable(left) && AndTail(ts, left, p).Some?
    ensures Printable(AndTail(ts, left, p).value.0)
    decreases |ts| - p, 1
  {
    hide Clean, PredAt;
    if Is(ts, p, AND) {
      PredPrints(ts, p + 1);
      var right := PredAt(ts, p + 1).value;
      AndTailPrints(ts, And(left, right.0), right.1);
    }
  }

  lemma {:induction false} OrPrints(ts: seq<Token>, p: nat)
    requires Clean(ts) && OrAt(ts, p).Some?
    ensures Printable(OrAt(ts, p).value.0)
    decreases if p <= |ts| then |ts| - p else 0, 4
  {
    hide Clean, Printable, AndAt;
    AndPrints(ts, p);
    OrTailPrints(ts, AndAt(ts, p).value.0, AndAt(ts, p).value.1);
  }

  lemma {:induction false} OrTailPrints(ts: seq<Token>, left: Condition, p: nat)
    requires Clean(ts) && p <= |ts| && Printable(left) && OrTail(ts, left, p).Some?
    ensures Printable(OrTail(ts, left, p).value.0)
    decreases |ts| - p, 3
  {
    hide Clean, AndAt;
    if Is(ts, p, OR) {
      AndPrints(ts, p + 1);
      var right := AndAt(ts, p + 1).value;
      OrTailPrints(ts, Or(left, right.0), right.1);
    }
  }

  lemma WherePrints(ts: seq<Token>, p: nat)
    requires Clean(ts) && WhereAt(ts, p).Some?
    ensures Printable(WhereAt(ts, p).value.0)
  {
    hide Clean, OrAt, Printable;
    OrPrints(ts, p + 1);
  }

  // Lists.

  lemma NamesPrint(ts: seq<Token>)
    requires Clean(ts)
    ensures ItemsAre(ts, NameAt, NamePrintable)
  {
    hide Clean, NamePrintable;
    forall q: nat | NameAt(ts, q).Some? ensures NamePrintable(NameAt(ts, q).value.0) { TokenPrints(ts, q); }
  }

  lemma LiteralsPrint(ts: seq<Token>)
    requires Clean(ts)
    ensures ItemsAre(ts, LiteralAt, LiteralPrintable)
  {
    hide Clean, ParseValueAt, LiteralPrintable;
    forall q: nat | LiteralAt(ts, q).Some? ensures LiteralPrintable(LiteralAt(ts, q).value.0) { ValuePrints(ts, q); }
  }

  lemma RowsPrint(ts: seq<Token>)
    requires Clean(ts)
    ensures ItemsAre(ts, RowAt, RowPrintable)
  {
    hide Clean, ListAt, LiteralPrintable;
    LiteralsPrint(ts);
    forall q: nat | RowAt(ts, q).Some? ensures RowPrintable(RowAt(ts, q).value.0) {
      ListItems(ts, q + 1, LiteralAt, LiteralPrintable);
    }
  }

  lemma ColumnsPrint(ts: seq<Token>)
    requires Clean(ts)
    ensures ItemsAre(ts, StatementGrammar.ColumnAt, ColumnPrintable)
  {
    hide Clean, NamePrintable, LiteralPrintable, LiteralAt;
    LiteralsPrint(ts);
    forall q: nat | StatementGrammar.ColumnAt(ts, q).Some?
      ensures ColumnPrintable(StatementGrammar.ColumnAt(ts, q).value.0) {
      TokenPrints(ts, q);
    }
  }

  lemma AssignmentsPrint(ts: seq<Token>)
    requires Clean(ts)
    ensures ItemsAre(ts, AssignmentAt, AssignmentPrintable)
  {
    hide Clean, NamePrintable, ValuePrintable, ParseValueAt;
    forall q: nat | AssignmentAt(ts, q).Some? ensures AssignmentPrintable(AssignmentAt(ts, q).value.0) {
      TokenPrints(ts, q);
      ValuePrints(ts, q + 2);
    }
  }

  lemma ItemPrints(ts: seq<Token>, q: nat)
    requires Clean(ts) && ItemAt(ts, q).Some?
    ensures ItemPrintable(ItemAt(ts, q).value.0)
  {
    hide Clean, NamePrintable, ValuePrintable, ParseValueAt;
    var e := ExpressionAt(ts, q).value;
    TokenPrints(ts, q + 2);
    if FunctionAt(ts, q).None? { ValuePrints(ts, q); }
    TokenPrints(ts, e.1 + 1);
  }

  lemma ItemsPrint(ts: seq<Token>)
    requires Clean(ts)
    ensures ItemsAre(ts, ItemAt, ItemPrintable)
  {
    hide Clean, ItemAt, ItemPrintable;
    forall q: nat | ItemAt(ts, q).Some? ensures ItemPrintable(ItemAt(ts, q).value.0) { ItemPrints(ts, q); }
  }

  // Statements.

  /** The statements without a table print their names. */
  ghost predicate NamesPrintable(s: Statement) {
    && (s.CreateDatabase? || s.DropDatabase? || s.UseDatabase? ==> NamePrintable(s.name))
    && (s.CreateUser? ==> NamePrintable(s.username) && '"' !in s.password)
  }

  lemma NamesPrintAt(ts: seq<Token>, p: nat)
    requires Clean(ts)
    ensures CreateAt(ts, p).Some? ==> NamesPrintable(CreateAt(ts, p).value.0)
    ensures DropAt(ts, p).Some? ==> NamesPrintable(DropAt(ts, p).value.0)
    ensures UseAt(ts, p).Some? ==> NamesPrintable(UseAt(ts, p).value.0)
  {
    hide Clean, NamePrintable, TableRefAt, ListAt;
    TokenPrints(ts, p);
    TokenPrints(ts, p + 1);
    TokenPrints(ts, p + 3);
  }

  lemma ShortPrints(ts: seq<Token>, p: nat)
    requires Clean(ts) && StatementAt(ts, p).Some?
    ensures NamesPrintable(StatementAt(ts, p).value.0)
  {
    hide Clean, NamePrintable, CreateAt, DropAt, UseAt, GrantAt, RevokeAt, RevertAt, InsertAt,
      UpdateAt, DeleteAt, SelectAt;
    FromWhere(ts, p + 1);
    NamesPrintAt(ts, p + 1);
  }

  lemma RightsPrint(ts: seq<Token>, p: nat, preposition: string)
    requires Clean(ts) && RightsAt(ts, p, preposition).Some?
    ensures var r := RightsAt(ts, p, preposition).value.0; ScopePrintable(r.1) && NamePrintable(r.2)
  {
    hide Clean, NamePrintable, ListAt, ScopeAt, ScopePrintable;
    var q := ListAt(ts, p, PermissionAt).value.1 + 1;
    TablePrints(ts, q);
    TokenPrints(ts, ScopeAt(ts, q).value.1 + 1);
  }

  lemma CreateTablePrints(ts: seq<Token>, p: nat)
    requires Clean(ts) && CreateTableAt(ts, p).Some?
    ensures var s := CreateTableAt(ts, p).value.0;
      TablePrintable(s.table) && forall i :: 0 <= i < |s.columns| ==> ColumnPrintable(s.columns[i])
  {
    hide Clean, ListAt, TableRefAt, TablePrintable, StatementGrammar.ColumnAt, ColumnPrintable;
    TablePrints(ts, p);
    ColumnsPrint(ts);
    ListItems(ts, TableRefAt(ts, p).value.1 + 1, StatementGrammar.ColumnAt, ColumnPrintable);
  }

  lemma InsertPrints(ts: seq<Token>, p: nat)
    requires Clean(ts) && InsertAt(ts, p).Some?
    ensures var s := InsertAt(ts, p).value.0;
      && TablePrintable(s.table) && (forall i :: 0 <= i < |s.columnNames| ==> NamePrintable(s.columnNames[i]))
      && forall i :: 0 <= i < |s.values| ==> RowPrintable(s.values[i])
  {
    hide Clean, ListAt, TableRefAt, TablePrintable, NameAt, NamePrintable, RowAt, RowPrintable;
    TablePrints(ts, p + 1);
    NamesPrint(ts);
    RowsPrint(ts);
    var q := TableRefAt(ts, p + 1).value.1 + 1;
    ListItems(ts, q, NameAt, NamePrintable);
    var e := ListAt(ts, q, NameAt).value.1 + 2;
    ListItems(ts, if Is(ts, e, COMMA) then e + 1 else e, RowAt, RowPrintable);
  }

  lemma UpdatePrints(ts: seq<Token>, p: nat)
    requires Clean(ts) && UpdateAt(ts, p).Some?
    ensures var s := UpdateAt(ts, p).value.0;
      && TablePrintable(s.table) && WherePrintable(s.condition)
      && forall i :: 0 <= i < |s.assignments| ==> AssignmentPrintable(s.assignments[i])
  {
    hide Clean, ListAt, TableRefAt, TablePrintable, AssignmentAt, AssignmentPrintable, WhereAt, Printable;
    TablePrints(ts, p);
    AssignmentsPrint(ts);
    var q := TableRefAt(ts, p).value.1 + 1;
    ListItems(ts, q, AssignmentAt, AssignmentPrintable);
    WherePrints(ts, ListAt(ts, q, AssignmentAt).value.1);
  }

  lemma DeletePrints(ts: seq<Token>, p: nat)
    requires Clean(ts) && DeleteAt(ts, p).Some?
    ensures var s := DeleteAt(ts, p).value.0; TablePrintable(s.table) && WherePrintable(s.condition)
  {
    hide Clean, TableRefAt, TablePrintable, WhereAt, Printable;
    TablePrints(ts, p + 1);
    WherePrints(ts, TableRefAt(ts, p + 1).value.1);
  }

  lemma SelectPrints(ts: seq<Token>, p: nat)
    requires Clean(ts) && SelectAt(ts, p).Some?
    ensures var s := SelectAt(ts, p).value.0;
      && TablePrintable(s.table) && WherePrintable(s.condition)
      && forall i :: 0 <= i < |s.items| ==> ItemPrintable(s.items[i])
  {
    hide Clean, ListAt, TableRefAt, TablePrintable, ItemAt, ItemPrintable, WhereAt, Printable;
    var what := ProjectionAt(ts, p).value;
    if !what.0.0 {
      ItemsPrint(ts);
      ListItems(ts, p, ItemAt, ItemPrintable);
    }
    TablePrints(ts, what.1 + 1);
    var q := TableRefAt(ts, what.1 + 1).value.1;
    if WhereAt(ts, q).Some? { WherePrints(ts, q); }
  }

  /** Whatever is parsed from tokens of a text can be written. */
  lemma ParsedPrints(ts: seq<Token>, p: nat)
    requires Clean(ts) && StatementAt(ts, p).Some? && StatementOk(StatementAt(ts, p).value.0)
    ensures StatementPrintable(StatementAt(ts, p).value.0)
  {
    hide Clean, ListAt, TableRefAt, TablePrintable, TimestampAt, TimestampPrintable, RightsAt, StatementAt, StatementOk,
      CreateTableAt, InsertAt, UpdateAt, DeleteAt, SelectAt, NamePrintable, WherePrintable, ScopePrintable;
    WhichStatement(ts, p);
    ShortPrints(ts, p);
    var s := StatementAt(ts, p).value.0;
    match s
    case Grant(_, _, _) => RightsPrint(ts, p + 1, "TO");
    case Revoke(_, _, _) => RightsPrint(ts, p + 1, "FROM");
    case Revert(_, _) =>
      TablePrints(ts, p + 1);
      TimePrints(ts, TableRefAt(ts, p + 1).value.1);
    case CreateTable(_, _) => CreateTablePrints(ts, p + 2);
    case DropTable(_) => TablePrints(ts, p + 2);
    case Insert(_, _, _) => InsertPrints(ts, p + 1);
    case Update(_, _, _) => UpdatePrints(ts, p + 1);
    case Delete(_, _) => DeletePrints(ts, p + 1);
    case Select(_, _, _, _) => SelectPrints(ts, p + 1);
    case _ =>
  }

  /** A statement is what some text says exactly when it can be written, and then the text
      written for it says it. */
  lemma TextsSayPrintables(s: Statement)
    ensures (exists text :: StatementOfText(text) == Some(s)) <==> StatementOk(s) && StatementPrintable(s)
    ensures StatementOk(s) && StatementPrintable(s) ==> StatementOfText(Joined(SpellStatement(s))) == Some(s)
  {
    hide StatementOk, StatementPrintable, StatementAt, SpellStatement, Joined, Tokens;
    if text :| StatementOfText(text) == Some(s) {
      var ts := Tokens(text);
      LexedAreClean(text);
      ParsedIsOk(ts, 0);
      ParsedPrints(ts, 0);
    }
    if StatementOk(s) && StatementPrintable(s) {
      StatementText.TextRoundTrip(s, false);
      assert SpellStatement(s) + [] == SpellStatement(s);
    }
  }
}
