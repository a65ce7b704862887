/** From the text of a statement to the statement a storage node receives. */
module StatementText {
  import opened Bytes
  import opened Ast
  import opened ConditionGrammar
  import opened StatementGrammar
  import opened StatementProofs
  import opened StatementTests
  import opened LexSpec
  import opened ConditionText
  import opened StatementPrint
  import AstCodec
  import A = AstRoundTrip

  /** What the parser makes of a text. */
  function StatementOfText(text: string): Option<Statement> { ProgramAt(Tokens(text), 0) }

  ghost predicate NamesPlain(ts: seq<Token>) {
    forall i :: 0 <= i < |ts| && ts[i].kind == IdentifierToken ==> '.' !in ts[i].value
  }

  lemma TokensHavePlainNames(text: string)
    ensures NamesPlain(Tokens(text))
  {
    hide Lexable, LexAll;
    var ts := Tokens(text);
    forall i | 0 <= i < |ts| && ts[i].kind == IdentifierToken ensures '.' !in ts[i].value {
      LexedAreLexable(text, 0, i);
      assert ts[i] == LexAll(text, 0)[i].token;
      NamesHaveNoDots(ts[i]);
    }
  }

  lemma NamesHaveNoDots(t: Token)
    requires Lexable(t) && t.kind == IdentifierToken
    ensures '.' !in t.value
  {
    hide IsKeyword;
  }

  /** Table references made of plain names are told apart by their text. */
  lemma ReferencesPlain(ts: seq<Token>, p: nat)
    requires NamesPlain(ts)
    ensures TableRefAt(ts, p).Some? ==> A.TableOk(TableRefAt(ts, p).value.0)
    ensures ScopeAt(ts, p).Some? ==> A.TableOk(ScopeAt(ts, p).value.0)
  {
  }

  lemma StarHasNoItems(ts: seq<Token>, p: nat)
    ensures ProjectionAt(ts, p).Some? && ProjectionAt(ts, p).value.0.0 ==> ProjectionAt(ts, p).value.0.1 == []
  {
  }

  lemma ParsedFromNames(ts: seq<Token>, p: nat)
    requires NamesPlain(ts) && StatementAt(ts, p).Some?
    ensures A.Parsed(StatementAt(ts, p).value.0)
  {
    hide TableRefAt, ScopeAt, ListAt, WhereAt, TimestampAt, A.TableOk, NamesPlain, RowsAt, StatementAt, ProjectionAt;
    var s := StatementAt(ts, p).value.0;
    WhichStatement(ts, p);
    if s.Select? { StarHasNoItems(ts, p + 1); }
    match s
    case Grant(_, _, _) => ReferencesPlain(ts, ListAt(ts, p + 1, PermissionAt).value.1 + 1);
    case Revoke(_, _, _) => ReferencesPlain(ts, ListAt(ts, p + 1, PermissionAt).value.1 + 1);
    case Revert(_, _) => ReferencesPlain(ts, p + 1);
    case CreateTable(_, _) => ReferencesPlain(ts, p + 2);
    case DropTable(_) => ReferencesPlain(ts, p + 2);
    case Insert(_, _, _) => ReferencesPlain(ts, p + 2);
    case Update(_, _, _) => ReferencesPlain(ts, p + 1);
    case Delete(_, _) => ReferencesPlain(ts, p + 2);
    case Select(_, _, _, _) => ReferencesPlain(ts, ProjectionAt(ts, p + 1).value.1 + 1);
    case CreateDatabase(_) =>
    case DropDatabase(_) =>
    case UseDatabase(_) =>
    case CreateUser(_, _) =>
  }

  /** Every statement that comes from a text can be shipped exactly when its integers are in
      range, and then arrives as itself up to leading zeros and a user's password. */
  lemma TextIsShipped(text: string)
    requires StatementOfText(text).Some?
    ensures var s := StatementOfText(text).value;
      && StatementOk(s)
      && (AstCodec.StatementJson(s).Some? <==> A.InRange(s))
      && (A.InRange(s) ==> AstCodec.StatementOf(AstCodec.StatementJson(s).value) == Some(A.CanonicalStatement(s)))
  {
    hide Tokens, StatementAt, StatementOk, A.Parsed, A.InRange;
    ParsedIsOk(Tokens(text), 0);
    TokensHavePlainNames(text);
    ParsedFromNames(Tokens(text), 0);
    A.StatementRoundTrip(StatementOfText(text).value);
  }

  /** Any statement that can be written is what its own text parses to, with or without a
      semicolon at the end. */
  lemma TextRoundTrip(s: Statement, semicolon: bool)
    requires StatementOk(s) && StatementPrintable(s)
    ensures StatementOfText(Joined(SpellStatement(s) + if semicolon then [SEMICOLON] else [])) == Some(s)
  {
    hide StatementAt, StatementOk, SpellStatement, StatementPrintable, Joined, LexAll, Lexable;
    StatementLexable(s);
    var w := SpellStatement(s);
    var all := w + if semicolon then [SEMICOLON] else [];
    MarksLexable();
    var text := Joined(all);
    assert text[0..] == text;
    LexJoined(text, 0, all);
    var ts := Tokens(text);
    assert ts == all + [END];
    forall i | 0 <= i < |w| ensures TokenAt(ts, 0, w, i) { }
    StatementParses(ts, 0, s);
  }

  /** `INSERT INTO t (c) VALUE , (1);` */
  const COMMA_FIRST: seq<Token> := [
    Word("INSERT"), Word("INTO"), Name("t"), OPEN, Name("c"), CLOSE, Word("VALUE"),
    COMMA, OPEN, Number("1"), CLOSE, SEMICOLON, END]

  /** `SELECT 1 FROM t;` */
  const LITERAL_SELECTED: seq<Token> := [Word("SELECT"), Number("1"), Word("FROM"), Name("t"), SEMICOLON, END]

  const ONE := Literal(IntegerType, "1")

  lemma RowBehindComma()
    ensures RowsAt(COMMA_FIRST, 7) == Some(([[ONE]], 11))
  {
    var ts := COMMA_FIRST;
    assert RowAt(ts, 8) == Some(([ONE], 11)) by {
      assert ListTail(ts, [ONE], 10, LiteralAt) == Some(([ONE], 10));
      assert ListAt(ts, 9, LiteralAt) == Some(([ONE], 10));
    }
    hide RowAt;
    assert ListTail(ts, [[ONE]], 11, RowAt) == Some(([[ONE]], 11));
  }

  lemma OneColumn()
    ensures TableRefAt(COMMA_FIRST, 2) == Some((TableRef("", "t"), 3))
    ensures ListAt(COMMA_FIRST, 4, NameAt) == Some((["c"], 5))
  {
    assert ListTail(COMMA_FIRST, ["c"], 5, NameAt) == Some((["c"], 5));
  }

  /** Unlike the grammar, the parser takes a comma before the first row. */
  lemma CommaBeforeRows()
    ensures ProgramAt(COMMA_FIRST, 0) == Some(Insert(TableRef("", "t"), ["c"], [[ONE]]))
    ensures forall s :: !InGrammar(COMMA_FIRST, 0, s)
  {
    var ts := COMMA_FIRST;
    RowBehindComma();
    OneColumn();
    hide ListAt, RowsAt, TableRefAt, ListTail, InGrammar, StatementAt;
    assert InsertAt(ts, 1) == Some((Insert(TableRef("", "t"), ["c"], [[ONE]]), 11));
    ByFirstWord(ts, 0);
    LibertiesTaken();
  }

  lemma LibertiesTaken()
    ensures forall s :: !InGrammar(COMMA_FIRST, 0, s) && !InGrammar(LITERAL_SELECTED, 0, s)
  {
    hide InGrammar, ProgramAt, HasSemicolon;
    FirstIs(COMMA_FIRST, 0, 6, IsValueWord);
    FirstIs(LITERAL_SELECTED, 0, 1, IsLiteralToken);
    FirstIs(LITERAL_SELECTED, 0, 2, IsFrom);
    forall s ensures !InGrammar(COMMA_FIRST, 0, s) && !InGrammar(LITERAL_SELECTED, 0, s) {
      AcceptedInGrammar(COMMA_FIRST, 0, s);
      AcceptedInGrammar(LITERAL_SELECTED, 0, s);
    }
  }

  lemma OnlyTheLiteral()
    ensures ListAt(LITERAL_SELECTED, 1, ItemAt) == Some(([SelectItem(LiteralExpr(ONE), "")], 2))
  {
    var ts, item := LITERAL_SELECTED, SelectItem(LiteralExpr(ONE), "");
    assert ItemAt(ts, 1) == Some((item, 2)) by {
      assert ExpressionAt(ts, 1) == Some((LiteralExpr(ONE), 2));
      hide ExpressionAt;
    }
    hide ItemAt;
    assert ListTail(ts, [item], 2, ItemAt) == Some(([item], 2));
  }

  /** Unlike the grammar, the parser takes a literal among the items of SELECT. */
  lemma LiteralSelected()
    ensures ProgramAt(LITERAL_SELECTED, 0) ==
      Some(Select(false, [SelectItem(LiteralExpr(ONE), "")], TableRef("", "t"), None))
    ensures forall s :: !InGrammar(LITERAL_SELECTED, 0, s)
  {
    var ts := LITERAL_SELECTED;
    var items := [SelectItem(LiteralExpr(ONE), "")];
    OnlyTheLiteral();
    hide ListAt, ItemAt, InGrammar, StatementAt, ListTail;
    assert TableRefAt(ts, 3) == Some((TableRef("", "t"), 4));
    assert SelectAt(ts, 1) == Some((Select(false, items, TableRef("", "t"), None), 4));
    ByFirstWord(ts, 0);
    LibertiesTaken();
  }
}
