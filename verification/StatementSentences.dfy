/** Statements written out word by word, and what they say. */
module StatementSentences {
  import opened Bytes
  import opened Ast
  import opened ConditionGrammar
  import opened StatementGrammar
  import opened LexSpec
  import opened ConditionText
  import opened StatementPrint
  import opened Sentences

  lemma ShortLists<X>(a: X, b: X, c: X, d: X, spell: X -> seq<Token>)
    ensures SpellList([a], spell) == spell(a)
    ensures SpellList([a, b], spell) == spell(a) + [COMMA] + spell(b)
    ensures SpellList([a, b, c, d], spell) ==
      spell(a) + [COMMA] + spell(b) + [COMMA] + spell(c) + [COMMA] + spell(d)
  {
    assert [a, b][..1] == [a] && [a, b, c][..2] == [a, b] && [a, b, c, d][..3] == [a, b, c];
  }

  lemma DatabasesRead(d: string)
    requires NamePrintable(d)
    ensures Says(["CREATE", "DATABASE", d], CreateDatabase(d))
    ensures Says(["DROP", "DATABASE", d], DropDatabase(d))
    ensures Says(["USE", d], UseDatabase(d))
  {
    hide Says, NamePrintable;
    Said(CreateDatabase(d), ["CREATE", "DATABASE", d]);
    Said(DropDatabase(d), ["DROP", "DATABASE", d]);
    Said(UseDatabase(d), ["USE", d]);
  }

  lemma UserRead(u: string, p: string)
    requires NamePrintable(u) && '"' !in p
    ensures Says(["CREATE", "USER", u, "PASSWORD", Quoted(p)], CreateUser(u, p))
  {
    hide Says, NamePrintable;
    Said(CreateUser(u, p), ["CREATE", "USER", u, "PASSWORD", Quoted(p)]);
  }

  lemma CatLexemes()
    ensures forall a, b :: Lexemes(a + b) == Lexemes(a) + Lexemes(b)
  {
  }

  lemma PermissionsListed(p: string, q: string)
    ensures Lexemes(SpellList([p, q], SpellPermission)) == [p, ",", q]
  {
    ShortLists(p, q, p, q, SpellPermission);
  }

  lemma ScopeWords(t: TableRef)
    requires ScopePrintable(t)
    ensures Lexemes(SpellScope(t)) == [t.database, ".", t.table]
  {
    hide NamePrintable;
  }

  lemma RightsWords(p: string, q: string, t: TableRef, preposition: string, u: string)
    requires ScopePrintable(t)
    ensures Lexemes(SpellRights([p, q], t, preposition, u)) ==
      [p, ",", q] + ["ON"] + [t.database, ".", t.table] + [preposition, u]
  {
    hide Lexemes, ScopePrintable, SpellList, SpellScope;
    PermissionsListed(p, q);
    ScopeWords(t);
    CatLexemes();
    assert Lexemes([Word("ON")]) == ["ON"] && Lexemes([Word(preposition), Name(u)]) == [preposition, u];
  }

  lemma RightsOk(s: Statement)
    requires (s.Grant? || s.Revoke?) && s.permissions != [] && ScopePrintable(s.scope) && NamePrintable(s.username)
    requires forall i :: 0 <= i < |s.permissions| ==> IsPermission(s.permissions[i])
    ensures StatementOk(s) && StatementPrintable(s)
  {
    hide NamePrintable;
  }

  lemma RightsRead(d: string, t: string, u: string)
    requires NamePrintable(d) && NamePrintable(t) && NamePrintable(u)
    ensures Says(["GRANT"] + (["READ", ",", "WRITE"] + ["ON"] + [d, ".", t] + ["TO", u]),
                 Grant(["READ", "WRITE"], TableRef(d, t), u))
    ensures Says(["REVOKE"] + (["CREATE", ",", "DELETE"] + ["ON"] + ["*", ".", "*"] + ["FROM", u]),
                 Revoke(["CREATE", "DELETE"], TableRef("*", "*"), u))
  {
    hide Says, NamePrintable, SpellRights, Lexemes, StatementOk, StatementPrintable;
    var g, r := Grant(["READ", "WRITE"], TableRef(d, t), u), Revoke(["CREATE", "DELETE"], TableRef("*", "*"), u);
    RightsOk(g);
    RightsOk(r);
    RightsWords("READ", "WRITE", TableRef(d, t), "TO", u);
    RightsWords("CREATE", "DELETE", TableRef("*", "*"), "FROM", u);
    CatLexemes();
    assert Lexemes([Word("GRANT")]) == ["GRANT"] && Lexemes([Word("REVOKE")]) == ["REVOKE"];
    Said(g, ["GRANT"] + (["READ", ",", "WRITE"] + ["ON"] + [d, ".", t] + ["TO", u]));
    Said(r, ["REVOKE"] + (["CREATE", ",", "DELETE"] + ["ON"] + ["*", ".", "*"] + ["FROM", u]));
  }

  lemma NoStar(name: string)
    requires NamePrintable(name)
    ensures name != "*" && name != ""
  {
    hide IsKeyword;
  }

  lemma RevertWords(t: string, time: string)
    requires IsTimestamp(time)
    ensures Lexemes(SpellStatement(Revert(TableRef("", t), time))) == ["REVERT"] + [t] + Lexemes(SpellTimestamp(time))
  {
    hide IsTimestamp, Lexemes, SpellTable, SpellTimestamp;
    TableWords(TableRef("", t));
    CatLexemes();
    assert Lexemes([Word("REVERT")]) == ["REVERT"];
  }

  lemma StampWords(time: string)
    requires IsTimestamp(time)
    ensures Lexemes(SpellTimestamp(time)) ==
      [time[..4], ".", time[5..7], ".", time[8..10], "-", time[11..13], ":", time[14..16], ":",
       time[17..19], ".", time[20..]]
  {
    hide IsTimestamp;
  }

  lemma RevertOk(t: string, time: string)
    requires NamePrintable(t) && IsTimestamp(time) && TimestampPrintable(time)
    ensures StatementOk(Revert(TableRef("", t), time)) && StatementPrintable(Revert(TableRef("", t), time))
  {
    hide NamePrintable;
  }

  /** A time stamp is written as its seven numbers. */
  lemma RevertRead(t: string, y: string, m: string, d: string, h: string, min: string, s: string, ms: string)
    requires NamePrintable(t) && |y| == 4 && |m| == |d| == |h| == |min| == |s| == 2 && |ms| == 3
    requires AllDigits(y) && AllDigits(m) && AllDigits(d) && AllDigits(h) && AllDigits(min)
      && AllDigits(s) && AllDigits(ms)
    ensures Says(["REVERT"] + [t] + [y, ".", m, ".", d, "-", h, ":", min, ":", s, ".", ms],
                 Revert(TableRef("", t), y + "." + m + "." + d + "-" + (h + ":" + min + ":" + s + "." + ms)))
  {
    hide Says, NamePrintable, AllDigits, IsTimestamp, Lexemes, SpellStatement, SpellTimestamp, StatementOk,
      StatementPrintable;
    var time := y + "." + m + "." + d + "-" + (h + ":" + min + ":" + s + "." + ms);
    StampParts(y, m, d, h, min, s, ms);
    RevertOk(t, time);
    RevertWords(t, time);
    StampWords(time);
    Said(Revert(TableRef("", t), time), ["REVERT"] + [t] + [y, ".", m, ".", d, "-", h, ":", min, ":", s, ".", ms]);
  }

  lemma DateParts(y: string, m: string, d: string)
    requires |y| == 4 && |m| == |d| == 2
    ensures var s := y + "." + m + "." + d;
      |s| == 10 && s[..4] == y && s[4] == '.' && s[5..7] == m && s[7] == '.' && s[8..] == d
  {
  }

  lemma ClockParts(h: string, min: string, s: string, ms: string)
    requires |h| == |min| == |s| == 2 && |ms| == 3
    ensures var c := h + ":" + min + ":" + s + "." + ms;
      && |c| == 12 && c[..2] == h && c[2] == ':' && c[3..5] == min && c[5] == ':' && c[6..8] == s && c[8] == '.'
      && c[9..] == ms
  {
  }

  lemma StampParts(y: string, m: string, d: string, h: string, min: string, s: string, ms: string)
    requires |y| == 4 && |m| == |d| == |h| == |min| == |s| == 2 && |ms| == 3
    ensures var time := y + "." + m + "." + d + "-" + (h + ":" + min + ":" + s + "." + ms);
      && IsTimestamp(time)
      && time[..4] == y && time[5..7] == m && time[8..10] == d
      && time[11..13] == h && time[14..16] == min && time[17..19] == s && time[20..] == ms
  {
    var date, clock := y + "." + m + "." + d, h + ":" + min + ":" + s + "." + ms;
    DateParts(y, m, d);
    ClockParts(h, min, s, ms);
    SplitAtDash(date, clock);
  }

  lemma SplitAtDash(date: string, clock: string)
    requires |date| == 10 && |clock| == 12
    ensures var time := date + "-" + clock;
      && |time| == 23 && time[10] == '-' && (forall i :: 0 <= i < 10 ==> time[i] == date[i])
      && (forall i :: 0 <= i < 12 ==> time[11 + i] == clock[i])
      && time[..4] == date[..4] && time[5..7] == date[5..7] && time[8..10] == date[8..]
      && time[11..13] == clock[..2] && time[14..16] == clock[3..5] && time[17..19] == clock[6..8]
      && time[20..] == clock[9..]
  {
  }

  lemma TableWords(t: TableRef)
    ensures Lexemes(SpellTable(t)) == if t.database == "" then [t.table] else [t.database, ".", t.table]
  {
  }

  /** A column of numbers that must be given and has an index, and one of texts with a default. */
  lemma ColumnsWords(c: string, e: string, l: Literal)
    requires LiteralOk(l)
    ensures Lexemes(SpellColumn(ColumnDef(c, true, true, true, None))) == [c, "INT", "NOT_NULL", "INDEXED"]
    ensures Lexemes(SpellColumn(ColumnDef(e, false, false, false, Some(l)))) ==
      [e, "STRING", "DEFAULT", ValueWord(LiteralExpr(l))]
  {
  }

  lemma CreateTableWords(t: TableRef, a: ColumnDef, b: ColumnDef)
    requires StatementOk(CreateTable(t, [a, b]))
    ensures Lexemes(SpellStatement(CreateTable(t, [a, b]))) ==
      ["CREATE", "TABLE"] + Lexemes(SpellTable(t)) + ["("] +
        (Lexemes(SpellColumn(a)) + [","] + Lexemes(SpellColumn(b))) + [")"]
  {
    hide StatementOk, Lexemes, SpellColumn, SpellTable, SpellList;
    ShortLists(a, b, a, b, SpellColumn);
    CatLexemes();
    assert Lexemes([Word("CREATE"), Word("TABLE")]) == ["CREATE", "TABLE"];
    assert Lexemes([COMMA]) == [","] && Lexemes([OPEN]) == ["("] && Lexemes([CLOSE]) == [")"];
  }

  lemma CreateTableRead(d: string, t: string, c: string, e: string, l: Literal)
    requires NamePrintable(d) && NamePrintable(t) && NamePrintable(c) && NamePrintable(e)
    requires LiteralOk(l) && LiteralPrintable(l)
    ensures Says(["CREATE", "TABLE"] + [d, ".", t] + ["("]
                 + ([c, "INT", "NOT_NULL", "INDEXED"] + [","] + [e, "STRING", "DEFAULT", ValueWord(LiteralExpr(l))])
                 + [")"],
                 CreateTable(TableRef(d, t),
                             [ColumnDef(c, true, true, true, None), ColumnDef(e, false, false, false, Some(l))]))
  {
    hide Says, NamePrintable, LiteralPrintable, LiteralOk, Lexemes, SpellColumn, SpellTable, SpellStatement;
    NoStar(d);
    var a, b := ColumnDef(c, true, true, true, None), ColumnDef(e, false, false, false, Some(l));
    TableWords(TableRef(d, t));
    ColumnsWords(c, e, l);
    CreateTableWords(TableRef(d, t), a, b);
    Said(CreateTable(TableRef(d, t), [a, b]), Lexemes(SpellStatement(CreateTable(TableRef(d, t), [a, b]))));
  }

  lemma DropTableRead(d: string, t: string)
    requires NamePrintable(d) && NamePrintable(t)
    ensures Says(["DROP", "TABLE", d, ".", t], DropTable(TableRef(d, t)))
    ensures Says(["DROP", "TABLE", t], DropTable(TableRef("", t)))
  {
    hide Says, NamePrintable;
    NoStar(d);
    Said(DropTable(TableRef(d, t)), ["DROP", "TABLE", d, ".", t]);
    Said(DropTable(TableRef("", t)), ["DROP", "TABLE", t]);
  }

  predicate LiteralReady(l: Literal) { LiteralOk(l) && LiteralPrintable(l) }

  lemma RowWords(k: Literal, l: Literal)
    requires LiteralReady(k) && LiteralReady(l)
    ensures Lexemes(SpellRow([k, l])) == ["(", ValueWord(LiteralExpr(k)), ",", ValueWord(LiteralExpr(l)), ")"]
    ensures RowOk([k, l]) && RowPrintable([k, l])
  {
    ShortLists(k, l, k, l, SpellLiteral);
  }

  lemma NamesListed(c: string, e: string)
    ensures Lexemes(SpellList([c, e], SpellName)) == [c, ",", e]
  {
    ShortLists(c, e, c, e, SpellName);
  }

  lemma RowsListed(a: seq<Literal>, b: seq<Literal>)
    ensures Lexemes(SpellList([a, b], SpellRow)) == Lexemes(SpellRow(a)) + [","] + Lexemes(SpellRow(b))
  {
    hide Lexemes, SpellRow, SpellList;
    ShortLists(a, b, a, b, SpellRow);
    CatLexemes();
    assert Lexemes([COMMA]) == [","];
  }

  lemma InsertWords(t: string, names: seq<string>, rows: seq<seq<Literal>>)
    requires StatementOk(Insert(TableRef("", t), names, rows))
    ensures Lexemes(SpellStatement(Insert(TableRef("", t), names, rows))) ==
      ["INSERT", "INTO"] + [t] + ["("] + Lexemes(SpellList(names, SpellName)) + [")", "VALUE"]
      + Lexemes(SpellList(rows, SpellRow))
  {
    hide StatementOk, Lexemes, SpellTable, SpellList;
    TableWords(TableRef("", t));
    CatLexemes();
    assert Lexemes([Word("INSERT"), Word("INTO")]) == ["INSERT", "INTO"] && Lexemes([OPEN]) == ["("];
    assert Lexemes([CLOSE, Word("VALUE")]) == [")", "VALUE"];
  }

  lemma InsertRead(t: string, c: string, e: string, k: Literal, l: Literal, m: Literal, n: Literal)
    requires NamePrintable(t) && NamePrintable(c) && NamePrintable(e)
    requires LiteralReady(k) && LiteralReady(l) && LiteralReady(m) && LiteralReady(n)
    ensures Says(["INSERT", "INTO"] + [t] + ["("] + [c, ",", e] + [")", "VALUE"]
                 + (["(", ValueWord(LiteralExpr(k)), ",", ValueWord(LiteralExpr(l)), ")"] + [","]
                    + ["(", ValueWord(LiteralExpr(m)), ",", ValueWord(LiteralExpr(n)), ")"]),
                 Insert(TableRef("", t), [c, e], [[k, l], [m, n]]))
  {
    hide Says, NamePrintable, RowOk, RowPrintable, SpellRow, Lexemes, SpellStatement, SpellList;
    RowWords(k, l);
    RowWords(m, n);
    NamesListed(c, e);
    RowsListed([k, l], [m, n]);
    InsertWords(t, [c, e], [[k, l], [m, n]]);
    var s := Insert(TableRef("", t), [c, e], [[k, l], [m, n]]);
    Said(s, Lexemes(SpellStatement(s)));
  }

  lemma UpdateWords(t: string, a: (string, Expression), b: (string, Expression), c: Condition)
    requires IsValue(a.1) && IsValue(b.1) && Renderable(c)
    ensures Lexemes(SpellStatement(Update(TableRef("", t), [a, b], Some(c)))) ==
      ["UPDATE"] + [t] + ["SET"] + ([a.0, "=", ValueWord(a.1)] + [","] + [b.0, "=", ValueWord(b.1)])
      + (["WHERE"] + Lexemes(Render(c)))
  {
    hide Lexemes, SpellTable, SpellList, Render, Renderable, IsValue;
    ShortLists(a, b, a, b, SpellAssignment);
    TableWords(TableRef("", t));
    CatLexemes();
    assert Lexemes([Word("UPDATE")]) == ["UPDATE"] && Lexemes([Word("SET")]) == ["SET"];
    assert Lexemes([Word("WHERE")]) == ["WHERE"] && Lexemes([COMMA]) == [","];
    assert Lexemes(SpellAssignment(a)) == [a.0, "=", ValueWord(a.1)];
    assert Lexemes(SpellAssignment(b)) == [b.0, "=", ValueWord(b.1)];
  }

  lemma UpdateRead(t: string, a: (string, Expression), b: (string, Expression), c: Condition)
    requires NamePrintable(t) && IsValue(a.1) && IsValue(b.1) && Renderable(c)
    requires AssignmentPrintable(a) && AssignmentPrintable(b) && Printable(c)
    ensures Says(["UPDATE"] + [t] + ["SET"] + ([a.0, "=", ValueWord(a.1)] + [","] + [b.0, "=", ValueWord(b.1)])
                 + (["WHERE"] + Lexemes(Render(c))),
                 Update(TableRef("", t), [a, b], Some(c)))
  {
    hide Says, NamePrintable, AssignmentPrintable, Printable, Renderable, Lexemes, Render, IsValue, SpellStatement;
    UpdateWords(t, a, b, c);
    var s := Update(TableRef("", t), [a, b], Some(c));
    Said(s, Lexemes(SpellStatement(s)));
  }

  lemma DeleteWords(t: string, c: Condition)
    requires Renderable(c)
    ensures Lexemes(SpellStatement(Delete(TableRef("", t), Some(c)))) ==
      ["DELETE", "FROM"] + [t] + (["WHERE"] + Lexemes(Render(c)))
  {
    hide Renderable, Render, Lexemes, SpellTable;
    TableWords(TableRef("", t));
    CatLexemes();
    assert Lexemes([Word("DELETE"), Word("FROM")]) == ["DELETE", "FROM"] && Lexemes([Word("WHERE")]) == ["WHERE"];
  }

  lemma DeleteRead(t: string, c: Condition)
    requires NamePrintable(t) && Renderable(c) && Printable(c)
    ensures Says(["DELETE", "FROM"] + [t] + (["WHERE"] + Lexemes(Render(c))), Delete(TableRef("", t), Some(c)))
  {
    hide Says, NamePrintable, Printable, Renderable, Render, Lexemes, SpellStatement;
    DeleteWords(t, c);
    Said(Delete(TableRef("", t), Some(c)), ["DELETE", "FROM"] + [t] + (["WHERE"] + Lexemes(Render(c))));
  }

  lemma SelectAllWords(t: string, c: Option<Condition>)
    requires c.Some? ==> Renderable(c.value)
    ensures Lexemes(SpellStatement(Select(true, [], TableRef("", t), c))) ==
      ["SELECT", "*", "FROM"] + [t] + if c.None? then [] else ["WHERE"] + Lexemes(Render(c.value))
  {
    hide Renderable, Render, Lexemes, SpellTable;
    TableWords(TableRef("", t));
    CatLexemes();
    assert [Word("SELECT")] + [STAR] + [Word("FROM")] == [Word("SELECT"), STAR, Word("FROM")];
    assert Lexemes([Word("SELECT"), STAR, Word("FROM")]) == ["SELECT", "*", "FROM"];
    assert Lexemes([Word("WHERE")]) == ["WHERE"];
  }

  lemma SelectRead(t: string, c: Condition)
    requires NamePrintable(t) && Renderable(c) && Printable(c)
    ensures Says(["SELECT", "*", "FROM"] + [t], Select(true, [], TableRef("", t), None))
    ensures Says(["SELECT", "*", "FROM"] + [t] + (["WHERE"] + Lexemes(Render(c))),
                 Select(true, [], TableRef("", t), Some(c)))
  {
    hide Says, NamePrintable, Printable, Renderable, Render, Lexemes, SpellStatement;
    SelectAllWords(t, None);
    SelectAllWords(t, Some(c));
    assert ["SELECT", "*", "FROM"] + [t] + [] == ["SELECT", "*", "FROM"] + [t];
    var s, u := Select(true, [], TableRef("", t), None), Select(true, [], TableRef("", t), Some(c));
    Said(s, Lexemes(SpellStatement(s)));
    Said(u, Lexemes(SpellStatement(u)));
  }

  lemma ItemsWords(c: string, d: string, e: string, f: string, a: string)
    requires a != ""
    ensures Lexemes(SpellItem(SelectItem(Aggregate(Sum, c), ""))) == ["SUM", "(", c, ")"]
    ensures Lexemes(SpellItem(SelectItem(Aggregate(Count, d), ""))) == ["COUNT", "(", d, ")"]
    ensures Lexemes(SpellItem(SelectItem(Aggregate(Avg, e), ""))) == ["AVG", "(", e, ")"]
    ensures Lexemes(SpellItem(SelectItem(Identifier(f), a))) == [f, "AS", a]
  {
  }

  lemma FourWords(a: seq<Token>, b: seq<Token>, c: seq<Token>, d: seq<Token>)
    ensures Lexemes(a + [COMMA] + b + [COMMA] + c + [COMMA] + d) ==
      Lexemes(a) + [","] + Lexemes(b) + [","] + Lexemes(c) + [","] + Lexemes(d)
  {
    hide Lexemes;
    CatLexemes();
    assert Lexemes([COMMA]) == [","];
  }

  lemma ItemsListed(i: SelectItem, j: SelectItem, k: SelectItem, l: SelectItem)
    ensures Lexemes(SpellList([i, j, k, l], SpellItem)) ==
      Lexemes(SpellItem(i)) + [","] + Lexemes(SpellItem(j)) + [","] + Lexemes(SpellItem(k)) +
        [","] + Lexemes(SpellItem(l))
  {
    hide *;
    ShortLists(i, j, k, l, SpellItem);
    FourWords(SpellItem(i), SpellItem(j), SpellItem(k), SpellItem(l));
  }

  lemma SelectWords(t: string, items: seq<SelectItem>)
    requires StatementOk(Select(false, items, TableRef("", t), None))
    ensures Lexemes(SpellStatement(Select(false, items, TableRef("", t), None))) ==
      ["SELECT"] + Lexemes(SpellList(items, SpellItem)) + ["FROM"] + [t]
  {
    hide Lexemes, SpellTable, SpellList, StatementOk;
    TableWords(TableRef("", t));
    CatLexemes();
    assert Lexemes([Word("SELECT")]) == ["SELECT"] && Lexemes([Word("FROM")]) == ["FROM"];
  }

  /** The aggregates, and a column under another name. */
  lemma ItemsRead(t: string, c: string, d: string, e: string, f: string, a: string)
    requires NamePrintable(t) && NamePrintable(c) && NamePrintable(d) && NamePrintable(e) && NamePrintable(f)
    requires NamePrintable(a)
    ensures Says(["SELECT"] + (["SUM", "(", c, ")"] + [","] + ["COUNT", "(", d, ")"] + [","]
                               + ["AVG", "(", e, ")"] + [","] + [f, "AS", a]) + ["FROM"] + [t],
                 Select(false, [SelectItem(Aggregate(Sum, c), ""), SelectItem(Aggregate(Count, d), ""),
                                SelectItem(Aggregate(Avg, e), ""), SelectItem(Identifier(f), a)],
                        TableRef("", t), None))
  {
    hide Says, NamePrintable, Lexemes, SpellStatement, SpellItem, SpellList;
    NoStar(a);
    ItemsWords(c, d, e, f, a);
    var i, j, k, l := SelectItem(Aggregate(Sum, c), ""), SelectItem(Aggregate(Count, d), ""),
      SelectItem(Aggregate(Avg, e), ""), SelectItem(Identifier(f), a);
    ItemsListed(i, j, k, l);
    SelectWords(t, [i, j, k, l]);
    var s := Select(false, [i, j, k, l], TableRef("", t), None);
    Said(s, Lexemes(SpellStatement(s)));
  }

  // The keywords are the words that statements are made of.

  ghost predicate UsedIn(w: string, s: Statement) {
    StatementOk(s) && StatementPrintable(s) && Word(w) in SpellStatement(s)
  }

  ghost predicate Used(w: string) { exists s :: UsedIn(w, s) }

  lemma NameX()
    ensures NamePrintable("x")
  {
    assert Upper("x") == ['X'];
  }

  lemma VerbsUsed()
    ensures Used("CREATE") && Used("DATABASE") && Used("DROP") && Used("USE") && Used("USER") && Used("PASSWORD")
  {
    hide NamePrintable;
    NameX();
    assert UsedIn("CREATE", CreateDatabase("x")) && UsedIn("DATABASE", CreateDatabase("x"));
    assert UsedIn("DROP", DropDatabase("x")) && UsedIn("USE", UseDatabase("x"));
    assert UsedIn("USER", CreateUser("x", "")) && UsedIn("PASSWORD", CreateUser("x", ""));
  }

  lemma RightsUsed()
    ensures Used("GRANT") && Used("READ") && Used("WRITE") && Used("ON") && Used("TO")
    ensures Used("REVOKE") && Used("FROM")
  {
    hide NamePrintable, SpellList;
    NameX();
    var g, r := Grant(["READ", "WRITE"], TableRef("x", "x"), "x"), Revoke(["READ", "WRITE"], TableRef("x", "x"), "x");
    ShortLists("READ", "WRITE", "", "", SpellPermission);
    var ps := SpellList(["READ", "WRITE"], SpellPermission);
    assert ps == [Word("READ"), COMMA, Word("WRITE")];
    assert ps[0] == Word("READ") && ps[2] == Word("WRITE");
    RightsOk(g);
    RightsOk(r);
    hide StatementOk, StatementPrintable;
    assert UsedIn("GRANT", g) && UsedIn("READ", g) && UsedIn("WRITE", g) && UsedIn("ON", g) && UsedIn("TO", g);
    assert UsedIn("REVOKE", r) && UsedIn("FROM", r);
  }

  lemma RevertUsed()
    ensures Used("REVERT")
  {
    hide NamePrintable, IsTimestamp, SpellTimestamp;
    NameX();
    var time := "0000" + "." + "00" + "." + "00" + "-" + ("00" + ":" + "00" + ":" + "00" + "." + "000");
    StampParts("0000", "00", "00", "00", "00", "00", "000");
    RevertOk("x", time);
    hide StatementOk, StatementPrintable;
    assert SpellStatement(Revert(TableRef("", "x"), time))[0] == Word("REVERT");
    assert UsedIn("REVERT", Revert(TableRef("", "x"), time));
  }

  const NULL := Literal(NullType, "NULL")

  lemma ColumnsUse(a: ColumnDef, b: ColumnDef)
    requires a == ColumnDef("x", true, true, true, None) && b == ColumnDef("x", false, false, false, Some(NULL))
    ensures var cs := SpellList([a, b], SpellColumn);
      && Word("INT") in cs && Word("NOT_NULL") in cs && Word("INDEXED") in cs
      && Word("STRING") in cs && Word("DEFAULT") in cs && Word("NULL") in cs
  {
    ShortLists(a, b, a, b, SpellColumn);
    hide SpellList;
    assert SpellColumn(a) == [Name("x"), Word("INT"), Word("NOT_NULL"), Word("INDEXED")];
    assert SpellColumn(b) == [Name("x"), Word("STRING"), Word("DEFAULT"), Word("NULL")];
    assert SpellColumn(a)[1] == Word("INT") && SpellColumn(a)[2] == Word("NOT_NULL");
    assert SpellColumn(a)[3] == Word("INDEXED") && SpellColumn(b)[1] == Word("STRING");
    assert SpellColumn(b)[2] == Word("DEFAULT") && SpellColumn(b)[3] == Word("NULL");
  }

  lemma TableOk(cs: seq<ColumnDef>)
    requires cs != [] && forall i :: 0 <= i < |cs| ==> ColumnDefOk(cs[i]) && ColumnPrintable(cs[i])
    ensures var s := CreateTable(TableRef("", "x"), cs); StatementOk(s) && StatementPrintable(s)
  {
    hide NamePrintable, ColumnDefOk, ColumnPrintable;
    NameX();
  }

  lemma ColumnsUsed()
    ensures Used("TABLE") && Used("INT") && Used("NOT_NULL") && Used("INDEXED")
    ensures Used("STRING") && Used("DEFAULT") && Used("NULL")
  {
    hide NamePrintable, SpellList, SpellColumn;
    NameX();
    var a, b := ColumnDef("x", true, true, true, None), ColumnDef("x", false, false, false, Some(NULL));
    ColumnsUse(a, b);
    var s := CreateTable(TableRef("", "x"), [a, b]);
    hide StatementOk, StatementPrintable;
    TableOk([a, b]);
    assert UsedIn("TABLE", s) && UsedIn("INT", s) && UsedIn("NOT_NULL", s) && UsedIn("INDEXED", s);
    assert UsedIn("STRING", s) && UsedIn("DEFAULT", s) && UsedIn("NULL", s);
  }

  lemma InsertUsed()
    ensures Used("INSERT") && Used("INTO") && Used("VALUE")
  {
    hide NamePrintable, SpellList, SpellRow;
    NameX();
    var s := Insert(TableRef("", "x"), ["x"], [[NULL]]);
    assert UsedIn("INSERT", s) && UsedIn("INTO", s) && UsedIn("VALUE", s);
  }

  lemma ItemsUse(i: SelectItem, j: SelectItem, k: SelectItem, l: SelectItem)
    requires i == SelectItem(Aggregate(Sum, "x"), "") && j == SelectItem(Aggregate(Count, "x"), "")
    requires k == SelectItem(Aggregate(Avg, "x"), "") && l == SelectItem(Identifier("x"), "x")
    ensures var items := SpellList([i, j, k, l], SpellItem);
      Word("SUM") in items && Word("COUNT") in items && Word("AVG") in items && Word("AS") in items
  {
    ShortLists(i, j, k, l, SpellItem);
    hide SpellList;
    assert SpellItem(i)[0] == Word("SUM") && SpellItem(j)[0] == Word("COUNT") && SpellItem(k)[0] == Word("AVG");
    assert SpellItem(l)[1] == Word("AS");
  }

  lemma SelectOk(items: seq<SelectItem>)
    requires items != [] && forall i :: 0 <= i < |items| ==> ItemOk(items[i]) && ItemPrintable(items[i])
    ensures var s := Select(false, items, TableRef("", "x"), None); StatementOk(s) && StatementPrintable(s)
  {
    hide NamePrintable, ItemPrintable, ItemOk;
    NameX();
  }

  lemma SelectHas(items: seq<SelectItem>)
    requires StatementOk(Select(false, items, TableRef("", "x"), None))
    ensures var ts := SpellStatement(Select(false, items, TableRef("", "x"), None));
      Word("SELECT") in ts && forall t :: t in SpellList(items, SpellItem) ==> t in ts
  {
    hide StatementOk, SpellList, SpellTable;
  }

  lemma SelectUsed()
    ensures Used("SELECT") && Used("SUM") && Used("COUNT") && Used("AVG") && Used("AS")
  {
    hide NamePrintable, SpellList, SpellItem;
    NameX();
    var i, j, k, l := SelectItem(Aggregate(Sum, "x"), ""), SelectItem(Aggregate(Count, "x"), ""),
      SelectItem(Aggregate(Avg, "x"), ""), SelectItem(Identifier("x"), "x");
    ItemsUse(i, j, k, l);
    var s := Select(false, [i, j, k, l], TableRef("", "x"), None);
    hide StatementOk, StatementPrintable, SpellStatement;
    SelectOk([i, j, k, l]);
    SelectHas([i, j, k, l]);
    assert UsedIn("SELECT", s) && UsedIn("SUM", s) && UsedIn("COUNT", s) && UsedIn("AVG", s) && UsedIn("AS", s);
  }

  lemma ConditionsUse(a: Condition, b: Condition)
    requires a == Like(Identifier("x"), "") && b == Between(Identifier("x"), Identifier("x"), Identifier("x"))
    ensures Renderable(And(a, b)) && Printable(And(a, b)) && Renderable(Or(a, b)) && Printable(Or(a, b))
    ensures Word("AND") in Render(And(a, b)) && Word("LIKE") in Render(And(a, b))
      && Word("BETWEEN") in Render(And(a, b))
    ensures Word("OR") in Render(Or(a, b))
  {
    hide NamePrintable, Render;
    NameX();
    ConnectivesRendered(a, b);
    PlainRendered(a);
    PlainRendered(b);
    assert SpellPlain(a)[1] == Word("LIKE") && SpellPlain(b)[1] == Word("BETWEEN");
  }

  lemma UpdateUsed()
    ensures Used("UPDATE") && Used("SET") && Used("WHERE") && Used("OR")
  {
    hide NamePrintable, Printable, Renderable, Render, SpellList;
    NameX();
    var a, b := Like(Identifier("x"), ""), Between(Identifier("x"), Identifier("x"), Identifier("x"));
    ConditionsUse(a, b);
    var u := Update(TableRef("", "x"), [("x", Identifier("x"))], Some(Or(a, b)));
    assert StatementOk(u) && StatementPrintable(u);
    hide StatementOk, StatementPrintable;
    assert UsedIn("UPDATE", u) && UsedIn("SET", u) && UsedIn("WHERE", u) && UsedIn("OR", u);
  }

  lemma DeleteUsed()
    ensures Used("DELETE") && Used("AND") && Used("LIKE") && Used("BETWEEN")
  {
    hide NamePrintable, Printable, Renderable, Render, SpellTable;
    NameX();
    var a, b := Like(Identifier("x"), ""), Between(Identifier("x"), Identifier("x"), Identifier("x"));
    ConditionsUse(a, b);
    var d := Delete(TableRef("", "x"), Some(And(a, b)));
    assert StatementOk(d) && StatementPrintable(d);
    hide StatementOk, StatementPrintable;
    assert UsedIn("DELETE", d) && UsedIn("AND", d) && UsedIn("LIKE", d) && UsedIn("BETWEEN", d);
  }

  /** A word is a keyword exactly when some statement needs it. */
  lemma KeywordsAreUsed(w: string)
    ensures IsKeyword(w) <==> Used(w)
  {
    hide UsedIn, Used;
    VerbsUsed();
    RightsUsed();
    RevertUsed();
    ColumnsUsed();
    InsertUsed();
    SelectUsed();
    UpdateUsed();
    DeleteUsed();
    if Used(w) { UsedIsKeyword(w); }
  }

  lemma UsedIsKeyword(w: string)
    requires Used(w)
    ensures IsKeyword(w)
  {
    hide IsKeyword, StatementOk, StatementPrintable, SpellStatement;
    var s :| UsedIn(w, s);
    StatementLexable(s);
    assert Lexable(Word(w));
  }
}
