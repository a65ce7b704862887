/** What the statement parser accepts, exactly, and which of it the grammar has. */
module StatementExact {
  import opened Bytes
  import opened Ast
  import opened ConditionGrammar
  import opened StatementGrammar
  import opened StatementProofs
  import opened StatementSpelling

  // Lists.

  /** What the item parser returns was spelled. */
  ghost predicate Sound<X(!new)>(ts: seq<Token>, item: (seq<Token>, nat) -> At<X>,
                                 spelled: (seq<Token>, nat, nat, X) -> bool) {
    forall p: nat :: item(ts, p).Some? ==> spelled(ts, p, item(ts, p).value.1, item(ts, p).value.0)
  }

  lemma {:induction false} TailSpelled<X(!new)>(ts: seq<Token>, p: nat, m: nat, xs: seq<X>,
                                                item: (seq<Token>, nat) -> At<X>,
                                                spelled: (seq<Token>, nat, nat, X) -> bool)
    requires m <= |ts| && ListSpelled(ts, p, m, xs, spelled) && Sound(ts, item, spelled)
    ensures var r := ListTail(ts, xs, m, item);
      r.Some? ==> ListSpelled(ts, p, r.value.1, r.value.0, spelled) && !Is(ts, r.value.1, COMMA)
    decreases |ts| - m
  {
    if Is(ts, m, COMMA) {
      var x := item(ts, m + 1);
      if x.Some? && m + 1 < x.value.1 <= |ts| {
        var ys := xs + [x.value.0];
        assert ys[..|ys| - 1] == xs;
        assert ListSpelled(ts, p, x.value.1, ys, spelled);
        TailSpelled(ts, p, x.value.1, ys, item, spelled);
      }
    }
  }

  /** A parsed list is its items with single commas between them, and no comma follows. */
  lemma ListSound<X(!new)>(ts: seq<Token>, p: nat, item: (seq<Token>, nat) -> At<X>,
                           spelled: (seq<Token>, nat, nat, X) -> bool)
    requires Sound(ts, item, spelled)
    ensures var r := ListAt(ts, p, item);
      r.Some? ==> ListSpelled(ts, p, r.value.1, r.value.0, spelled) && !Is(ts, r.value.1, COMMA)
  {
    var x := item(ts, p);
    if x.Some? && p < x.value.1 <= |ts| {
      assert ListSpelled(ts, p, x.value.1, [x.value.0], spelled);
      TailSpelled(ts, p, x.value.1, [x.value.0], item, spelled);
    }
  }

  /** What is spelled is returned by the item parser, before a comma and before `end`. */
  ghost predicate Complete<X(!new)>(ts: seq<Token>, end: nat, item: (seq<Token>, nat) -> At<X>,
                                    spelled: (seq<Token>, nat, nat, X) -> bool) {
    forall p: nat, q: nat, x: X :: spelled(ts, p, q, x) && (q == end || Is(ts, q, COMMA)) ==>
      p < q <= |ts| && item(ts, p) == Some((x, q))
  }

  lemma {:induction false} SpelledPrefix<X(!new)>(ts: seq<Token>, p: nat, q: nat, xs: seq<X>,
                                                  item: (seq<Token>, nat) -> At<X>,
                                                  spelled: (seq<Token>, nat, nat, X) -> bool)
    requires ListSpelled(ts, p, q, xs, spelled) && Complete(ts, q, item, spelled)
    ensures p < q <= |ts| && ListAt(ts, p, item) == ListTail(ts, xs, q, item)
    decreases |xs|
  {
    hide Is;
    var n := |xs| - 1;
    if n == 0 {
      assert xs == [xs[0]];
    } else {
      var m: nat :| ListSpelled(ts, p, m, xs[..n], spelled) && Is(ts, m, COMMA) && spelled(ts, m + 1, q, xs[n]);
      SpelledPrefix(ts, p, m, xs[..n], item, spelled);
      assert xs == xs[..n] + [xs[n]];
    }
  }

  lemma ListComplete<X(!new)>(ts: seq<Token>, p: nat, q: nat, xs: seq<X>,
                              item: (seq<Token>, nat) -> At<X>, spelled: (seq<Token>, nat, nat, X) -> bool)
    requires ListSpelled(ts, p, q, xs, spelled) && Complete(ts, q, item, spelled) && !Is(ts, q, COMMA)
    ensures ListAt(ts, p, item) == Some((xs, q))
  {
    SpelledPrefix(ts, p, q, xs, item, spelled);
  }

  // Items.

  lemma NamesExact(ts: seq<Token>, end: nat)
    ensures Sound(ts, NameAt, NameSpelled) && Complete(ts, end, NameAt, NameSpelled)
  {
  }

  lemma PermissionsExact(ts: seq<Token>, end: nat)
    ensures Sound(ts, PermissionAt, PermissionSpelled) && Complete(ts, end, PermissionAt, PermissionSpelled)
  {
  }

  lemma ValueExact(ts: seq<Token>, p: nat, e: Expression)
    ensures ParseValueAt(ts, p) == Some(e) <==> ValueSpelled(ts, p, p + 1, e)
  {
    if ValueSpelled(ts, p, p + 1, e) { ValueParses(ts, p, e); }
  }

  lemma LiteralsExact(ts: seq<Token>, end: nat)
    ensures Sound(ts, LiteralAt, LiteralSpelled) && Complete(ts, end, LiteralAt, LiteralSpelled)
  {
    forall p: nat, q: nat, l | LiteralSpelled(ts, p, q, l) ensures LiteralAt(ts, p) == Some((l, q)) {
      ValueExact(ts, p, LiteralExpr(l));
    }
  }

  lemma RowExact(ts: seq<Token>, p: nat, q: nat, row: seq<Literal>)
    ensures RowAt(ts, p) == Some((row, q)) <==> RowSpelled(ts, p, q, row)
    ensures RowSpelled(ts, p, q, row) ==> p < q <= |ts|
  {
    hide ListAt, LiteralAt, LiteralSpelled;
    LiteralsExact(ts, if q > 0 then q - 1 else 0);
    ListSound(ts, p + 1, LiteralAt, LiteralSpelled);
    if RowSpelled(ts, p, q, row) {
      ListComplete(ts, p + 1, q - 1, row, LiteralAt, LiteralSpelled);
    }
  }

  lemma RowsExact(ts: seq<Token>, end: nat)
    ensures Sound(ts, RowAt, RowSpelled) && Complete(ts, end, RowAt, RowSpelled)
  {
    hide RowAt, RowSpelled;
    forall p: nat, q: nat, row ensures RowAt(ts, p) == Some((row, q)) <==> RowSpelled(ts, p, q, row)
      ensures RowSpelled(ts, p, q, row) ==> p < q <= |ts|
    {
      RowExact(ts, p, q, row);
    }
  }

  lemma ColumnSound(ts: seq<Token>, p: nat)
    requires ColumnAt(ts, p).Some?
    ensures ColumnSpelled(ts, p, ColumnAt(ts, p).value.1, ColumnAt(ts, p).value.0)
  {
  }

  lemma ColumnComplete(ts: seq<Token>, p: nat, q: nat, c: ColumnDef)
    requires ColumnSpelled(ts, p, q, c) && (Is(ts, q, COMMA) || Is(ts, q, CLOSE))
    ensures ColumnAt(ts, p) == Some((c, q)) && p < q <= |ts|
  {
    if c.defaultValue.Some? { ValueExact(ts, q - 1, LiteralExpr(c.defaultValue.value)); }
  }

  lemma ColumnsExact(ts: seq<Token>, end: nat)
    ensures Sound(ts, ColumnAt, ColumnSpelled)
    ensures Is(ts, end, CLOSE) ==> Complete(ts, end, ColumnAt, ColumnSpelled)
  {
    hide ColumnAt, ColumnSpelled;
    forall p: nat | ColumnAt(ts, p).Some?
      ensures ColumnSpelled(ts, p, ColumnAt(ts, p).value.1, ColumnAt(ts, p).value.0) {
      ColumnSound(ts, p);
    }
    forall p: nat, q: nat, c | ColumnSpelled(ts, p, q, c) && (Is(ts, q, COMMA) || Is(ts, q, CLOSE))
      ensures ColumnAt(ts, p) == Some((c, q)) && p < q <= |ts|
    {
      ColumnComplete(ts, p, q, c);
    }
  }

  lemma AssignmentComplete(ts: seq<Token>, p: nat, q: nat, a: (string, Expression))
    requires AssignmentSpelled(ts, p, q, a)
    ensures AssignmentAt(ts, p) == Some((a, q)) && p < q <= |ts|
  {
    ValueExact(ts, p + 2, a.1);
  }

  lemma AssignmentsExact(ts: seq<Token>, end: nat)
    ensures Sound(ts, AssignmentAt, AssignmentSpelled) && Complete(ts, end, AssignmentAt, AssignmentSpelled)
  {
    forall p: nat, q: nat, a | AssignmentSpelled(ts, p, q, a)
      ensures AssignmentAt(ts, p) == Some((a, q)) && p < q <= |ts| {
      AssignmentComplete(ts, p, q, a);
    }
  }

  lemma ItemSound(ts: seq<Token>, p: nat)
    requires ItemAt(ts, p).Some?
    ensures AnyItem(ts, p, ItemAt(ts, p).value.1, ItemAt(ts, p).value.0)
  {
  }

  lemma ItemComplete(ts: seq<Token>, p: nat, q: nat, item: SelectItem)
    requires AnyItem(ts, p, q, item) && !Is(ts, q, Word("AS"))
    ensures ItemAt(ts, p) == Some((item, q)) && p < q <= |ts|
  {
    if !item.expr.Aggregate? { ValueExact(ts, p, item.expr); }
  }

  lemma ItemsExact(ts: seq<Token>, end: nat)
    ensures Sound(ts, ItemAt, AnyItem)
    ensures !Is(ts, end, Word("AS")) ==> Complete(ts, end, ItemAt, AnyItem)
  {
    hide ItemAt, AnyItem;
    forall p: nat | ItemAt(ts, p).Some? ensures AnyItem(ts, p, ItemAt(ts, p).value.1, ItemAt(ts, p).value.0) {
      ItemSound(ts, p);
    }
    forall p: nat, q: nat, item | AnyItem(ts, p, q, item) && !Is(ts, q, Word("AS"))
      ensures ItemAt(ts, p) == Some((item, q)) && p < q <= |ts|
    {
      ItemComplete(ts, p, q, item);
    }
  }

  // Parts.

  lemma TableExact(ts: seq<Token>, p: nat, q: nat, t: TableRef)
    ensures TableRefAt(ts, p) == Some((t, q)) ==> TableSpelled(ts, p, q, t)
    ensures TableSpelled(ts, p, q, t) && !Is(ts, q, DOT) ==> TableRefAt(ts, p) == Some((t, q))
  {
  }

  lemma ScopeExact(ts: seq<Token>, p: nat, q: nat, t: TableRef)
    ensures ScopeAt(ts, p) == Some((t, q)) ==> ScopeSpelled(ts, p, q, t)
    ensures ScopeSpelled(ts, p, q, t) && !Is(ts, q, DOT) ==> ScopeAt(ts, p) == Some((t, q))
  {
  }

  lemma TimestampExact(ts: seq<Token>, p: nat, q: nat, time: string)
    ensures TimestampAt(ts, p) == Some((time, q)) <==> TimestampSpelled(ts, p, q, time)
  {
    if TimestampSpelled(ts, p, q, time) { TimestampParses(ts, p, time); }
    if TimestampAt(ts, p) == Some((time, q)) { TimestampSound(ts, p); }
  }

  lemma TimestampSound(ts: seq<Token>, p: nat)
    requires TimestampAt(ts, p).Some?
    ensures TimestampSpelled(ts, p, p + 13, TimestampAt(ts, p).value.0)
  {
    TimestampIsOk(ts, p);
    var d, c, s := DateText(ts, p), ClockText(ts, p + 6), TimestampAt(ts, p).value.0;
    assert d[..4] == ts[p].value && d[5..7] == ts[p + 2].value && d[8..10] == ts[p + 4].value;
    assert c[..2] == ts[p + 6].value && c[3..5] == ts[p + 8].value && c[6..8] == ts[p + 10].value
      && c[9..] == ts[p + 12].value;
    assert s[..10] == d && s[11..] == c;
    assert s[..4] == d[..4] && s[5..7] == d[5..7] && s[8..10] == d[8..10];
    assert s[11..13] == c[..2] && s[14..16] == c[3..5] && s[17..19] == c[6..8] && s[20..] == c[9..];
    var w := SpellTimestamp(s);
    forall i | 0 <= i < 13 ensures TokenAt(ts, p, w, i) {
      assert i == 0 || i == 1 || i == 2 || i == 3 || i == 4 || i == 5 || i == 6 || i == 7 || i == 8 || i == 9
        || i == 10 || i == 11 || i == 12;
    }
  }

  lemma WhereExact(ts: seq<Token>, p: nat, q: nat, c: Condition)
    ensures WhereAt(ts, p) == Some((c, q)) ==> WhereSpelled(ts, p, q, c)
    ensures WhereSpelled(ts, p, q, c) && !Is(ts, q, AND) && !Is(ts, q, OR) ==> WhereAt(ts, p) == Some((c, q))
  {
    hide OrAt, OrAs;
    var r := p + 1;
    ParsedIffSpelled(ts, r, c, q);
  }

  // Statements.

  /** The end of the tokens, or a semicolon there. */
  predicate EndsAt(ts: seq<Token>, q: nat) {
    AtEnd(ts, if Is(ts, q, SEMICOLON) then q + 1 else q)
  }

  lemma RightsExact(ts: seq<Token>, p: nat, q: nat, verb: string, ps: seq<string>, scope: TableRef,
                    preposition: string, user: string)
    ensures Is(ts, p, Word(verb)) && RightsAt(ts, p + 1, preposition) == Some(((ps, scope, user), q)) <==>
      exists a: nat, b: nat :: RightsSpelled(ts, p, a, b, q, verb, ps, scope, preposition, user)
  {
    hide ListAt, PermissionAt, PermissionSpelled, ScopeAt, ScopeSpelled, ListSpelled;
    PermissionsExact(ts, 0);
    ListSound(ts, p + 1, PermissionAt, PermissionSpelled);
    if Is(ts, p, Word(verb)) && RightsAt(ts, p + 1, preposition) == Some(((ps, scope, user), q)) {
      var a := ListAt(ts, p + 1, PermissionAt).value.1;
      var b := ScopeAt(ts, a + 1).value.1;
      ScopeExact(ts, a + 1, b, scope);
      assert RightsSpelled(ts, p, a, b, q, verb, ps, scope, preposition, user);
    }
    if a: nat, b: nat :| RightsSpelled(ts, p, a, b, q, verb, ps, scope, preposition, user) {
      PermissionsExact(ts, a);
      ListComplete(ts, p + 1, a, ps, PermissionAt, PermissionSpelled);
      ScopeExact(ts, a + 1, b, scope);
    }
  }

  lemma RevertExact(ts: seq<Token>, p: nat, q: nat, t: TableRef, time: string)
    ensures Is(ts, p, Word("REVERT")) && RevertAt(ts, p + 1) == Some((Revert(t, time), q)) <==>
      exists a: nat :: RevertSpelled(ts, p, a, q, t, time)
  {
    hide TableRefAt, TableSpelled, TimestampAt, TimestampSpelled;
    if Is(ts, p, Word("REVERT")) && RevertAt(ts, p + 1) == Some((Revert(t, time), q)) {
      var a := TableRefAt(ts, p + 1).value.1;
      TableExact(ts, p + 1, a, t);
      TimestampExact(ts, a, q, time);
      assert RevertSpelled(ts, p, a, q, t, time);
    }
    if a: nat :| RevertSpelled(ts, p, a, q, t, time) {
      TimestampExact(ts, a, q, time);
      NumberThere(ts, a, q, time);
      TableExact(ts, p + 1, a, t);
    }
  }

  lemma NumberThere(ts: seq<Token>, p: nat, q: nat, time: string)
    requires TimestampSpelled(ts, p, q, time)
    ensures !Is(ts, p, DOT)
  {
    SpelledAt(ts, p, SpellTimestamp(time), 0);
  }

  lemma CreateTableExact(ts: seq<Token>, p: nat, q: nat, t: TableRef, cs: seq<ColumnDef>)
    ensures Is(ts, p, Word("CREATE")) && Is(ts, p + 1, Word("TABLE")) &&
            CreateTableAt(ts, p + 2) == Some((CreateTable(t, cs), q)) <==>
      exists a: nat :: CreateTableSpelled(ts, p, a, q, t, cs)
  {
    hide TableRefAt, TableSpelled, ListAt, ColumnAt, ColumnSpelled, ListSpelled, Sound, Complete;
    if Is(ts, p, Word("CREATE")) && Is(ts, p + 1, Word("TABLE"))
      && CreateTableAt(ts, p + 2) == Some((CreateTable(t, cs), q)) {
      var a := TableRefAt(ts, p + 2).value.1;
      TableExact(ts, p + 2, a, t);
      ColumnsExact(ts, 0);
      ListSound(ts, a + 1, ColumnAt, ColumnSpelled);
      assert CreateTableSpelled(ts, p, a, q, t, cs);
    }
    if a: nat :| CreateTableSpelled(ts, p, a, q, t, cs) {
      ColumnsExact(ts, q - 1);
      ListComplete(ts, a + 1, q - 1, cs, ColumnAt, ColumnSpelled);
      TableExact(ts, p + 2, a, t);
    }
  }

  lemma RowsOfInsert(ts: seq<Token>, p: nat, q: nat, rows: seq<seq<Literal>>)
    ensures RowsAt(ts, p) == Some((rows, q)) ==> RowsSpelled(false, ts, p, q, rows) && !Is(ts, q, COMMA)
    ensures RowsSpelled(false, ts, p, q, rows) && !Is(ts, q, COMMA) ==> RowsAt(ts, p) == Some((rows, q))
    ensures RowsAt(ts, p) == Some((rows, q)) ==> (RowsSpelled(true, ts, p, q, rows) <==> !Is(ts, p, COMMA))
  {
    hide ListAt, RowAt, RowSpelled;
    RowsExact(ts, q);
    RowsStart(ts, p, q, rows);
    ListSound(ts, p, RowAt, RowSpelled);
    ListSound(ts, p + 1, RowAt, RowSpelled);
    if ListSpelled(ts, p, q, rows, RowSpelled) && !Is(ts, q, COMMA) { ListComplete(ts, p, q, rows, RowAt, RowSpelled); }
    if ListSpelled(ts, p + 1, q, rows, RowSpelled) && !Is(ts, q, COMMA) {
      ListComplete(ts, p + 1, q, rows, RowAt, RowSpelled);
    }
  }

  lemma {:induction false} RowsStart(ts: seq<Token>, p: nat, q: nat, rows: seq<seq<Literal>>)
    ensures ListSpelled(ts, p, q, rows, RowSpelled) ==> Is(ts, p, OPEN)
    decreases |rows|
  {
    var n := |rows| - 1;
    if n > 0 && ListSpelled(ts, p, q, rows, RowSpelled) {
      var m: nat :| ListSpelled(ts, p, m, rows[..n], RowSpelled) && Is(ts, m, COMMA)
        && RowSpelled(ts, m + 1, q, rows[n]);
      RowsStart(ts, p, m, rows[..n]);
    }
  }

  lemma InsertSound(ts: seq<Token>, p: nat, q: nat, t: TableRef, names: seq<string>, rows: seq<seq<Literal>>)
    returns (a: nat, b: nat)
    requires Is(ts, p, Word("INSERT")) && InsertAt(ts, p + 1) == Some((Insert(t, names, rows), q))
    ensures InsertSpelled(false, ts, p, a, b, q, t, names, rows) && RowsAt(ts, b + 2) == Some((rows, q))
  {
    hide TableRefAt, TableSpelled, ListAt, NameAt, NameSpelled, ListSpelled, RowsAt, RowsSpelled;
    a := TableRefAt(ts, p + 2).value.1;
    b := ListAt(ts, a + 1, NameAt).value.1;
    TableExact(ts, p + 2, a, t);
    NamesExact(ts, 0);
    ListSound(ts, a + 1, NameAt, NameSpelled);
    RowsOfInsert(ts, b + 2, q, rows);
  }

  lemma InsertComplete(ts: seq<Token>, p: nat, a: nat, b: nat, q: nat, t: TableRef,
                       names: seq<string>, rows: seq<seq<Literal>>)
    requires InsertSpelled(false, ts, p, a, b, q, t, names, rows) && !Is(ts, q, COMMA)
    ensures InsertAt(ts, p + 1) == Some((Insert(t, names, rows), q)) && RowsAt(ts, b + 2) == Some((rows, q))
  {
    hide TableRefAt, TableSpelled, ListAt, NameAt, NameSpelled, ListSpelled, RowsAt, RowsSpelled;
    TableExact(ts, p + 2, a, t);
    NamesExact(ts, b);
    ListComplete(ts, a + 1, b, names, NameAt, NameSpelled);
    RowsOfInsert(ts, b + 2, q, rows);
  }

  lemma UpdateExact(ts: seq<Token>, p: nat, q: nat, t: TableRef, assignments: seq<(string, Expression)>, c: Condition)
    ensures Is(ts, p, Word("UPDATE")) && UpdateAt(ts, p + 1) == Some((Update(t, assignments, Some(c)), q)) ==>
      exists a: nat, b: nat :: UpdateSpelled(ts, p, a, b, q, t, assignments, c)
    ensures (exists a: nat, b: nat :: UpdateSpelled(ts, p, a, b, q, t, assignments, c)) &&
            !Is(ts, q, AND) && !Is(ts, q, OR) ==>
      Is(ts, p, Word("UPDATE")) && UpdateAt(ts, p + 1) == Some((Update(t, assignments, Some(c)), q))
  {
    hide TableRefAt, TableSpelled, ListAt, AssignmentAt, AssignmentSpelled, ListSpelled, WhereAt, WhereSpelled;
    AssignmentsExact(ts, 0);
    if Is(ts, p, Word("UPDATE")) && UpdateAt(ts, p + 1) == Some((Update(t, assignments, Some(c)), q)) {
      var a := TableRefAt(ts, p + 1).value.1;
      var b := ListAt(ts, a + 1, AssignmentAt).value.1;
      TableExact(ts, p + 1, a, t);
      ListSound(ts, a + 1, AssignmentAt, AssignmentSpelled);
      WhereExact(ts, b, q, c);
      assert UpdateSpelled(ts, p, a, b, q, t, assignments, c);
    }
    if (exists a: nat, b: nat :: UpdateSpelled(ts, p, a, b, q, t, assignments, c))
      && !Is(ts, q, AND) && !Is(ts, q, OR) {
      var a: nat, b: nat :| UpdateSpelled(ts, p, a, b, q, t, assignments, c);
      WhereExact(ts, b, q, c);
      WhereStarts(ts, b, q, c);
      AssignmentsExact(ts, b);
      ListComplete(ts, a + 1, b, assignments, AssignmentAt, AssignmentSpelled);
      TableExact(ts, p + 1, a, t);
    }
  }

  lemma WhereStarts(ts: seq<Token>, p: nat, q: nat, c: Condition)
    requires WhereSpelled(ts, p, q, c)
    ensures Is(ts, p, Word("WHERE"))
  {
  }

  lemma DeleteExact(ts: seq<Token>, p: nat, q: nat, t: TableRef, c: Condition)
    ensures Is(ts, p, Word("DELETE")) && DeleteAt(ts, p + 1) == Some((Delete(t, Some(c)), q)) ==>
      exists a: nat :: DeleteSpelled(ts, p, a, q, t, c)
    ensures (exists a: nat :: DeleteSpelled(ts, p, a, q, t, c)) && !Is(ts, q, AND) && !Is(ts, q, OR) ==>
      Is(ts, p, Word("DELETE")) && DeleteAt(ts, p + 1) == Some((Delete(t, Some(c)), q))
  {
    hide TableRefAt, TableSpelled, WhereAt, WhereSpelled;
    if Is(ts, p, Word("DELETE")) && DeleteAt(ts, p + 1) == Some((Delete(t, Some(c)), q)) {
      var a := TableRefAt(ts, p + 2).value.1;
      TableExact(ts, p + 2, a, t);
      WhereExact(ts, a, q, c);
      assert DeleteSpelled(ts, p, a, q, t, c);
    }
    if (exists a: nat :: DeleteSpelled(ts, p, a, q, t, c)) && !Is(ts, q, AND) && !Is(ts, q, OR) {
      var a: nat :| DeleteSpelled(ts, p, a, q, t, c);
      WhereExact(ts, a, q, c);
      WhereStarts(ts, a, q, c);
      TableExact(ts, p + 2, a, t);
    }
  }

  lemma ProjectionExact(ts: seq<Token>, p: nat, q: nat, all: bool, items: seq<SelectItem>)
    ensures ProjectionAt(ts, p) == Some(((all, items), q)) ==> ItemsSpelled(false, ts, p, q, all, items)
    ensures ItemsSpelled(false, ts, p, q, all, items) && Is(ts, q, Word("FROM")) ==>
      ProjectionAt(ts, p) == Some(((all, items), q))
  {
    hide ListAt, ItemAt, AnyItem;
    ItemsExact(ts, q);
    ListSound(ts, p, ItemAt, AnyItem);
    if !all && ListSpelled(ts, p, q, items, AnyItem) && Is(ts, q, Word("FROM")) {
      ListComplete(ts, p, q, items, ItemAt, AnyItem);
      ItemsStart(ts, p, q, items);
    }
  }

  lemma {:induction false} ItemsStart(ts: seq<Token>, p: nat, q: nat, items: seq<SelectItem>)
    requires ListSpelled(ts, p, q, items, AnyItem)
    ensures !Is(ts, p, STAR)
    decreases |items|
  {
    var n := |items| - 1;
    if n > 0 {
      var m: nat :| ListSpelled(ts, p, m, items[..n], AnyItem) && Is(ts, m, COMMA) && AnyItem(ts, m + 1, q, items[n]);
      ItemsStart(ts, p, m, items[..n]);
    }
  }

  lemma SelectSound(ts: seq<Token>, p: nat, q: nat, s: Statement) returns (a: nat, b: nat)
    requires s.Select? && Is(ts, p, Word("SELECT")) && SelectAt(ts, p + 1) == Some((s, q))
    ensures SelectSpelled(false, ts, p, a, b, q, s)
  {
    hide TableRefAt, TableSpelled, ProjectionAt, ItemsSpelled, WhereAt, WhereSpelled;
    a := ProjectionAt(ts, p + 1).value.1;
    b := TableRefAt(ts, a + 1).value.1;
    ProjectionExact(ts, p + 1, a, s.all, s.items);
    TableExact(ts, a + 1, b, s.table);
    if s.condition.Some? { WhereExact(ts, b, q, s.condition.value); }
  }

  lemma SelectComplete(ts: seq<Token>, p: nat, a: nat, b: nat, q: nat, s: Statement)
    requires s.Select? && SelectSpelled(false, ts, p, a, b, q, s) && EndsAt(ts, q)
    ensures SelectAt(ts, p + 1) == Some((s, q))
  {
    hide TableRefAt, TableSpelled, ProjectionAt, ItemsSpelled, WhereAt, WhereSpelled;
    ProjectionExact(ts, p + 1, a, s.all, s.items);
    if s.condition.Some? {
      WhereExact(ts, b, q, s.condition.value);
      WhereStarts(ts, b, q, s.condition.value);
    }
    TableExact(ts, a + 1, b, s.table);
  }

  /** Whatever is parsed was spelled, with the parser's liberties. */
  lemma StatementSound(ts: seq<Token>, p: nat, q: nat, s: Statement)
    requires StatementAt(ts, p) == Some((s, q))
    ensures StatementSpelled(false, ts, p, q, s)
  {
    if s.CreateDatabase? || s.DropDatabase? || s.UseDatabase? || s.CreateUser? {
      hide RightsAt, CreateTableAt, InsertAt, UpdateAt, DeleteAt, SelectAt, RevertAt, TableRefAt;
    } else {
      hide StatementAt;
      WhichStatement(ts, p);
      LongSound(ts, p, q, s);
    }
  }

  lemma LongSound(ts: seq<Token>, p: nat, q: nat, s: Statement)
    requires StatementAt(ts, p) == Some((s, q))
      && !(s.CreateDatabase? || s.DropDatabase? || s.UseDatabase? || s.CreateUser?)
    ensures StatementSpelled(false, ts, p, q, s)
  {
    hide RightsAt, RightsSpelled, RevertAt, RevertSpelled, CreateTableAt, CreateTableSpelled, TableRefAt, TableSpelled;
    hide InsertAt, InsertSpelled, UpdateAt, UpdateSpelled, DeleteAt, DeleteSpelled, SelectAt,
      SelectSpelled, StatementAt;
    WhichStatement(ts, p);
    if s.Grant? { RightsExact(ts, p, q, "GRANT", s.permissions, s.scope, "TO", s.username); }
    else if s.Revoke? { RightsExact(ts, p, q, "REVOKE", s.permissions, s.scope, "FROM", s.username); }
    else if s.Revert? { RevertExact(ts, p, q, s.table, s.timestamp); }
    else if s.CreateTable? { CreateTableExact(ts, p, q, s.table, s.columns); }
    else if s.DropTable? { TableExact(ts, p + 2, q, s.table); }
    else if s.Insert? { var a, b := InsertSound(ts, p, q, s.table, s.columnNames, s.values); }
    else if s.Update? { UpdateExact(ts, p, q, s.table, s.assignments, s.condition.value); }
    else if s.Delete? { DeleteExact(ts, p, q, s.table, s.condition.value); }
    else { var a, b := SelectSound(ts, p, q, s); }
  }

  lemma EndStops(ts: seq<Token>, q: nat)
    requires EndsAt(ts, q)
    ensures !Is(ts, q, COMMA) && !Is(ts, q, DOT) && !Is(ts, q, AND) && !Is(ts, q, OR) && !Is(ts, q, Word("WHERE"))
  {
  }

  /** Whatever is spelled, with these liberties, is parsed. */
  lemma StatementComplete(ts: seq<Token>, p: nat, q: nat, s: Statement)
    requires StatementSpelled(false, ts, p, q, s) && EndsAt(ts, q)
    ensures StatementAt(ts, p) == Some((s, q))
  {
    EndStops(ts, q);
    if s.CreateDatabase? || s.DropDatabase? || s.UseDatabase? || s.CreateUser? {
      hide RightsAt, CreateTableAt, InsertAt, UpdateAt, DeleteAt, SelectAt, RevertAt, TableRefAt;
    } else {
      LongComplete(ts, p, q, s);
    }
  }

  lemma KeywordThere(ts: seq<Token>, p: nat, q: nat, s: Statement)
    requires StatementSpelled(false, ts, p, q, s)
    ensures s.Grant? ==> Is(ts, p, Word("GRANT"))
    ensures s.Revoke? ==> Is(ts, p, Word("REVOKE"))
    ensures s.Revert? ==> Is(ts, p, Word("REVERT"))
    ensures s.CreateTable? ==> Is(ts, p, Word("CREATE")) && Is(ts, p + 1, Word("TABLE"))
    ensures s.Insert? ==> Is(ts, p, Word("INSERT"))
    ensures s.Update? ==> Is(ts, p, Word("UPDATE"))
    ensures s.Delete? ==> Is(ts, p, Word("DELETE"))
    ensures s.Select? ==> Is(ts, p, Word("SELECT"))
  {
    hide ListSpelled, TableSpelled, ScopeSpelled, ItemsSpelled, RowsSpelled, WhereSpelled, TimestampSpelled;
  }

  lemma ByKeyword(ts: seq<Token>, p: nat)
    ensures Is(ts, p, Word("GRANT")) ==> StatementAt(ts, p) == GrantAt(ts, p + 1)
    ensures Is(ts, p, Word("REVOKE")) ==> StatementAt(ts, p) == RevokeAt(ts, p + 1)
    ensures Is(ts, p, Word("REVERT")) ==> StatementAt(ts, p) == RevertAt(ts, p + 1)
    ensures Is(ts, p, Word("CREATE")) && Is(ts, p + 1, Word("TABLE")) ==> StatementAt(ts, p) == CreateTableAt(ts, p + 2)
    ensures Is(ts, p, Word("DROP")) ==> StatementAt(ts, p) == DropAt(ts, p + 1)
    ensures Is(ts, p, Word("INSERT")) ==> StatementAt(ts, p) == InsertAt(ts, p + 1)
    ensures Is(ts, p, Word("UPDATE")) ==> StatementAt(ts, p) == UpdateAt(ts, p + 1)
    ensures Is(ts, p, Word("DELETE")) ==> StatementAt(ts, p) == DeleteAt(ts, p + 1)
    ensures Is(ts, p, Word("SELECT")) ==> StatementAt(ts, p) == SelectAt(ts, p + 1)
  {
    hide GrantAt, RevokeAt, RevertAt, CreateTableAt, DropAt, InsertAt, UpdateAt, DeleteAt, SelectAt;
  }

  lemma LongComplete(ts: seq<Token>, p: nat, q: nat, s: Statement)
    requires StatementSpelled(false, ts, p, q, s) && EndsAt(ts, q)
    requires !(s.CreateDatabase? || s.DropDatabase? || s.UseDatabase? || s.CreateUser?)
    ensures StatementAt(ts, p) == Some((s, q))
  {
    hide RightsAt, RightsSpelled, RevertAt, RevertSpelled, CreateTableAt, CreateTableSpelled, TableRefAt, TableSpelled;
    hide InsertAt, UpdateAt, UpdateSpelled, DeleteAt, DeleteSpelled, SelectAt, EndsAt, StatementAt;
    EndStops(ts, q);
    ByKeyword(ts, p);
    KeywordThere(ts, p, q, s);
    if s.Grant? { RightsExact(ts, p, q, "GRANT", s.permissions, s.scope, "TO", s.username); }
    else if s.Revoke? { RightsExact(ts, p, q, "REVOKE", s.permissions, s.scope, "FROM", s.username); }
    else if s.Revert? { RevertExact(ts, p, q, s.table, s.timestamp); }
    else if s.CreateTable? { CreateTableExact(ts, p, q, s.table, s.columns); }
    else if s.DropTable? { TableExact(ts, p + 2, q, s.table); }
    else if s.Insert? {
      var a: nat, b: nat :| InsertSpelled(false, ts, p, a, b, q, s.table, s.columnNames, s.values);
      InsertComplete(ts, p, a, b, q, s.table, s.columnNames, s.values);
    }
    else if s.Update? { UpdateExact(ts, p, q, s.table, s.assignments, s.condition.value); }
    else if s.Delete? { DeleteExact(ts, p, q, s.table, s.condition.value); }
    else {
      var a: nat, b: nat :| SelectSpelled(false, ts, p, a, b, q, s);
      SelectComplete(ts, p, a, b, q, s);
    }
  }

  /** The parser accepts exactly the token lists that spell a statement, with its two
      liberties, up to their end or a semicolon there; the statement is the one spelled. */
  lemma ProgramExact(ts: seq<Token>, p: nat, s: Statement)
    ensures ProgramAt(ts, p) == Some(s) <==> exists q: nat :: StatementSpelled(false, ts, p, q, s) && EndsAt(ts, q)
  {
    hide StatementAt, StatementSpelled;
    if ProgramAt(ts, p) == Some(s) {
      var q := StatementAt(ts, p).value.1;
      StatementSound(ts, p, q, s);
      assert EndsAt(ts, q);
    }
    if q: nat :| StatementSpelled(false, ts, p, q, s) && EndsAt(ts, q) { StatementComplete(ts, p, q, s); }
  }
}
