/** Shipping a statement gives it back, with integer literals in their canonical form. */
module AstRoundTrip {
  import opened Bytes
  import opened Ast
  import opened AstCodec

  lemma LiteralRoundTrip(l: Literal)
    ensures LiteralJson(l).Some? <==> LiteralInRange(l)
    ensures LiteralJson(l).Some? ==>
      && LiteralJson(l).value.JObject? && LiteralJson(l).value.fields.Keys == {"node_type", "data_type", "value"}
      && TextAt(LiteralJson(l).value, "node_type", "") == Some("Literal")
      && LiteralOf(LiteralJson(l).value) == Some(Canonical(l))
  {
    if LiteralJson(l).Some? {
      var j := LiteralJson(l).value;
      assert TextAt(j, "data_type", "string") ==
        Some(if l.kind.IntegerType? then "int" else if l.kind.NullType? then "null" else "string");
    }
  }

  lemma ExpressionRoundTrip(e: Expression)
    ensures ExpressionJson(e).Some? <==> ExpressionInRange(e)
    ensures ExpressionJson(e).Some? ==>
      && ExpressionJson(e).value.JObject? && "alias" !in ExpressionJson(e).value.fields
      && !IsWildcard(ExpressionJson(e).value) && TextAt(ExpressionJson(e).value, "node_type", "").Some?
      && ExpressionOf(ExpressionJson(e).value) == Some(CanonicalExpression(e))
  {
    if e.LiteralExpr? {
      LiteralRoundTrip(e.literal);
    } else if e.Aggregate? {
      var j := ExpressionJson(e).value;
      assert TextAt(j, "function", "SUM") == Some(AggregateName(e.function_));
    }
  }

  lemma {:induction false} ConditionRoundTrip(c: Condition)
    ensures ConditionJson(c).Some? <==> ConditionInRange(c)
    ensures ConditionJson(c).Some? ==> ConditionOf(ConditionJson(c).value) == Some(CanonicalCondition(c))
  {
    hide ExpressionOf, ExpressionJson, LiteralOf, LiteralJson, CanonicalExpression, ExpressionInRange;
    match c
    case Comparison(l, op, r) =>
      ExpressionRoundTrip(l);
      ExpressionRoundTrip(r);
      ComparisonRoundTrip(c);
    case Between(v, lo, hi) =>
      ExpressionRoundTrip(v);
      ExpressionRoundTrip(lo);
      ExpressionRoundTrip(hi);
    case Like(v, pattern) =>
      ExpressionRoundTrip(v);
      LikeRoundTrip(c);
    case And(a, b) =>
      ConditionRoundTrip(a);
      ConditionRoundTrip(b);
      ConnectiveBack("AND", ConditionJson(a), ConditionJson(b));
    case Or(a, b) =>
      ConditionRoundTrip(a);
      ConditionRoundTrip(b);
      ConnectiveBack("OR", ConditionJson(a), ConditionJson(b));
  }

  /** The sides of AND and OR are read back as conditions. */
  lemma ConnectiveBack(op: string, l: Option<Json>, r: Option<Json>)
    requires op == "AND" || op == "OR"
    ensures Binary(op, l, r).Some? <==> l.Some? && r.Some?
    ensures Binary(op, l, r).Some? && ConditionOf(l.value).Some? && ConditionOf(r.value).Some? ==>
      var (a, b) := (ConditionOf(l.value).value, ConditionOf(r.value).value);
      ConditionOf(Binary(op, l, r).value) == Some(if op == "AND" then And(a, b) else Or(a, b))
  {
    hide ExpressionOf, LiteralOf, ComparisonOf;
    if l.Some? && r.Some? {
      var j := Binary(op, l, r).value;
      assert TextAt(j, "node_type", "") == Some("BinaryExpression") && TextAt(j, "operator", "") == Some(op);
    }
  }

  lemma LikeRoundTrip(c: Condition)
    requires c.Like?
    ensures ConditionJson(c).Some? <==> ExpressionInRange(c.value)
    ensures ConditionJson(c).Some? ==> ConditionOf(ConditionJson(c).value) == Some(CanonicalCondition(c))
  {
    ExpressionRoundTrip(c.value);
    LiteralRoundTrip(Literal(StringType, c.pattern));
  }

  lemma ComparisonRoundTrip(c: Condition)
    requires c.Comparison?
    ensures ConditionJson(c).Some? ==> ConditionOf(ConditionJson(c).value) == Some(CanonicalCondition(c))
  {
    ExpressionRoundTrip(c.left);
    ExpressionRoundTrip(c.right);
    if ConditionJson(c).Some? {
      var j := ConditionJson(c).value;
      assert TextAt(j, "operator", "") == Some(OperatorName(c.op));
      assert OperatorName(c.op) != "AND" && OperatorName(c.op) != "OR" && OperatorName(c.op) != "LIKE";
      assert OperatorFromName(OperatorName(c.op)) == c.op;
    }
  }

  // Lists.

  lemma {:induction false} MapAllBack<A, B, C>(s: seq<A>, f: A -> Option<B>, g: B -> Option<C>, n: A -> C)
    requires forall i :: 0 <= i < |s| ==> f(s[i]).Some? && g(f(s[i]).value) == Some(n(s[i]))
    ensures MapAll(s, f).Some? && MapAll(MapAll(s, f).value, g) == Some(Image(s, n))
    decreases |s|
  {
    if s != [] {
      var k := |s| - 1;
      MapAllBack(s[..k], f, g, n);
      var js := MapAll(s, f).value;
      assert js[..k] == MapAll(s[..k], f).value;
      assert Image(s, n) == Image(s[..k], n) + [n(s[k])];
    }
  }

  function Image<A, C>(s: seq<A>, n: A -> C): (t: seq<C>)
    ensures |t| == |s| && forall i :: 0 <= i < |s| ==> t[i] == n(s[i])
  {
    seq(|s|, i requires 0 <= i < |s| => n(s[i]))
  }

  lemma StringsRoundTrip(j: Json, key: string, names: seq<string>)
    requires At(j, key) == Some(Strings(names))
    ensures StringsAt(j, key) == Some(names)
  {
    var elements := Strings(names).elements;
    assert MapAll(elements, TextOfJson).Some?;
    assert MapAll(elements, TextOfJson).value == names;
  }

  // Columns, rows, assignments and select items.

  function CanonicalColumn(c: ColumnDef): ColumnDef {
    c.(defaultValue := if c.defaultValue.Some? then Some(Canonical(c.defaultValue.value)) else None)
  }

  predicate ColumnInRange(c: ColumnDef) {
    c.defaultValue.Some? ==> LiteralInRange(c.defaultValue.value)
  }

  lemma ColumnRoundTrip(c: ColumnDef)
    ensures ColumnJson(c).Some? <==> ColumnInRange(c)
    ensures ColumnJson(c).Some? ==> ColumnOf(ColumnJson(c).value) == Some(CanonicalColumn(c))
  {
    hide LiteralJson, LiteralOf, LiteralInRange, Canonical;
    if c.defaultValue.Some? { LiteralRoundTrip(c.defaultValue.value); }
    if ColumnJson(c).Some? {
      var j := ColumnJson(c).value;
      var elements := Modifiers(c);
      assert At(j, "modifiers") == Some(JArray(elements));
      assert forall e :: e in elements ==> e.JString?;
      assert HasText(elements, "NOT_NULL") == c.notNull && HasText(elements, "INDEXED") == c.indexed;
    }
  }

  function CanonicalRow(row: seq<Literal>): seq<Literal> { Image(row, Canonical) }

  predicate RowInRange(row: seq<Literal>) { forall i :: 0 <= i < |row| ==> LiteralInRange(row[i]) }

  lemma RowRoundTrip(row: seq<Literal>)
    ensures RowJson(row).Some? <==> RowInRange(row)
    ensures RowJson(row).Some? ==> RowOf(RowJson(row).value) == Some(CanonicalRow(row))
  {
    forall i | 0 <= i < |row|
      ensures LiteralJson(row[i]).Some? <==> LiteralInRange(row[i])
      ensures LiteralJson(row[i]).Some? ==> LiteralOf(LiteralJson(row[i]).value) == Some(Canonical(row[i]))
    {
      LiteralRoundTrip(row[i]);
    }
    if RowInRange(row) { MapAllBack(row, LiteralJson, LiteralOf, Canonical); }
  }

  function CanonicalAssignment(a: (string, Expression)): (string, Expression) { (a.0, CanonicalExpression(a.1)) }

  lemma AssignmentRoundTrip(a: (string, Expression))
    ensures AssignmentJson(a).Some? <==> ExpressionInRange(a.1)
    ensures AssignmentJson(a).Some? ==> AssignmentOf(AssignmentJson(a).value) == Some(CanonicalAssignment(a))
  {
    ExpressionRoundTrip(a.1);
  }

  function CanonicalItem(item: SelectItem): SelectItem { SelectItem(CanonicalExpression(item.expr), item.alias) }

  lemma ItemRoundTrip(item: SelectItem)
    ensures ItemJson(item).Some? <==> ExpressionInRange(item.expr)
    ensures ItemJson(item).Some? ==>
      && !IsWildcard(ItemJson(item).value) && TextAt(ItemJson(item).value, "node_type", "").Some?
      && ItemOf(ItemJson(item).value) == Some(CanonicalItem(item))
  {
    ExpressionRoundTrip(item.expr);
    if ItemJson(item).Some? && item.alias != "" {
      AliasIgnored(item.expr, item.alias);
    }
  }

  /** An alias beside the parts of an expression does not change what is read. */
  lemma AliasIgnored(e: Expression, alias: string)
    requires ExpressionInRange(e)
    ensures ExpressionJson(e).Some? && ExpressionJson(e).value.JObject?
    ensures var j := JObject(ExpressionJson(e).value.fields["alias" := JString(alias)]);
      ExpressionOf(j) == Some(CanonicalExpression(e)) && !IsWildcard(j) && TextAt(j, "node_type", "").Some?
  {
    ExpressionRoundTrip(e);
    var j := ExpressionJson(e).value;
    var k := JObject(j.fields["alias" := JString(alias)]);
    assert forall key, d :: key != "alias" ==> TextAt(k, key, d) == TextAt(j, key, d);
    assert forall key :: key != "alias" ==> At(k, key) == At(j, key);
    if e.LiteralExpr? { LiteralRoundTrip(e.literal); }
  }

  lemma {:induction false} ItemsRoundTrip(items: seq<SelectItem>, js: seq<Json>)
    requires MapAll(items, ItemJson) == Some(js)
    ensures Items(js) == Some(Image(items, CanonicalItem))
    ensures forall i :: 0 <= i < |js| ==> !IsWildcard(js[i])
    decreases |items|
  {
    hide ItemJson, ItemOf, CanonicalItem, IsWildcard;
    if items != [] {
      var n := |items| - 1;
      ItemsRoundTrip(items[..n], js[..n]);
      ItemRoundTrip(items[n]);
      assert Image(items, CanonicalItem) == Image(items[..n], CanonicalItem) + [CanonicalItem(items[n])];
    }
  }

  // Table references.

  /** A reference as the parser makes it: no dots in its parts. */
  predicate TableOk(t: TableRef) {
    '.' !in t.database && (t.database == "" ==> '.' !in t.table)
  }

  lemma TableRoundTrip(t: TableRef)
    requires TableOk(t)
    ensures TableOfText(TableText(t)) == t
  {
    if t.database != "" {
      var s := t.database + "." + t.table;
      var i := DotAt(s);
      assert s[|t.database|] == '.';
      assert i.Some? && !(i.value > |t.database|);
      assert forall k :: 0 <= k < |t.database| ==> s[k] == t.database[k] && t.database[k] in t.database;
      assert i.value == |t.database|;
    }
  }

  // Statements.

  function ConditionOfStatement(s: Statement): Option<Condition> {
    match s
    case Update(_, _, c) => c
    case Delete(_, c) => c
    case Select(_, _, _, c) => c
    case _ => None
  }

  predicate InRange(s: Statement) {
    && (ConditionOfStatement(s).Some? ==> ConditionInRange(ConditionOfStatement(s).value))
    && match s
       case CreateTable(_, columns) => (forall i :: 0 <= i < |columns| ==> ColumnInRange(columns[i]))
       case Insert(_, _, values) => (forall i :: 0 <= i < |values| ==> RowInRange(values[i]))
       case Update(_, assignments, _) => (forall i :: 0 <= i < |assignments| ==> ExpressionInRange(assignments[i].1))
       case Select(all, items, _, _) => all || (forall i :: 0 <= i < |items| ==> ExpressionInRange(items[i].expr))
       case _ => true
  }

  /** What the parser makes sure of. */
  predicate Parsed(s: Statement) {
    match s
    case Grant(_, scope, _) => TableOk(scope)
    case Revoke(_, scope, _) => TableOk(scope)
    case Revert(t, _) => TableOk(t)
    case CreateTable(t, _) => TableOk(t)
    case DropTable(t) => TableOk(t)
    case Insert(t, _, _) => TableOk(t)
    case Update(t, _, _) => TableOk(t)
    case Delete(t, _) => TableOk(t)
    case Select(all, items, t, _) => TableOk(t) && (all ==> items == [])
    case _ => true
  }

  function CanonicalOption(c: Option<Condition>): Option<Condition> {
    if c.None? then None else Some(CanonicalCondition(c.value))
  }

  /** What arrives: integers without leading zeros, and a user without the password. */
  function CanonicalStatement(s: Statement): Statement {
    match s
    case CreateUser(user, _) => CreateUser(user, "")
    case CreateTable(t, columns) => CreateTable(t, Image(columns, CanonicalColumn))
    case Insert(t, names, values) => Insert(t, names, Image(values, CanonicalRow))
    case Update(t, assignments, c) => Update(t, Image(assignments, CanonicalAssignment), CanonicalOption(c))
    case Delete(t, c) => Delete(t, CanonicalOption(c))
    case Select(all, items, t, c) => Select(all, Image(items, CanonicalItem), t, CanonicalOption(c))
    case _ => s
  }

  lemma WithConditionRoundTrip(fields: map<string, Json>, c: Option<Condition>)
    requires "where_clause" !in fields
    ensures WithCondition(fields, c).Some? <==> (c.Some? ==> ConditionInRange(c.value))
    ensures WithCondition(fields, c).Some? ==>
      var j := WithCondition(fields, c).value;
      && j.JObject? && (forall key :: key in fields ==> key in j.fields && j.fields[key] == fields[key])
      && ConditionIn(j) == Some(CanonicalOption(c))
  {
    if c.Some? { ConditionRoundTrip(c.value); }
  }

  lemma PermissionRoundTrip(s: Statement)
    requires (s.Grant? || s.Revoke?) && TableOk(s.scope)
    ensures StatementJson(s).Some? && StatementOf(StatementJson(s).value) == Some(s)
  {
    hide StringsAt, TableText, TableOfText;
    var j := StatementJson(s).value;
    StringsRoundTrip(j, "permissions", s.permissions);
    TableRoundTrip(s.scope);
    assert TextAt(j, "node_type", "") == Some(if s.Grant? then "GrantStatement" else "RevokeStatement");
    assert TextAt(j, "scope", "*.*") == Some(TableText(s.scope)) && TextAt(j, "username", "") == Some(s.username);
  }

  lemma NameRoundTrip(s: Statement)
    requires s.CreateDatabase? || s.DropDatabase? || s.UseDatabase? || s.CreateUser?
    ensures StatementJson(s).Some? && StatementOf(StatementJson(s).value) == Some(if s.CreateUser?
      then s.(password := "") else s)
  {
    var j := StatementJson(s).value;
    assert s.CreateUser? ==> TextAt(j, "username", "") == Some(s.username);
    assert !s.CreateUser? ==> TextAt(j, "database", "") == Some(s.name);
  }

  // Reading: which branch a kind leads to.

  predicate IsTableKind(kind: string) {
    || kind == "CreateTableStatement" || kind == "InsertStatement" || kind == "UpdateStatement"
    || kind == "DeleteStatement" || kind == "SelectStatement" || kind == "RevertStatement"
    || kind == "DropTableStatement"
  }

  lemma TableKind(j: Json, kind: string)
    requires TextAt(j, "node_type", "") == Some(kind) && IsTableKind(kind)
    ensures StatementOf(j) == TableStatementOf(j, kind)
  {
    hide TableStatementOf, TextAt, StringsAt, TableOfText;
  }

  lemma ReadCreateTable(j: Json, table: string, columns: seq<ColumnDef>)
    requires TextAt(j, "node_type", "") == Some("CreateTableStatement") && TextAt(j, "table", "") == Some(table)
    requires MapAll(ElementsAt(j, "columns"), ColumnOf) == Some(columns)
    ensures StatementOf(j) == Some(CreateTable(TableOfText(table), columns))
  {
    hide StatementOf, MapAll, ColumnOf, ElementsAt, TextAt, TableOfText;
    TableKind(j, "CreateTableStatement");
  }

  lemma ReadInsert(j: Json, table: string, names: seq<string>, values: seq<seq<Literal>>)
    requires TextAt(j, "node_type", "") == Some("InsertStatement") && TextAt(j, "table", "") == Some(table)
    requires MapAll(ElementsAt(j, "values"), AstCodec.RowOf) == Some(values) && StringsAt(j, "columns") == Some(names)
    ensures StatementOf(j) == Some(Insert(TableOfText(table), names, values))
  {
    hide StatementOf, MapAll, AstCodec.RowOf, ElementsAt, TextAt, TableOfText, StringsAt;
    TableKind(j, "InsertStatement");
  }

  lemma ReadUpdate(j: Json, table: string, assignments: seq<(string, Expression)>, c: Option<Condition>)
    requires TextAt(j, "node_type", "") == Some("UpdateStatement") && TextAt(j, "table", "") == Some(table)
    requires MapAll(ElementsAt(j, "assignments"), AssignmentOf) == Some(assignments) && ConditionIn(j) == Some(c)
    ensures StatementOf(j) == Some(Update(TableOfText(table), assignments, c))
  {
    hide StatementOf, MapAll, AssignmentOf, ElementsAt, TextAt, TableOfText, ConditionIn;
    TableKind(j, "UpdateStatement");
  }

  lemma ReadDelete(j: Json, table: string, c: Option<Condition>)
    requires TextAt(j, "node_type", "") == Some("DeleteStatement") && TextAt(j, "table", "") == Some(table)
    requires ConditionIn(j) == Some(c)
    ensures StatementOf(j) == Some(Delete(TableOfText(table), c))
  {
    hide StatementOf, TextAt, TableOfText, ConditionIn;
    TableKind(j, "DeleteStatement");
  }

  lemma ReadSelect(j: Json, table: string, items: seq<SelectItem>, c: Option<Condition>)
    requires TextAt(j, "node_type", "") == Some("SelectStatement") && TextAt(j, "table", "") == Some(table)
    requires Items(ElementsAt(j, "projections")) == Some(items) && ConditionIn(j) == Some(c)
    ensures var js := ElementsAt(j, "projections");
      StatementOf(j) == Some(Select(exists i :: 0 <= i < |js| && IsWildcard(js[i]), items, TableOfText(table), c))
  {
    hide StatementOf, Items, ElementsAt, TextAt, TableOfText, ConditionIn, IsWildcard;
    TableKind(j, "SelectStatement");
  }

  /** The fields of a statement about a table are read back, whatever else the object holds. */
  lemma FieldsRead(j: Json, kind: string, t: TableRef)
    requires j.JObject? && forall key :: key in TableFields(kind, t) ==>
      key in j.fields && j.fields[key] == TableFields(kind, t)[key]
    ensures TextAt(j, "node_type", "") == Some(kind) && TextAt(j, "table", "") == Some(TableText(t))
  {
    hide TableText;
    assert "node_type" in TableFields(kind, t) && "table" in TableFields(kind, t);
  }

  /** A list is read back in front of the condition. */
  lemma ListRead(kind: string, t: TableRef, key: string, items: seq<Json>, c: Option<Condition>)
    requires key != "node_type" && key != "table" && key != "where_clause"
    ensures var r := WithCondition(TableFields(kind, t)[key := JArray(items)], c);
      && (r.Some? <==> (c.Some? ==> ConditionInRange(c.value)))
      && (r.Some? ==>
        && TextAt(r.value, "node_type", "") == Some(kind) && TextAt(r.value, "table", "") == Some(TableText(t))
        && ElementsAt(r.value, key) == items && ConditionIn(r.value) == Some(CanonicalOption(c)))
  {
    hide WithCondition, ConditionIn, TableText, TextAt, TableOfText;
    var fields := TableFields(kind, t)[key := JArray(items)];
    WithConditionRoundTrip(fields, c);
    var r := WithCondition(fields, c);
    if r.Some? {
      forall k | k in TableFields(kind, t) ensures k in r.value.fields && r.value.fields[k] == TableFields(kind, t)[k] {
        assert k in fields && fields[k] == TableFields(kind, t)[k];
      }
      FieldsRead(r.value, kind, t);
      assert key in fields;
    }
  }

  lemma TableOnlyRoundTrip(s: Statement)
    requires (s.Revert? || s.DropTable?) && TableOk(s.table)
    ensures StatementJson(s).Some? && StatementOf(StatementJson(s).value) == Some(s)
  {
    hide TableText, TableOfText, StatementOf;
    var j := StatementJson(s).value;
    var kind := if s.Revert? then "RevertStatement" else "DropTableStatement";
    TableRoundTrip(s.table);
    assert TextAt(j, "node_type", "") == Some(kind);
    assert TextAt(j, "table", "") == Some(TableText(s.table));
    TableKind(j, kind);
    hide TextAt, ConditionIn, Items, MapAll;
  }

  lemma MapAllSome<A, B>(s: seq<A>, f: A -> Option<B>)
    ensures MapAll(s, f).Some? <==> forall i :: 0 <= i < |s| ==> f(s[i]).Some?
  {
  }

  lemma ColumnsRoundTrip(columns: seq<ColumnDef>)
    ensures MapAll(columns, ColumnJson).Some? <==> forall i :: 0 <= i < |columns| ==> ColumnInRange(columns[i])
    ensures MapAll(columns, ColumnJson).Some? ==>
      MapAll(MapAll(columns, ColumnJson).value, ColumnOf) == Some(Image(columns, CanonicalColumn))
  {
    hide MapAll, ColumnOf, ColumnJson, ColumnInRange, CanonicalColumn, Image;
    forall i | 0 <= i < |columns|
      ensures ColumnJson(columns[i]).Some? <==> ColumnInRange(columns[i])
      ensures ColumnJson(columns[i]).Some? ==>
        ColumnOf(ColumnJson(columns[i]).value) == Some(CanonicalColumn(columns[i]))
    {
      ColumnRoundTrip(columns[i]);
    }
    MapAllSome(columns, ColumnJson);
    if MapAll(columns, ColumnJson).Some? { MapAllBack(columns, ColumnJson, ColumnOf, CanonicalColumn); }
  }

  lemma RowsRoundTrip(rows: seq<seq<Literal>>)
    ensures MapAll(rows, RowJson).Some? <==> forall i :: 0 <= i < |rows| ==> RowInRange(rows[i])
    ensures MapAll(rows, RowJson).Some? ==>
      MapAll(MapAll(rows, RowJson).value, AstCodec.RowOf) == Some(Image(rows, CanonicalRow))
  {
    hide MapAll, AstCodec.RowOf, RowJson, RowInRange, CanonicalRow, Image;
    forall i | 0 <= i < |rows|
      ensures RowJson(rows[i]).Some? <==> RowInRange(rows[i])
      ensures RowJson(rows[i]).Some? ==> AstCodec.RowOf(RowJson(rows[i]).value) == Some(CanonicalRow(rows[i]))
    {
      RowRoundTrip(rows[i]);
    }
    MapAllSome(rows, RowJson);
    if MapAll(rows, RowJson).Some? { MapAllBack(rows, RowJson, AstCodec.RowOf, CanonicalRow); }
  }

  lemma AssignmentsRoundTrip(assignments: seq<(string, Expression)>)
    ensures MapAll(assignments, AssignmentJson).Some? <==>
      forall i :: 0 <= i < |assignments| ==> ExpressionInRange(assignments[i].1)
    ensures MapAll(assignments, AssignmentJson).Some? ==>
      MapAll(MapAll(assignments, AssignmentJson).value, AssignmentOf) == Some(Image(assignments, CanonicalAssignment))
  {
    hide MapAll, AssignmentOf, AssignmentJson, ExpressionInRange, CanonicalAssignment, Image;
    forall i | 0 <= i < |assignments|
      ensures AssignmentJson(assignments[i]).Some? <==> ExpressionInRange(assignments[i].1)
      ensures AssignmentJson(assignments[i]).Some? ==>
        AssignmentOf(AssignmentJson(assignments[i]).value) == Some(CanonicalAssignment(assignments[i]))
    {
      AssignmentRoundTrip(assignments[i]);
    }
    MapAllSome(assignments, AssignmentJson);
    if MapAll(assignments, AssignmentJson).Some? {
      MapAllBack(assignments, AssignmentJson, AssignmentOf, CanonicalAssignment);
    }
  }

  lemma CreateTableRoundTrip(s: Statement)
    requires s.CreateTable? && Parsed(s)
    ensures StatementJson(s).Some? <==> InRange(s)
    ensures StatementJson(s).Some? ==> StatementOf(StatementJson(s).value) == Some(CanonicalStatement(s))
  {
    hide MapAll, ColumnInRange, TableOfText, TableText, StatementOf, Image, TextAt;
    ColumnsRoundTrip(s.columns);
    if StatementJson(s).Some? {
      var j := StatementJson(s).value;
      FieldsRead(j, "CreateTableStatement", s.table);
      TableRoundTrip(s.table);
      ReadCreateTable(j, TableText(s.table), Image(s.columns, CanonicalColumn));
    }
  }

  lemma InsertRoundTrip(s: Statement)
    requires s.Insert? && Parsed(s)
    ensures StatementJson(s).Some? <==> InRange(s)
    ensures StatementJson(s).Some? ==> StatementOf(StatementJson(s).value) == Some(CanonicalStatement(s))
  {
    hide MapAll, RowInRange, TableOfText, TableText, StatementOf, Image, TextAt, StringsAt, Strings;
    RowsRoundTrip(s.values);
    if StatementJson(s).Some? {
      var j := StatementJson(s).value;
      FieldsRead(j, "InsertStatement", s.table);
      StringsRoundTrip(j, "columns", s.columnNames);
      TableRoundTrip(s.table);
      ReadInsert(j, TableText(s.table), s.columnNames, Image(s.values, CanonicalRow));
    }
  }

  lemma UpdateRoundTrip(s: Statement)
    requires s.Update? && Parsed(s)
    ensures StatementJson(s).Some? <==> InRange(s)
    ensures StatementJson(s).Some? ==> StatementOf(StatementJson(s).value) == Some(CanonicalStatement(s))
  {
    hide MapAll, ExpressionInRange, ConditionInRange, TableOfText, TableText, StatementOf, Image, TextAt,
      WithCondition, ConditionIn;
    hide ElementsAt, CanonicalOption;
    AssignmentsRoundTrip(s.assignments);
    var items := MapAll(s.assignments, AssignmentJson);
    if items.Some? { ListRead("UpdateStatement", s.table, "assignments", items.value, s.condition); }
    if StatementJson(s).Some? {
      TableRoundTrip(s.table);
      ReadUpdate(StatementJson(s).value, TableText(s.table), Image(s.assignments, CanonicalAssignment),
                 CanonicalOption(s.condition));
    }
  }

  lemma DeleteRoundTrip(s: Statement)
    requires s.Delete? && Parsed(s)
    ensures StatementJson(s).Some? <==> InRange(s)
    ensures StatementJson(s).Some? ==> StatementOf(StatementJson(s).value) == Some(CanonicalStatement(s))
  {
    hide ConditionInRange, TableOfText, TableText, StatementOf, TextAt, WithCondition, ConditionIn, CanonicalOption;
    WithConditionRoundTrip(TableFields("DeleteStatement", s.table), s.condition);
    if StatementJson(s).Some? {
      FieldsRead(StatementJson(s).value, "DeleteStatement", s.table);
      TableRoundTrip(s.table);
      ReadDelete(StatementJson(s).value, TableText(s.table), CanonicalOption(s.condition));
    }
  }

  lemma ItemsInRange(items: seq<SelectItem>)
    ensures MapAll(items, ItemJson).Some? <==> forall i :: 0 <= i < |items| ==> ExpressionInRange(items[i].expr)
  {
    hide MapAll, ItemJson, ExpressionInRange;
    forall i | 0 <= i < |items| ensures ItemJson(items[i]).Some? <==> ExpressionInRange(items[i].expr) {
      ItemRoundTrip(items[i]);
    }
    MapAllSome(items, ItemJson);
  }

  lemma SelectRoundTrip(s: Statement)
    requires s.Select? && Parsed(s)
    ensures StatementJson(s).Some? <==> InRange(s)
    ensures StatementJson(s).Some? ==> StatementOf(StatementJson(s).value) == Some(CanonicalStatement(s))
  {
    hide MapAll, ExpressionInRange, ConditionInRange, TableOfText, TableText, StatementOf, Image, TextAt,
      WithCondition, ConditionIn;
    hide ElementsAt, CanonicalOption, Items, IsWildcard;
    ItemsInRange(s.items);
    var projections := if s.all then Some([WILDCARD]) else MapAll(s.items, ItemJson);
    if projections.Some? {
      ListRead("SelectStatement", s.table, "projections", projections.value, s.condition);
      ProjectionsBack(s, projections.value);
    }
    if StatementJson(s).Some? {
      TableRoundTrip(s.table);
      ReadSelect(StatementJson(s).value, TableText(s.table), Image(s.items, CanonicalItem),
                 CanonicalOption(s.condition));
    }
  }

  lemma ProjectionsBack(s: Statement, js: seq<Json>)
    requires s.Select? && Parsed(s) && (if s.all then js == [WILDCARD] else MapAll(s.items, ItemJson) == Some(js))
    ensures Items(js) == Some(Image(s.items, CanonicalItem))
    ensures s.all <==> exists i :: 0 <= i < |js| && IsWildcard(js[i])
  {
    if s.all {
      assert IsWildcard(js[0]) && js[..0] == [];
      assert Items(js[..0]) == Some([]);
    } else {
      ItemsRoundTrip(s.items, js);
    }
  }

  /** A statement can be shipped exactly when its integers are in range, and what arrives is
      the statement up to leading zeros; only a user's password is lost. */
  lemma StatementRoundTrip(s: Statement)
    requires Parsed(s)
    ensures StatementJson(s).Some? <==> InRange(s)
    ensures InRange(s) ==> StatementOf(StatementJson(s).value) == Some(CanonicalStatement(s))
  {
    match s
    case CreateTable(_, _) => CreateTableRoundTrip(s);
    case Insert(_, _, _) => InsertRoundTrip(s);
    case Update(_, _, _) => UpdateRoundTrip(s);
    case Delete(_, _) => DeleteRoundTrip(s);
    case Select(_, _, _, _) => SelectRoundTrip(s);
    case Grant(_, _, _) => PermissionRoundTrip(s);
    case Revoke(_, _, _) => PermissionRoundTrip(s);
    case Revert(_, _) => TableOnlyRoundTrip(s);
    case DropTable(_) => TableOnlyRoundTrip(s);
    case _ => NameRoundTrip(s);
  }
}
