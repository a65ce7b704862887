/** Statements as JSON, on the way from the server to a storage node. */
module AstCodec {
  import opened Bytes
  import opened Ast

  datatype Json =
    | JNull
    | JInt(number: int)
    | JString(text: string)
    | JArray(elements: seq<Json>)
    | JObject(fields: map<string, Json>)

  /** `json.at(key)`: nothing where that throws. */
  function At(j: Json, key: string): Option<Json> {
    if j.JObject? && key in j.fields then Some(j.fields[key]) else None
  }

  /** `json.value(key, otherwise)` for strings: nothing where that throws. */
  function TextAt(j: Json, key: string, otherwise: string): Option<string> {
    if !j.JObject? then None
    else if key !in j.fields then Some(otherwise)
    else if j.fields[key].JString? then Some(j.fields[key].text) else None
  }

  // Lists, element by element.

  function MapAll<A, B>(s: seq<A>, f: A -> Option<B>): (r: Option<seq<B>>)
    ensures r.Some? ==> |r.value| == |s| && forall i :: 0 <= i < |s| ==> f(s[i]) == Some(r.value[i])
    ensures r.None? <==> exists i :: 0 <= i < |s| && f(s[i]).None?
  {
    if s == [] then Some([]) else
      var n := |s| - 1;
      var (init, last) := (MapAll(s[..n], f), f(s[n]));
      if init.Some? && last.Some? then Some(init.value + [last.value])
      else
        assert init.None? ==> exists i :: 0 <= i < n && f(s[..n][i]).None?;
        None
  }

  function TextOfJson(j: Json): Option<string> {
    if j.JString? then Some(j.text) else None
  }

  // Literals, expressions and conditions.

  function LiteralJson(l: Literal): Option<Json> {
    match l.kind
    case IntegerType =>
      var n := Stoi(l.value);
      if n.None? then None else Some(JObject(map["node_type" := JString("Literal"), "data_type" := JString("int"),
                                                 "value" := JInt(n.value)]))
    case NullType => Some(JObject(map["node_type" := JString("Literal"),
                                      "data_type" := JString("null"), "value" := JNull]))
    case StringType => Some(JObject(map["node_type" := JString("Literal"), "data_type" := JString("string"),
                                        "value" := JString(l.value)]))
  }

  function IntText(n: int): string {
    if n < 0 then ['-'] + ToDigits(-n) else ToDigits(n)
  }

  function LiteralOf(j: Json): Option<Literal> {
    match j
    case JNull => Some(Literal(NullType, "NULL"))
    case JInt(n) => Some(Literal(IntegerType, IntText(n)))
    case JString(s) => Some(Literal(StringType, s))
    case JArray(_) => None
    case JObject(_) =>
      var kind := TextAt(j, "data_type", "string");
      if kind.None? then None
      else if kind.value == "int" then
        var v := At(j, "value");
        if v.Some? && v.value.JInt? then Some(Literal(IntegerType, IntText(v.value.number)))
        else
          var text := TextAt(j, "value", "0");
          if text.Some? then Some(Literal(IntegerType, text.value)) else None
      else if kind.value == "string" then
        var text := TextAt(j, "value", "");
        if text.Some? then Some(Literal(StringType, text.value)) else None
      else Some(Literal(NullType, "NULL"))
  }

  function ExpressionJson(e: Expression): Option<Json> {
    match e
    case Identifier(name) => Some(JObject(map["node_type" := JString("Identifier"), "value" := JString(name)]))
    case LiteralExpr(l) => LiteralJson(l)
    case Aggregate(f, column) =>
      Some(JObject(map["node_type" := JString("AggregateFunction"), "function" := JString(AggregateName(f)),
                    "argument" := JObject(map["node_type" := JString("Identifier"), "value" := JString(column)])]))
  }

  function ExpressionOf(j: Json): Option<Expression> {
    var kind := TextAt(j, "node_type", "");
    if kind.None? then None
    else if kind.value == "Identifier" then
      var name := TextAt(j, "value", "");
      if name.Some? then Some(Identifier(name.value)) else None
    else if kind.value == "AggregateFunction" then
      var name := TextAt(j, "function", "SUM");
      var arg := At(j, "argument");
      var column := TextAt(if arg.Some? then arg.value else JObject(map[]), "value", "");
      if name.Some? && column.Some? then Some(Aggregate(AggregateFromName(name.value), column.value)) else None
    else
      var l := LiteralOf(j);
      if l.Some? then Some(LiteralExpr(l.value)) else None
  }

  function OperatorName(op: Operator): string {
    match op
    case Equal => "="
    case NotEqual => "!="
    case Less => "<"
    case Greater => ">"
    case LessEqual => "<="
    case GreaterEqual => ">="
  }

  function OperatorFromName(name: string): Operator {
    if name == "=" || name == "==" then Equal
    else if name == "!=" then NotEqual
    else if name == "<" then Less
    else if name == ">" then Greater
    else if name == "<=" then LessEqual
    else GreaterEqual
  }

  function Binary(op: string, l: Option<Json>, r: Option<Json>): Option<Json> {
    if l.None? || r.None? then None
    else Some(JObject(map["node_type" := JString("BinaryExpression"), "operator" := JString(op),
                          "left" := l.value, "right" := r.value]))
  }

  function ConditionJson(c: Condition): Option<Json> {
    match c
    case Comparison(l, op, r) => Binary(OperatorName(op), ExpressionJson(l), ExpressionJson(r))
    case Like(v, pattern) => Binary("LIKE", ExpressionJson(v), LiteralJson(Literal(StringType, pattern)))
    case Between(v, lo, hi) =>
      var (x, a, b) := (ExpressionJson(v), ExpressionJson(lo), ExpressionJson(hi));
      if x.None? || a.None? || b.None? then None
      else Some(JObject(map["node_type" := JString("BetweenExpression"), "value" := x.value,
                            "lower" := a.value, "upper" := b.value]))
    case And(a, b) => Binary("AND", ConditionJson(a), ConditionJson(b))
    case Or(a, b) => Binary("OR", ConditionJson(a), ConditionJson(b))
  }

  function ComparisonOf(j: Json, op: Operator): Option<Condition> {
    var (l, r) := (At(j, "left"), At(j, "right"));
    if l.None? || r.None? then None
    else
      var (a, b) := (ExpressionOf(l.value), ExpressionOf(r.value));
      if a.None? || b.None? then None else Some(Comparison(a.value, op, b.value))
  }

  function ConditionOf(j: Json): Option<Condition>
    decreases j
  {
    var kind := TextAt(j, "node_type", "");
    if kind.None? then None
    else if kind.value == "BetweenExpression" then
      var (v, lo, hi) := (At(j, "value"), At(j, "lower"), At(j, "upper"));
      if v.None? || lo.None? || hi.None? then None
      else
        var (x, a, b) := (ExpressionOf(v.value), ExpressionOf(lo.value), ExpressionOf(hi.value));
        if x.None? || a.None? || b.None? then None else Some(Between(x.value, a.value, b.value))
    else if kind.value == "BinaryExpression" then
      var (op, l, r) := (TextAt(j, "operator", ""), At(j, "left"), At(j, "right"));
      if op.None? || l.None? || r.None? then None
      else if op.value == "AND" || op.value == "OR" then
        var (a, b) := (ConditionOf(l.value), ConditionOf(r.value));
        if a.None? || b.None? then None
        else if op.value == "AND" then Some(And(a.value, b.value)) else Some(Or(a.value, b.value))
      else if op.value == "LIKE" then
        var (pattern, v) := (LiteralOf(r.value), ExpressionOf(l.value));
        if pattern.None? || v.None? then None else Some(Like(v.value, pattern.value.value))
      else ComparisonOf(j, OperatorFromName(op.value))
    else ComparisonOf(j, Equal)
  }

  // What shipping does to integer literals: leading zeros go.

  function Canonical(l: Literal): Literal {
    if l.kind.IntegerType? && Stoi(l.value).Some? then Literal(IntegerType, ToDigits(Stoi(l.value).value))
    else if l.kind.NullType? then Literal(NullType, "NULL")
    else l
  }

  function CanonicalExpression(e: Expression): Expression {
    if e.LiteralExpr? then LiteralExpr(Canonical(e.literal)) else e
  }

  function CanonicalCondition(c: Condition): Condition {
    match c
    case Comparison(l, op, r) => Comparison(CanonicalExpression(l), op, CanonicalExpression(r))
    case Between(v, lo, hi) => Between(CanonicalExpression(v), CanonicalExpression(lo), CanonicalExpression(hi))
    case Like(v, pattern) => Like(CanonicalExpression(v), pattern)
    case And(a, b) => And(CanonicalCondition(a), CanonicalCondition(b))
    case Or(a, b) => Or(CanonicalCondition(a), CanonicalCondition(b))
  }

  predicate LiteralInRange(l: Literal) {
    l.kind.IntegerType? ==> Stoi(l.value).Some?
  }

  predicate ExpressionInRange(e: Expression) {
    e.LiteralExpr? ==> LiteralInRange(e.literal)
  }

  predicate ConditionInRange(c: Condition) {
    match c
    case Comparison(l, _, r) => ExpressionInRange(l) && ExpressionInRange(r)
    case Between(v, lo, hi) => ExpressionInRange(v) && ExpressionInRange(lo) && ExpressionInRange(hi)
    case Like(v, _) => ExpressionInRange(v)
    case And(a, b) => ConditionInRange(a) && ConditionInRange(b)
    case Or(a, b) => ConditionInRange(a) && ConditionInRange(b)
  }

  // Columns, select items and statements.

  function Strings(names: seq<string>): Json {
    JArray(seq(|names|, i requires 0 <= i < |names| => JString(names[i])))
  }

  function Modifiers(c: ColumnDef): seq<Json> {
    (if c.indexed then [JString("INDEXED")] else []) + (if c.notNull then [JString("NOT_NULL")] else [])
  }

  function ColumnJson(c: ColumnDef): Option<Json> {
    var base := map["name" := JString(c.name), "data_type" := JString(if c.isInt then "int" else "string"),
                    "modifiers" := JArray(Modifiers(c))];
    if c.defaultValue.None? then Some(JObject(base))
    else
      var d := LiteralJson(c.defaultValue.value);
      if d.None? then None else Some(JObject(base["default_value" := d.value]))
  }

  function HasText(elements: seq<Json>, text: string): bool {
    JString(text) in elements
  }

  function ColumnOf(j: Json): Option<ColumnDef> {
    var (name, kind) := (TextAt(j, "name", ""), TextAt(j, "data_type", "string"));
    if name.None? || kind.None? then None
    else
      var mods := At(j, "modifiers");
      var elements := if mods.Some? && mods.value.JArray? then mods.value.elements else [];
      if exists e :: e in elements && !e.JString? then None
      else
        var d := At(j, "default_value");
        var l := if d.Some? then LiteralOf(d.value) else None;
        if d.Some? && l.None? then None
        else Some(ColumnDef(name.value, kind.value == "int", HasText(elements, "NOT_NULL"),
                            HasText(elements, "INDEXED"), l))
  }

  function ItemJson(item: SelectItem): Option<Json> {
    var e := ExpressionJson(item.expr);
    if e.None? then None
    else if item.alias == "" || !e.value.JObject? then e
    else Some(JObject(e.value.fields["alias" := JString(item.alias)]))
  }

  function ItemOf(j: Json): Option<SelectItem> {
    var (e, alias) := (ExpressionOf(j), TextAt(j, "alias", ""));
    if e.None? || alias.None? then None else Some(SelectItem(e.value, alias.value))
  }

  function RowJson(row: seq<Literal>): Option<Json> {
    var ls := MapAll(row, LiteralJson);
    if ls.None? then None else Some(JArray(ls.value))
  }

  /** Iterating over an object goes over its values; the order is not needed here, so only
      arrays have rows. */
  function RowOf(j: Json): Option<seq<Literal>> {
    if j.JArray? then MapAll(j.elements, LiteralOf) else None
  }

  function AssignmentJson(a: (string, Expression)): Option<Json> {
    var e := ExpressionJson(a.1);
    if e.None? then None else Some(JObject(map["column" := JString(a.0), "value" := e.value]))
  }

  function AssignmentOf(j: Json): Option<(string, Expression)> {
    var (column, v) := (TextAt(j, "column", ""), At(j, "value"));
    if column.None? || v.None? then None
    else
      var e := ExpressionOf(v.value);
      if e.None? then None else Some((column.value, e.value))
  }

  function TableText(t: TableRef): string {
    if t.database == "" then t.table else t.database + "." + t.table
  }

  /** The place of the first dot. */
  function DotAt(s: string): (i: Option<nat>)
    ensures i.Some? ==> i.value < |s| && s[i.value] == '.'
    ensures i.Some? ==> forall k :: 0 <= k < i.value ==> s[k] != '.'
    ensures i.None? ==> '.' !in s
  {
    if s == [] then None
    else if s[0] == '.' then Some(0)
    else
      var rest := DotAt(s[1..]);
      assert forall k :: 0 < k < |s| ==> s[k] == s[1..][k - 1];
      if rest.Some? then Some(rest.value + 1) else None
  }

  function TableOfText(s: string): TableRef {
    var i := DotAt(s);
    if i.None? then TableRef("", s) else TableRef(s[..i.value], s[i.value + 1..])
  }

  function WithCondition(fields: map<string, Json>, c: Option<Condition>): Option<Json> {
    if c.None? then Some(JObject(fields))
    else
      var j := ConditionJson(c.value);
      if j.None? then None else Some(JObject(fields["where_clause" := j.value]))
  }

  /** No clause, or the condition it holds; nothing when it holds none. */
  function ConditionIn(j: Json): Option<Option<Condition>> {
    var w := At(j, "where_clause");
    if w.None? then Some(None)
    else
      var c := ConditionOf(w.value);
      if c.None? then None else Some(c)
  }

  const WILDCARD := JObject(map["node_type" := JString("Wildcard")])

  predicate IsWildcard(j: Json) { TextAt(j, "node_type", "") == Some("Wildcard") }

  function TableFields(kind: string, t: TableRef): map<string, Json> {
    map["node_type" := JString(kind), "table" := JString(TableText(t))]
  }

  function PermissionFields(kind: string, ps: seq<string>, scope: TableRef, user: string): map<string, Json> {
    map["node_type" := JString(kind), "permissions" := Strings(ps), "scope" := JString(TableText(scope)),
        "username" := JString(user)]
  }

  function StatementJson(s: Statement): Option<Json> {
    match s
    case CreateDatabase(name) =>
      Some(JObject(map["node_type" := JString("CreateDatabaseStatement"), "database" := JString(name)]))
    case DropDatabase(name) =>
      Some(JObject(map["node_type" := JString("DropDatabaseStatement"), "database" := JString(name)]))
    case UseDatabase(name) =>
      Some(JObject(map["node_type" := JString("UseDatabaseStatement"), "database" := JString(name)]))
    case CreateUser(user, _) =>
      Some(JObject(map["node_type" := JString("CreateUserStatement"), "username" := JString(user)]))
    case Grant(ps, scope, user) => Some(JObject(PermissionFields("GrantStatement", ps, scope, user)))
    case Revoke(ps, scope, user) => Some(JObject(PermissionFields("RevokeStatement", ps, scope, user)))
    case Revert(t, time) =>
      Some(JObject(map["node_type" := JString("RevertStatement"), "table" := JString(TableText(t)),
                       "target_timestamp" := JString(time)]))
    case CreateTable(t, columns) =>
      var cs := MapAll(columns, ColumnJson);
      if cs.None? then None else Some(JObject(TableFields("CreateTableStatement", t)["columns" := JArray(cs.value)]))
    case DropTable(t) => Some(JObject(TableFields("DropTableStatement", t)))
    case Insert(t, names, values) =>
      var rows := MapAll(values, RowJson);
      if rows.None? then None
      else Some(JObject(TableFields("InsertStatement", t)["columns" := Strings(names)]["values" := JArray(rows.value)]))
    case Update(t, assignments, c) =>
      var items := MapAll(assignments, AssignmentJson);
      if items.None? then None
      else WithCondition(TableFields("UpdateStatement", t)["assignments" := JArray(items.value)], c)
    case Delete(t, c) => WithCondition(TableFields("DeleteStatement", t), c)
    case Select(all, items, t, c) =>
      var projections := if all then Some([WILDCARD]) else MapAll(items, ItemJson);
      if projections.None? then None
      else WithCondition(TableFields("SelectStatement", t)["projections" := JArray(projections.value)], c)
  }

  function StringsAt(j: Json, key: string): Option<seq<string>> {
    var a := At(j, key);
    if !j.JObject? then None
    else if a.None? then Some([])
    else if a.value.JArray? then MapAll(a.value.elements, TextOfJson) else None
  }

  function ElementsAt(j: Json, key: string): seq<Json> {
    var a := At(j, key);
    if a.Some? && a.value.JArray? then a.value.elements else []
  }

  /** The projections that are not the wildcard. */
  function Items(elements: seq<Json>): (r: Option<seq<SelectItem>>) {
    if elements == [] then Some([]) else
      var n := |elements| - 1;
      var (init, last) := (Items(elements[..n]), elements[n]);
      if init.None? || TextAt(last, "node_type", "").None? then None
      else if IsWildcard(last) then init
      else
        var item := ItemOf(last);
        if item.None? then None else Some(init.value + [item.value])
  }

  function StatementOf(j: Json): Option<Statement> {
    var kind := TextAt(j, "node_type", "");
    if kind.None? then None
    else if kind.value == "CreateDatabaseStatement" then
      var name := TextAt(j, "database", ""); if name.None? then None else Some(CreateDatabase(name.value))
    else if kind.value == "DropDatabaseStatement" then
      var name := TextAt(j, "database", ""); if name.None? then None else Some(DropDatabase(name.value))
    else if kind.value == "UseDatabaseStatement" then
      var name := TextAt(j, "database", ""); if name.None? then None else Some(UseDatabase(name.value))
    else if kind.value == "CreateUserStatement" then
      var user := TextAt(j, "username", ""); if user.None? then None else Some(CreateUser(user.value, ""))
    else if kind.value == "GrantStatement" || kind.value == "RevokeStatement" then
      var (permissions, scope, user) := (StringsAt(j, "permissions"), TextAt(j, "scope", "*.*"),
                                         TextAt(j, "username", ""));
      if permissions.None? || scope.None? || user.None? then None
      else if kind.value == "GrantStatement" then Some(Grant(permissions.value, TableOfText(scope.value), user.value))
      else Some(Revoke(permissions.value, TableOfText(scope.value), user.value))
    else TableStatementOf(j, kind.value)
  }

  function TableStatementOf(j: Json, kind: string): Option<Statement> {
    var table := TextAt(j, "table", "");
    if kind == "CreateTableStatement" then
      var columns := MapAll(ElementsAt(j, "columns"), ColumnOf);
      if columns.None? || table.None? then None else Some(CreateTable(TableOfText(table.value), columns.value))
    else if kind == "SelectStatement" then
      var (items, c) := (Items(ElementsAt(j, "projections")), ConditionIn(j));
      var all := exists i :: 0 <= i < |ElementsAt(j, "projections")| && IsWildcard(ElementsAt(j, "projections")[i]);
      if items.None? || c.None? || table.None? then None
      else Some(Select(all, items.value, TableOfText(table.value), c.value))
    else if kind == "RevertStatement" then
      var time := TextAt(j, "target_timestamp", "");
      if table.None? || time.None? then None else Some(Revert(TableOfText(table.value), time.value))
    else if kind == "InsertStatement" then
      var (values, names) := (MapAll(ElementsAt(j, "values"), RowOf), StringsAt(j, "columns"));
      if values.None? || names.None? || table.None? then None
      else Some(Insert(TableOfText(table.value), names.value, values.value))
    else if kind == "UpdateStatement" then
      var (assignments, c) := (MapAll(ElementsAt(j, "assignments"), AssignmentOf), ConditionIn(j));
      if assignments.None? || c.None? || table.None? then None
      else Some(Update(TableOfText(table.value), assignments.value, c.value))
    else if kind == "DeleteStatement" then
      var c := ConditionIn(j);
      if c.None? || table.None? then None else Some(Delete(TableOfText(table.value), c.value))
    else if kind == "DropTableStatement" then
      if table.None? then None else Some(DropTable(TableOfText(table.value)))
    else Some(Select(false, [], TableRef("", ""), None))
  }
}
