/** The statements: how they are spelled in tokens, and the parser as a function. */
module StatementGrammar {
  import opened Bytes
  import opened Ast
  import opened ConditionGrammar

  function Word(text: string): Token { Token(Keyword, text) }

  function Name(text: string): Token { Token(IdentifierToken, text) }

  const COMMA := Token(Punctuation, ",")
  const DOT := Token(Punctuation, ".")
  const DASH := Token(Punctuation, "-")
  const COLON := Token(Punctuation, ":")
  const SEMICOLON := Token(Punctuation, ";")
  const STAR := Token(OperatorToken, "*")
  const ASSIGN := Token(OperatorToken, "=")

  type At<X> = Option<(X, nat)>

  predicate HasKind(ts: seq<Token>, p: nat, kind: TokenType) {
    p < |ts| && ts[p].kind == kind && kind != EndOfFile
  }

  // Lists with commas.

  /** What follows the items `xs` of a list. */
  function ListTail<X>(ts: seq<Token>, xs: seq<X>, p: nat, item: (seq<Token>, nat) -> At<X>): (r: At<seq<X>>)
    requires p <= |ts|
    ensures r.Some? ==> p <= r.value.1 <= |ts|
    decreases |ts| - p
  {
    if !Is(ts, p, COMMA) then Some((xs, p))
    else
      var x := item(ts, p + 1);
      if x.None? || !(p + 1 < x.value.1 <= |ts|) then None else ListTail(ts, xs + [x.value.0], x.value.1, item)
  }

  function ListAt<X>(ts: seq<Token>, p: nat, item: (seq<Token>, nat) -> At<X>): (r: At<seq<X>>)
    ensures r.Some? ==> p < r.value.1 <= |ts|
  {
    var x := item(ts, p);
    if x.None? || !(p < x.value.1 <= |ts|) then None else ListTail(ts, [x.value.0], x.value.1, item)
  }

  /** What the items `xs` and one more item, which is still to come, are followed by. */
  function ListFrom<X>(ts: seq<Token>, xs: seq<X>, p: nat, item: (seq<Token>, nat) -> At<X>): At<seq<X>> {
    var x := item(ts, p);
    if x.None? || !(p < x.value.1 <= |ts|) then None else ListTail(ts, xs + [x.value.0], x.value.1, item)
  }

  function SpellList<X>(xs: seq<X>, spell: X -> seq<Token>): seq<Token> {
    if xs == [] then []
    else if |xs| == 1 then spell(xs[0])
    else SpellList(xs[..|xs| - 1], spell) + [COMMA] + spell(xs[|xs| - 1])
  }

  // Names and references.

  function NameAt(ts: seq<Token>, p: nat): (r: At<string>)
    ensures r.Some? ==> p < r.value.1 <= |ts|
  {
    if HasKind(ts, p, IdentifierToken) then Some((ts[p].value, p + 1)) else None
  }

  function SpellName(name: string): seq<Token> { [Name(name)] }

  function TableRefAt(ts: seq<Token>, p: nat): (r: At<TableRef>)
    ensures r.Some? ==> p < r.value.1 <= |ts|
  {
    if !HasKind(ts, p, IdentifierToken) then None
    else if !Is(ts, p + 1, DOT) then Some((TableRef("", ts[p].value), p + 1))
    else if !HasKind(ts, p + 2, IdentifierToken) then None
    else Some((TableRef(ts[p].value, ts[p + 2].value), p + 3))
  }

  function SpellTable(t: TableRef): seq<Token> {
    if t.database == "" then [Name(t.table)] else [Name(t.database), DOT, Name(t.table)]
  }

  function ScopePartAt(ts: seq<Token>, p: nat): (r: At<string>)
    ensures r.Some? ==> p < r.value.1 <= |ts|
  {
    if Is(ts, p, STAR) then Some(("*", p + 1)) else NameAt(ts, p)
  }

  function ScopeAt(ts: seq<Token>, p: nat): (r: At<TableRef>)
    ensures r.Some? ==> p < r.value.1 <= |ts|
  {
    var a := ScopePartAt(ts, p);
    if a.None? then None
    else if !Is(ts, p + 1, DOT) then Some((TableRef(a.value.0, "*"), p + 1))
    else
      var b := ScopePartAt(ts, p + 2);
      if b.None? then None else Some((TableRef(a.value.0, b.value.0), p + 3))
  }

  function SpellScopePart(s: string): Token { if s == "*" then STAR else Name(s) }

  function SpellScope(t: TableRef): seq<Token> { [SpellScopePart(t.database), DOT, SpellScopePart(t.table)] }

  predicate IsPermission(s: string) { s == "READ" || s == "WRITE" || s == "CREATE" || s == "DELETE" }

  function PermissionAt(ts: seq<Token>, p: nat): (r: At<string>)
    ensures r.Some? ==> p < r.value.1 <= |ts|
  {
    if HasKind(ts, p, Keyword) && IsPermission(ts[p].value) then Some((ts[p].value, p + 1)) else None
  }

  function SpellPermission(s: string): seq<Token> { [Word(s)] }

  // Time stamps.

  predicate PartAt(ts: seq<Token>, p: nat, length: nat) {
    HasKind(ts, p, IntegerLiteral) && |ts[p].value| == length
  }

  predicate DateAt(ts: seq<Token>, p: nat) {
    && PartAt(ts, p, 4) && Is(ts, p + 1, DOT)
    && PartAt(ts, p + 2, 2) && Is(ts, p + 3, DOT)
    && PartAt(ts, p + 4, 2)
  }

  predicate ClockAt(ts: seq<Token>, p: nat) {
    && PartAt(ts, p, 2) && Is(ts, p + 1, COLON)
    && PartAt(ts, p + 2, 2) && Is(ts, p + 3, COLON)
    && PartAt(ts, p + 4, 2) && Is(ts, p + 5, DOT)
    && PartAt(ts, p + 6, 3)
  }

  function DateText(ts: seq<Token>, p: nat): (s: string)
    requires DateAt(ts, p)
    ensures |s| == 10
  {
    ts[p].value + "." + ts[p + 2].value + "." + ts[p + 4].value
  }

  function ClockText(ts: seq<Token>, p: nat): (s: string)
    requires ClockAt(ts, p)
    ensures |s| == 12
  {
    ts[p].value + ":" + ts[p + 2].value + ":" + ts[p + 4].value + "." + ts[p + 6].value
  }

  function TimestampAt(ts: seq<Token>, p: nat): (r: At<string>)
    ensures r.Some? ==> p < r.value.1 <= |ts|
  {
    if DateAt(ts, p) && Is(ts, p + 5, DASH) && ClockAt(ts, p + 6)
    then Some((DateText(ts, p) + "-" + ClockText(ts, p + 6), p + 13)) else None
  }

  function Number(digits: string): Token { Token(IntegerLiteral, digits) }

  predicate IsTimestamp(s: string) {
    && |s| == 23 && s[4] == '.' && s[7] == '.' && s[10] == '-' && s[13] == ':' && s[16] == ':' && s[19] == '.'
  }

  function SpellTimestamp(s: string): seq<Token>
    requires IsTimestamp(s)
  {
    [Number(s[..4]), DOT, Number(s[5..7]), DOT, Number(s[8..10]), DASH,
     Number(s[11..13]), COLON, Number(s[14..16]), COLON, Number(s[17..19]), DOT, Number(s[20..])]
  }

  // Literals, rows, columns, assignments and items.

  predicate LiteralOk(l: Literal) { l.kind.NullType? ==> l.value == "NULL" }

  function LiteralAt(ts: seq<Token>, p: nat): (r: At<Literal>)
    ensures r.Some? ==> p < r.value.1 <= |ts|
  {
    var e := ParseValueAt(ts, p);
    if e.Some? && e.value.LiteralExpr? then Some((e.value.literal, p + 1)) else None
  }

  function SpellLiteral(l: Literal): seq<Token> {
    if LiteralOk(l) then [ValueToken(LiteralExpr(l))] else []
  }

  function RowAt(ts: seq<Token>, p: nat): (r: At<seq<Literal>>)
    ensures r.Some? ==> p < r.value.1 <= |ts|
  {
    if !Is(ts, p, OPEN) then None
    else
      var ls := ListAt(ts, p + 1, LiteralAt);
      if ls.None? || !Is(ts, ls.value.1, CLOSE) then None else Some((ls.value.0, ls.value.1 + 1))
  }

  function SpellRow(row: seq<Literal>): seq<Token> { [OPEN] + SpellList(row, SpellLiteral) + [CLOSE] }

  /** A comma before the first row is let through. */
  function RowsAt(ts: seq<Token>, p: nat): (r: At<seq<seq<Literal>>>)
    ensures r.Some? ==> p < r.value.1 <= |ts|
  {
    ListAt(ts, if Is(ts, p, COMMA) then p + 1 else p, RowAt)
  }

  /** An optional keyword: whether it is there, and what is behind it. */
  function Flag(ts: seq<Token>, p: nat, word: string): (bool, nat) {
    if Is(ts, p, Word(word)) then (true, p + 1) else (false, p)
  }

  function DefaultAt(ts: seq<Token>, p: nat): At<Option<Literal>> {
    if !Is(ts, p, Word("DEFAULT")) then Some((None, p))
    else
      var l := LiteralAt(ts, p + 1);
      if l.None? then None else Some((Some(l.value.0), l.value.1))
  }

  function ColumnAt(ts: seq<Token>, p: nat): (r: At<ColumnDef>)
    ensures r.Some? ==> p < r.value.1 <= |ts|
  {
    if !HasKind(ts, p, IdentifierToken) || !(Is(ts, p + 1, Word("INT")) || Is(ts, p + 1, Word("STRING"))) then None
    else
      var (notNull, q) := Flag(ts, p + 2, "NOT_NULL");
      var (indexed, q') := Flag(ts, q, "INDEXED");
      var d := DefaultAt(ts, q');
      if d.None? then None
      else Some((ColumnDef(ts[p].value, ts[p + 1].value == "INT", notNull, indexed, d.value.0), d.value.1))
  }

  function SpellFlag(on: bool, word: string): seq<Token> { if on then [Word(word)] else [] }

  function SpellDefault(d: Option<Literal>): seq<Token> {
    if d.None? then [] else [Word("DEFAULT")] + SpellLiteral(d.value)
  }

  function SpellColumn(c: ColumnDef): seq<Token> {
    [Name(c.name), Word(if c.isInt then "INT" else "STRING")]
    + SpellFlag(c.notNull, "NOT_NULL") + SpellFlag(c.indexed, "INDEXED") + SpellDefault(c.defaultValue)
  }

  predicate ColumnDefOk(c: ColumnDef) { c.defaultValue.Some? ==> LiteralOk(c.defaultValue.value) }

  function AssignmentAt(ts: seq<Token>, p: nat): (r: At<(string, Expression)>)
    ensures r.Some? ==> p < r.value.1 <= |ts|
  {
    if !HasKind(ts, p, IdentifierToken) || !Is(ts, p + 1, ASSIGN) then None
    else
      var e := ParseValueAt(ts, p + 2);
      if e.None? then None else Some(((ts[p].value, e.value), p + 3))
  }

  function SpellAssignment(a: (string, Expression)): seq<Token> {
    if IsValue(a.1) then [Name(a.0), ASSIGN, ValueToken(a.1)] else []
  }

  function FunctionAt(ts: seq<Token>, p: nat): Option<AggregateFunction> {
    if Is(ts, p, Word("SUM")) then Some(Sum)
    else if Is(ts, p, Word("COUNT")) then Some(Count)
    else if Is(ts, p, Word("AVG")) then Some(Avg)
    else None
  }

  function ExpressionAt(ts: seq<Token>, p: nat): (r: At<Expression>)
    ensures r.Some? ==> p < r.value.1 <= |ts|
  {
    var f := FunctionAt(ts, p);
    if f.None? then
      var e := ParseValueAt(ts, p);
      if e.None? then None else Some((e.value, p + 1))
    else if Is(ts, p + 1, OPEN) && HasKind(ts, p + 2, IdentifierToken) && Is(ts, p + 3, CLOSE)
    then Some((Aggregate(f.value, ts[p + 2].value), p + 4)) else None
  }

  predicate ItemOk(item: SelectItem) { item.expr.Aggregate? || IsValue(item.expr) }

  function SpellExpression(e: Expression): seq<Token> {
    if e.Aggregate? then [Word(AggregateName(e.function_)), OPEN, Name(e.column), CLOSE]
    else if IsValue(e) then [ValueToken(e)] else []
  }

  function ItemAt(ts: seq<Token>, p: nat): (r: At<SelectItem>)
    ensures r.Some? ==> p < r.value.1 <= |ts|
  {
    var e := ExpressionAt(ts, p);
    if e.None? then None
    else if !Is(ts, e.value.1, Word("AS")) then Some((SelectItem(e.value.0, ""), e.value.1))
    else if HasKind(ts, e.value.1 + 1, IdentifierToken)
    then Some((SelectItem(e.value.0, ts[e.value.1 + 1].value), e.value.1 + 2)) else None
  }

  function SpellItem(item: SelectItem): seq<Token> {
    SpellExpression(item.expr) + if item.alias == "" then [] else [Word("AS"), Name(item.alias)]
  }

  // Statements, from behind their first keyword on.

  function ColumnsAt(ts: seq<Token>, p: nat, t: TableRef): At<Statement> {
    if !Is(ts, p, OPEN) then None
    else
      var cs := ListAt(ts, p + 1, ColumnAt);
      if cs.None? || !Is(ts, cs.value.1, CLOSE) then None else Some((CreateTable(t, cs.value.0), cs.value.1 + 1))
  }

  function CreateTableAt(ts: seq<Token>, p: nat): At<Statement> {
    var t := TableRefAt(ts, p);
    if t.None? then None else ColumnsAt(ts, t.value.1, t.value.0)
  }

  function CreateAt(ts: seq<Token>, p: nat): At<Statement> {
    if Is(ts, p, Word("DATABASE")) then
      var name := NameAt(ts, p + 1);
      if name.None? then None else Some((CreateDatabase(name.value.0), p + 2))
    else if Is(ts, p, Word("USER")) then
      if HasKind(ts, p + 1, IdentifierToken) && Is(ts, p + 2, Word("PASSWORD")) && HasKind(ts, p + 3, StringLiteral)
      then Some((CreateUser(ts[p + 1].value, ts[p + 3].value), p + 4)) else None
    else if Is(ts, p, Word("TABLE")) then CreateTableAt(ts, p + 1)
    else None
  }

  function DropAt(ts: seq<Token>, p: nat): At<Statement> {
    if Is(ts, p, Word("DATABASE")) then
      var name := NameAt(ts, p + 1);
      if name.None? then None else Some((DropDatabase(name.value.0), p + 2))
    else if Is(ts, p, Word("TABLE")) then
      var t := TableRefAt(ts, p + 1);
      if t.None? then None else Some((DropTable(t.value.0), t.value.1))
    else None
  }

  function UseAt(ts: seq<Token>, p: nat): At<Statement> {
    var name := NameAt(ts, p);
    if name.None? then None else Some((UseDatabase(name.value.0), p + 1))
  }

  /** Permissions, scope and user of GRANT ... TO and REVOKE ... FROM. */
  function RightsAt(ts: seq<Token>, p: nat, preposition: string): At<(seq<string>, TableRef, string)> {
    var ps := ListAt(ts, p, PermissionAt);
    if ps.None? || !Is(ts, ps.value.1, Word("ON")) then None
    else
      var scope := ScopeAt(ts, ps.value.1 + 1);
      if scope.None? || !Is(ts, scope.value.1, Word(preposition)) then None
      else
        var user := NameAt(ts, scope.value.1 + 1);
        if user.None? then None else Some(((ps.value.0, scope.value.0, user.value.0), user.value.1))
  }

  function GrantAt(ts: seq<Token>, p: nat): At<Statement> {
    var r := RightsAt(ts, p, "TO");
    if r.None? then None else Some((Grant(r.value.0.0, r.value.0.1, r.value.0.2), r.value.1))
  }

  function RevokeAt(ts: seq<Token>, p: nat): At<Statement> {
    var r := RightsAt(ts, p, "FROM");
    if r.None? then None else Some((Revoke(r.value.0.0, r.value.0.1, r.value.0.2), r.value.1))
  }

  function RevertAt(ts: seq<Token>, p: nat): At<Statement> {
    var t := TableRefAt(ts, p);
    if t.None? then None
    else
      var time := TimestampAt(ts, t.value.1);
      if time.None? then None else Some((Revert(t.value.0, time.value.0), time.value.1))
  }

  function ValuesAt(ts: seq<Token>, p: nat, t: TableRef): At<Statement> {
    if !Is(ts, p, OPEN) then None
    else
      var names := ListAt(ts, p + 1, NameAt);
      if names.None? || !Is(ts, names.value.1, CLOSE) || !Is(ts, names.value.1 + 1, Word("VALUE")) then None
      else
        var rows := RowsAt(ts, names.value.1 + 2);
        if rows.None? then None else Some((Insert(t, names.value.0, rows.value.0), rows.value.1))
  }

  function InsertAt(ts: seq<Token>, p: nat): At<Statement> {
    if !Is(ts, p, Word("INTO")) then None
    else
      var t := TableRefAt(ts, p + 1);
      if t.None? then None else ValuesAt(ts, t.value.1, t.value.0)
  }

  function WhereAt(ts: seq<Token>, p: nat): Parsed {
    if Is(ts, p, Word("WHERE")) then OrAt(ts, p + 1) else None
  }

  function UpdateAt(ts: seq<Token>, p: nat): At<Statement> {
    var t := TableRefAt(ts, p);
    if t.None? || !Is(ts, t.value.1, Word("SET")) then None
    else
      var a := ListAt(ts, t.value.1 + 1, AssignmentAt);
      if a.None? then None
      else
        var c := WhereAt(ts, a.value.1);
        if c.None? then None else Some((Update(t.value.0, a.value.0, Some(c.value.0)), c.value.1))
  }

  function DeleteAt(ts: seq<Token>, p: nat): At<Statement> {
    if !Is(ts, p, Word("FROM")) then None
    else
      var t := TableRefAt(ts, p + 1);
      if t.None? then None
      else
        var c := WhereAt(ts, t.value.1);
        if c.None? then None else Some((Delete(t.value.0, Some(c.value.0)), c.value.1))
  }

  /** The star or the items of a SELECT. */
  function ProjectionAt(ts: seq<Token>, p: nat): At<(bool, seq<SelectItem>)> {
    if Is(ts, p, STAR) then Some(((true, []), p + 1))
    else
      var items := ListAt(ts, p, ItemAt);
      if items.None? then None else Some(((false, items.value.0), items.value.1))
  }

  function SelectAt(ts: seq<Token>, p: nat): At<Statement> {
    var what := ProjectionAt(ts, p);
    if what.None? || !Is(ts, what.value.1, Word("FROM")) then None
    else
      var t := TableRefAt(ts, what.value.1 + 1);
      if t.None? then None
      else if !Is(ts, t.value.1, Word("WHERE"))
        then Some((Select(what.value.0.0, what.value.0.1, t.value.0, None), t.value.1))
      else
        var c := WhereAt(ts, t.value.1);
        if c.None? then None else Some((Select(what.value.0.0, what.value.0.1, t.value.0, Some(c.value.0)), c.value.1))
  }

  function StatementAt(ts: seq<Token>, p: nat): At<Statement> {
    if !HasKind(ts, p, Keyword) then None
    else
      var word := ts[p].value;
      if word == "CREATE" then CreateAt(ts, p + 1)
      else if word == "DROP" then DropAt(ts, p + 1)
      else if word == "USE" then UseAt(ts, p + 1)
      else if word == "GRANT" then GrantAt(ts, p + 1)
      else if word == "REVOKE" then RevokeAt(ts, p + 1)
      else if word == "REVERT" then RevertAt(ts, p + 1)
      else if word == "INSERT" then InsertAt(ts, p + 1)
      else if word == "UPDATE" then UpdateAt(ts, p + 1)
      else if word == "DELETE" then DeleteAt(ts, p + 1)
      else if word == "SELECT" then SelectAt(ts, p + 1)
      else None
  }

  /** One statement, an optional semicolon, and nothing more. */
  function ProgramAt(ts: seq<Token>, p: nat): Option<Statement> {
    var s := StatementAt(ts, p);
    if s.None? || !AtEnd(ts, if Is(ts, s.value.1, SEMICOLON) then s.value.1 + 1 else s.value.1) then None
    else Some(s.value.0)
  }

  // Spelling statements.

  /** What the parser makes sure of, whatever the tokens are. */
  predicate StatementOk(s: Statement) {
    match s
    case CreateDatabase(_) => true
    case DropDatabase(_) => true
    case UseDatabase(_) => true
    case CreateUser(_, _) => true
    case Grant(ps, _, _) => ps != [] && forall i :: 0 <= i < |ps| ==> IsPermission(ps[i])
    case Revoke(ps, _, _) => ps != [] && forall i :: 0 <= i < |ps| ==> IsPermission(ps[i])
    case Revert(_, time) => IsTimestamp(time)
    case CreateTable(_, cs) => cs != [] && forall i :: 0 <= i < |cs| ==> ColumnDefOk(cs[i])
    case DropTable(_) => true
    case Insert(_, names, rows) => names != [] && rows != [] && forall i :: 0 <= i < |rows| ==> RowOk(rows[i])
    case Update(_, assignments, c) =>
      && assignments != [] && (forall i :: 0 <= i < |assignments| ==> IsValue(assignments[i].1))
      && c.Some? && Renderable(c.value)
    case Delete(_, c) => c.Some? && Renderable(c.value)
    case Select(all, items, _, c) =>
      && (if all then items == [] else items != [] && forall i :: 0 <= i < |items| ==> ItemOk(items[i]))
      && (c.Some? ==> Renderable(c.value))
  }

  predicate RowOk(row: seq<Literal>) {
    row != [] && forall i :: 0 <= i < |row| ==> LiteralOk(row[i])
  }

  function SpellWhere(c: Option<Condition>): seq<Token>
    requires c.Some? ==> Renderable(c.value)
  {
    if c.None? then [] else [Word("WHERE")] + Render(c.value)
  }

  function SpellRights(ps: seq<string>, scope: TableRef, preposition: string, user: string): seq<Token> {
    SpellList(ps, SpellPermission) + [Word("ON")] + SpellScope(scope) + [Word(preposition), Name(user)]
  }

  function SpellStatement(s: Statement): seq<Token>
    requires StatementOk(s)
  {
    match s
    case CreateDatabase(name) => [Word("CREATE"), Word("DATABASE"), Name(name)]
    case DropDatabase(name) => [Word("DROP"), Word("DATABASE"), Name(name)]
    case UseDatabase(name) => [Word("USE"), Name(name)]
    case CreateUser(user, password) =>
      [Word("CREATE"), Word("USER"), Name(user), Word("PASSWORD"), Token(StringLiteral, password)]
    case Grant(ps, scope, user) => [Word("GRANT")] + SpellRights(ps, scope, "TO", user)
    case Revoke(ps, scope, user) => [Word("REVOKE")] + SpellRights(ps, scope, "FROM", user)
    case Revert(t, time) => [Word("REVERT")] + SpellTable(t) + SpellTimestamp(time)
    case CreateTable(t, cs) => [Word("CREATE"), Word("TABLE")] + SpellTable(t) + [OPEN] +
      SpellList(cs, SpellColumn) + [CLOSE]
    case DropTable(t) => [Word("DROP"), Word("TABLE")] + SpellTable(t)
    case Insert(t, names, rows) =>
      [Word("INSERT"), Word("INTO")] + SpellTable(t) + [OPEN] + SpellList(names, SpellName) + [CLOSE, Word("VALUE")]
      + SpellList(rows, SpellRow)
    case Update(t, assignments, c) =>
      [Word("UPDATE")] + SpellTable(t) + [Word("SET")] + SpellList(assignments, SpellAssignment) + SpellWhere(c)
    case Delete(t, c) => [Word("DELETE"), Word("FROM")] + SpellTable(t) + SpellWhere(c)
    case Select(all, items, t, c) =>
      [Word("SELECT")] + (if all then [STAR] else SpellList(items, SpellItem)) + [Word("FROM")] +
        SpellTable(t) + SpellWhere(c)
  }
}
