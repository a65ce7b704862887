/** The grammar of statements as a relation between tokens and what they spell. With `strict`
    it is the grammar of the documentation; without, two liberties of the parser are allowed:
    a comma before the first row of INSERT, and literals among the items of SELECT. */
module StatementSpelling {
  import opened Bytes
  import opened Ast
  import opened ConditionGrammar
  import opened StatementGrammar

  /** The tokens from `p` to `q` are the items of `xs` with single commas between them. */
  ghost predicate ListSpelled<X(!new)>(ts: seq<Token>, p: nat, q: nat, xs: seq<X>,
                                       spelled: (seq<Token>, nat, nat, X) -> bool)
    decreases |xs|
  {
    var n := |xs| - 1;
    if n < 0 then false
    else if n == 0 then spelled(ts, p, q, xs[0])
    else exists m: nat :: ListSpelled(ts, p, m, xs[..n], spelled) && Is(ts, m, COMMA) && spelled(ts, m + 1, q, xs[n])
  }

  predicate NameSpelled(ts: seq<Token>, p: nat, q: nat, name: string) {
    HasKind(ts, p, IdentifierToken) && ts[p].value == name && q == p + 1
  }

  predicate PermissionSpelled(ts: seq<Token>, p: nat, q: nat, s: string) {
    IsPermission(s) && Is(ts, p, Word(s)) && q == p + 1
  }

  predicate TableSpelled(ts: seq<Token>, p: nat, q: nat, t: TableRef) {
    || (t.database == "" && NameSpelled(ts, p, q, t.table))
    || (NameSpelled(ts, p, p + 1, t.database) && Is(ts, p + 1, DOT) && NameSpelled(ts, p + 2, q, t.table))
  }

  predicate ScopePartSpelled(ts: seq<Token>, p: nat, s: string) {
    (s == "*" && Is(ts, p, STAR)) || NameSpelled(ts, p, p + 1, s)
  }

  /** One part, which means all tables, or two. */
  predicate ScopeSpelled(ts: seq<Token>, p: nat, q: nat, t: TableRef) {
    && ScopePartSpelled(ts, p, t.database)
    && (if q == p + 1 then t.table == "*" else Is(ts, p + 1, DOT) && ScopePartSpelled(ts, p + 2, t.table) && q == p + 3)
  }

  ghost predicate TimestampSpelled(ts: seq<Token>, p: nat, q: nat, time: string) {
    IsTimestamp(time) && Spelled(ts, p, SpellTimestamp(time)) && q == p + 13
  }

  predicate ValueSpelled(ts: seq<Token>, p: nat, q: nat, e: Expression) {
    IsValue(e) && p < |ts| && ts[p] == ValueToken(e) && q == p + 1
  }

  predicate LiteralSpelled(ts: seq<Token>, p: nat, q: nat, l: Literal) {
    ValueSpelled(ts, p, q, LiteralExpr(l))
  }

  ghost predicate RowSpelled(ts: seq<Token>, p: nat, q: nat, row: seq<Literal>) {
    Is(ts, p, OPEN) && q > 0 && ListSpelled(ts, p + 1, q - 1, row, LiteralSpelled) && Is(ts, q - 1, CLOSE)
  }

  predicate DefaultSpelled(ts: seq<Token>, p: nat, q: nat, d: Option<Literal>) {
    if d.None? then q == p else Is(ts, p, Word("DEFAULT")) && LiteralSpelled(ts, p + 1, q, d.value)
  }

  predicate FlagSpelled(ts: seq<Token>, p: nat, on: bool, word: string) {
    on ==> Is(ts, p, Word(word))
  }

  predicate ColumnSpelled(ts: seq<Token>, p: nat, q: nat, c: ColumnDef) {
    var a := if c.notNull then p + 3 else p + 2;
    var b := if c.indexed then a + 1 else a;
    && NameSpelled(ts, p, p + 1, c.name) && Is(ts, p + 1, Word(if c.isInt then "INT" else "STRING"))
    && FlagSpelled(ts, p + 2, c.notNull, "NOT_NULL") && FlagSpelled(ts, a, c.indexed, "INDEXED")
    && DefaultSpelled(ts, b, q, c.defaultValue)
  }

  predicate AssignmentSpelled(ts: seq<Token>, p: nat, q: nat, a: (string, Expression)) {
    NameSpelled(ts, p, p + 1, a.0) && Is(ts, p + 1, ASSIGN) && ValueSpelled(ts, p + 2, q, a.1)
  }

  predicate AliasSpelled(ts: seq<Token>, p: nat, q: nat, alias: string) {
    if q == p then alias == "" else Is(ts, p, Word("AS")) && NameSpelled(ts, p + 1, q, alias)
  }

  predicate AggregateSpelled(ts: seq<Token>, p: nat, e: Expression)
    requires e.Aggregate?
  {
    && Is(ts, p, Word(AggregateName(e.function_))) && Is(ts, p + 1, OPEN)
    && NameSpelled(ts, p + 2, p + 3, e.column) && Is(ts, p + 3, CLOSE)
  }

  /** An aggregate or a value, which may be a literal, with or without an alias. */
  predicate AnyItem(ts: seq<Token>, p: nat, q: nat, item: SelectItem) {
    if item.expr.Aggregate? then AggregateSpelled(ts, p, item.expr) && AliasSpelled(ts, p + 4, q, item.alias)
    else ValueSpelled(ts, p, p + 1, item.expr) && AliasSpelled(ts, p + 1, q, item.alias)
  }

  /** An aggregate or a column, with or without an alias. */
  predicate ItemSpelled(ts: seq<Token>, p: nat, q: nat, item: SelectItem) {
    AnyItem(ts, p, q, item) && !item.expr.LiteralExpr?
  }

  /** Any tree of the condition grammar behind WHERE. */
  ghost predicate WhereSpelled(ts: seq<Token>, p: nat, q: nat, c: Condition) {
    var r := p + 1;
    Is(ts, p, Word("WHERE")) && exists t :: OrAs(ts, r, q, t, c)
  }

  ghost predicate RowsSpelled(strict: bool, ts: seq<Token>, p: nat, q: nat, rows: seq<seq<Literal>>) {
    || ListSpelled(ts, p, q, rows, RowSpelled)
    || (!strict && Is(ts, p, COMMA) && ListSpelled(ts, p + 1, q, rows, RowSpelled))
  }

  ghost predicate ItemsSpelled(strict: bool, ts: seq<Token>, p: nat, q: nat, all: bool, items: seq<SelectItem>) {
    if all then items == [] && Is(ts, p, STAR) && q == p + 1
    else if strict then ListSpelled(ts, p, q, items, ItemSpelled)
    else ListSpelled(ts, p, q, items, AnyItem)
  }

  // Statements, with the places where their parts meet.

  ghost predicate RightsSpelled(ts: seq<Token>, p: nat, a: nat, b: nat, q: nat, verb: string, ps: seq<string>,
                                scope: TableRef, preposition: string, user: string) {
    && Is(ts, p, Word(verb)) && ListSpelled(ts, p + 1, a, ps, PermissionSpelled) && Is(ts, a, Word("ON"))
    && ScopeSpelled(ts, a + 1, b, scope) && Is(ts, b, Word(preposition)) && NameSpelled(ts, b + 1, q, user)
  }

  ghost predicate RevertSpelled(ts: seq<Token>, p: nat, a: nat, q: nat, t: TableRef, time: string) {
    Is(ts, p, Word("REVERT")) && TableSpelled(ts, p + 1, a, t) && TimestampSpelled(ts, a, q, time)
  }

  ghost predicate CreateTableSpelled(ts: seq<Token>, p: nat, a: nat, q: nat, t: TableRef, cs: seq<ColumnDef>) {
    && Is(ts, p, Word("CREATE")) && Is(ts, p + 1, Word("TABLE")) && TableSpelled(ts, p + 2, a, t)
    && Is(ts, a, OPEN) && q > 0 && ListSpelled(ts, a + 1, q - 1, cs, ColumnSpelled) && Is(ts, q - 1, CLOSE)
  }

  ghost predicate InsertSpelled(strict: bool, ts: seq<Token>, p: nat, a: nat, b: nat, q: nat, t: TableRef,
                                names: seq<string>, rows: seq<seq<Literal>>) {
    && Is(ts, p, Word("INSERT")) && Is(ts, p + 1, Word("INTO")) && TableSpelled(ts, p + 2, a, t)
    && Is(ts, a, OPEN) && ListSpelled(ts, a + 1, b, names, NameSpelled) && Is(ts, b, CLOSE)
    && Is(ts, b + 1, Word("VALUE")) && RowsSpelled(strict, ts, b + 2, q, rows)
  }

  ghost predicate UpdateSpelled(ts: seq<Token>, p: nat, a: nat, b: nat, q: nat, t: TableRef,
                                assignments: seq<(string, Expression)>, c: Condition) {
    && Is(ts, p, Word("UPDATE")) && TableSpelled(ts, p + 1, a, t) && Is(ts, a, Word("SET"))
    && ListSpelled(ts, a + 1, b, assignments, AssignmentSpelled) && WhereSpelled(ts, b, q, c)
  }

  ghost predicate DeleteSpelled(ts: seq<Token>, p: nat, a: nat, q: nat, t: TableRef, c: Condition) {
    && Is(ts, p, Word("DELETE")) && Is(ts, p + 1, Word("FROM"))
    && TableSpelled(ts, p + 2, a, t) && WhereSpelled(ts, a, q, c)
  }

  ghost predicate SelectSpelled(strict: bool, ts: seq<Token>, p: nat, a: nat, b: nat, q: nat, s: Statement)
    requires s.Select?
  {
    && Is(ts, p, Word("SELECT")) && ItemsSpelled(strict, ts, p + 1, a, s.all, s.items) && Is(ts, a, Word("FROM"))
    && TableSpelled(ts, a + 1, b, s.table)
    && (if s.condition.None? then q == b else WhereSpelled(ts, b, q, s.condition.value))
  }

  /** The tokens from `p` to `q` spell the statement. */
  ghost predicate StatementSpelled(strict: bool, ts: seq<Token>, p: nat, q: nat, s: Statement) {
    match s
    case CreateDatabase(name) => Is(ts, p, Word("CREATE")) && Is(ts, p + 1, Word("DATABASE"))
      && NameSpelled(ts, p + 2, q, name)
    case DropDatabase(name) => Is(ts, p, Word("DROP")) && Is(ts, p + 1, Word("DATABASE"))
      && NameSpelled(ts, p + 2, q, name)
    case UseDatabase(name) => Is(ts, p, Word("USE")) && NameSpelled(ts, p + 1, q, name)
    case CreateUser(user, password) =>
      && Is(ts, p, Word("CREATE")) && Is(ts, p + 1, Word("USER")) && NameSpelled(ts, p + 2, p + 3, user)
      && Is(ts, p + 3, Word("PASSWORD")) && Is(ts, p + 4, Token(StringLiteral, password)) && q == p + 5
    case Grant(ps, scope, user) => exists a: nat, b: nat ::
      RightsSpelled(ts, p, a, b, q, "GRANT", ps, scope, "TO", user)
    case Revoke(ps, scope, user) => exists a: nat, b: nat ::
      RightsSpelled(ts, p, a, b, q, "REVOKE", ps, scope, "FROM", user)
    case Revert(t, time) => exists a: nat :: RevertSpelled(ts, p, a, q, t, time)
    case CreateTable(t, cs) => exists a: nat :: CreateTableSpelled(ts, p, a, q, t, cs)
    case DropTable(t) => Is(ts, p, Word("DROP")) && Is(ts, p + 1, Word("TABLE")) && TableSpelled(ts, p + 2, q, t)
    case Insert(t, names, rows) => exists a: nat, b: nat :: InsertSpelled(strict, ts, p, a, b, q, t, names, rows)
    case Update(t, assignments, c) => c.Some? && exists a: nat,
      b: nat :: UpdateSpelled(ts, p, a, b, q, t, assignments, c.value)
    case Delete(t, c) => c.Some? && exists a: nat :: DeleteSpelled(ts, p, a, q, t, c.value)
    case Select(_, _, _, _) => exists a: nat, b: nat :: SelectSpelled(strict, ts, p, a, b, q, s)
  }
}
