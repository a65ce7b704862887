/** The recursive descent over a token list. */
module Parser {
  import opened Bytes
  import opened Ast
  import opened ConditionGrammar
  import opened StatementGrammar

  class Parser {
    const tokens: seq<Token>
    var pos: nat

    constructor (tokens: seq<Token>)
      ensures this.tokens == tokens && pos == 0
    {
      this.tokens, pos := tokens, 0;
    }

    function IsAtEnd(): (r: bool)
      reads this
      ensures r == AtEnd(tokens, pos)
    {
      pos >= |tokens| || tokens[pos].kind == EndOfFile
    }

    function Peek(): (t: Token)
      reads this
      ensures t == if pos < |tokens| then tokens[pos] else Token(EndOfFile, "")
    {
      if pos >= |tokens| then Token(EndOfFile, "") else tokens[pos]
    }

    method Advance() returns (t: Token)
      modifies this
      ensures !AtEnd(tokens, old(pos)) ==> t == tokens[old(pos)] && pos == old(pos) + 1
      ensures AtEnd(tokens, old(pos)) ==> t == Token(EndOfFile, "") && pos == old(pos)
    {
      if !IsAtEnd() {
        t := tokens[pos];
        pos := pos + 1;
      } else {
        t := Token(EndOfFile, "");
      }
    }

    /** The next token has the type, and the value unless that is empty. */
    function Match(kind: TokenType, value: string): (r: bool)
      reads this
      ensures value != "" ==> (r <==> Is(tokens, pos, Token(kind, value)))
      ensures r ==> !AtEnd(tokens, pos) && tokens[pos].kind == kind
      ensures value == "" && !AtEnd(tokens, pos) ==> (r <==> tokens[pos].kind == kind)
    {
      if IsAtEnd() then false
      else if Peek().kind != kind then false
      else if value != "" && Peek().value != value then false
      else true
    }

    method ParseLiteral() returns (l: Option<Literal>)
      modifies this
      ensures var e := ParseValueAt(tokens, old(pos));
        if e.Some? && e.value.LiteralExpr? then l == Some(e.value.literal) && pos == old(pos) + 1
        else l.None? && pos == old(pos)
    {
      var current := Peek();
      var t;
      if current.kind == StringLiteral {
        t := Advance();
        return Some(Literal(StringType, current.value));
      }
      if current.kind == IntegerLiteral {
        t := Advance();
        return Some(Literal(IntegerType, current.value));
      }
      if Match(Keyword, "NULL") {
        t := Advance();
        return Some(Literal(NullType, "NULL"));
      }
      l := None;
    }

    method ParseValue() returns (e: Option<Expression>)
      modifies this
      ensures e == ParseValueAt(tokens, old(pos))
      ensures pos == old(pos) + if e.Some? then 1 else 0
    {
      if Peek().kind == IdentifierToken {
        var t := Advance();
        return Some(Identifier(t.value));
      }
      var l := ParseLiteral();
      e := if l.Some? then Some(LiteralExpr(l.value)) else None;
    }

    /** The result of a parsing method is that of the parser as a function, and so is the
        position after a success. */
    ghost predicate Follows<X>(x: Option<X>, r: At<X>)
      reads this
    {
      if r.Some? then x == Some(r.value.0) && pos == r.value.1 else x.None?
    }

    method ParsePredicate() returns (c: Option<Condition>)
      modifies this
      ensures Follows(c, PredAt(tokens, old(pos)))
      decreases if pos <= |tokens| then |tokens| - pos else 0, 0
    {
      var t;
      if Match(Punctuation, "(") {
        t := Advance();
        c := ParseCondition();
        if c.None? || !Match(Punctuation, ")") {
          return None;
        }
        t := Advance();
        return;
      }
      c := ParsePlain();
    }

    method ParsePlain() returns (c: Option<Condition>)
      modifies this
      ensures Follows(c, PlainAt(tokens, old(pos)))
    {
      c := None;
      var value := ParseValue();
      if value.None? {
        return;
      }
      var t;
      if Match(Keyword, "BETWEEN") {
        t := Advance();
        var lower := ParseValue();
        if lower.None? || !Match(Keyword, "AND") {
          return;
        }
        t := Advance();
        var upper := ParseValue();
        return if upper.None? then None else Some(Between(value.value, lower.value, upper.value));
      }
      if Match(Keyword, "LIKE") {
        t := Advance();
        if !Match(StringLiteral, "") {
          return;
        }
        t := Advance();
        return Some(Like(value.value, t.value));
      }
      if Match(OperatorToken, "") {
        t := Advance();
        var right := ParseValue();
        var op := OperatorOf(t.value);
        return if right.None? || op.None? then None else Some(Comparison(value.value, op.value, right.value));
      }
    }

    method ParseAndCondition() returns (c: Option<Condition>)
      modifies this
      ensures Follows(c, AndAt(tokens, old(pos)))
      decreases if pos <= |tokens| then |tokens| - pos else 0, 2
    {
      ghost var start := pos;
      c := ParsePredicate();
      if c.None? {
        return;
      }
      while Match(Keyword, "AND")
        invariant c.Some? && start < pos <= |tokens|
        invariant AndAt(tokens, start) == AndTail(tokens, c.value, pos)
        decreases |tokens| - pos
      {
        var t := Advance();
        var right := ParsePredicate();
        if right.None? {
          return None;
        }
        c := Some(And(c.value, right.value));
      }
    }

    method ParseOrCondition() returns (c: Option<Condition>)
      modifies this
      ensures Follows(c, OrAt(tokens, old(pos)))
      decreases if pos <= |tokens| then |tokens| - pos else 0, 4
    {
      ghost var start := pos;
      c := ParseAndCondition();
      if c.None? {
        return;
      }
      while Match(Keyword, "OR")
        invariant c.Some? && start < pos <= |tokens|
        invariant OrAt(tokens, start) == OrTail(tokens, c.value, pos)
        decreases |tokens| - pos
      {
        var t := Advance();
        var right := ParseAndCondition();
        if right.None? {
          return None;
        }
        c := Some(Or(c.value, right.value));
      }
    }

    /** A condition is returned exactly when the tokens from here on spell a tree of the
        grammar that is followed by neither AND nor OR; it is what that tree stands for. */
    method ParseCondition() returns (c: Option<Condition>)
      modifies this
      ensures Follows(c, OrAt(tokens, old(pos)))
      ensures c.Some? <==>
        exists q, t, d :: OrAs(tokens, old(pos), q, t, d) && !Is(tokens, q, AND) && !Is(tokens, q, OR)
      ensures c.Some? ==>
        !Is(tokens, pos, AND) && !Is(tokens, pos, OR) && exists t :: OrAs(tokens, old(pos), pos, t, c.value)
      decreases if pos <= |tokens| then |tokens| - pos else 0, 5
    {
      ghost var start := pos;
      c := ParseOrCondition();
      if c.Some? {
        ParsedIffSpelled(tokens, start, c.value, pos);
      }
      forall q, t, d | OrAs(tokens, start, q, t, d) && !Is(tokens, q, AND) && !Is(tokens, q, OR) ensures c.Some? {
        ParsedIffSpelled(tokens, start, d, q);
      }
    }

    // Parts of statements.

    /** A token that must be there. */
    method Expect(kind: TokenType, value: string) returns (ok: bool)
      requires value != ""
      modifies this
      ensures ok <==> Is(tokens, old(pos), Token(kind, value))
      ensures pos == old(pos) + if ok then 1 else 0
    {
      if !Match(kind, value) {
        return false;
      }
      var t := Advance();
      ok := true;
    }

    method ParseIdentifier() returns (name: Option<string>)
      modifies this
      ensures Follows(name, NameAt(tokens, old(pos)))
    {
      if !Match(IdentifierToken, "") {
        return None;
      }
      var t := Advance();
      name := Some(t.value);
    }

    method ParseTableRef() returns (t: Option<TableRef>)
      modifies this
      ensures Follows(t, TableRefAt(tokens, old(pos)))
    {
      var first := ParseIdentifier();
      if first.None? {
        return None;
      }
      if Match(Punctuation, ".") {
        var dot := Advance();
        var second := ParseIdentifier();
        return if second.None? then None else Some(TableRef(first.value, second.value));
      }
      t := Some(TableRef("", first.value));
    }

    method ParseScopePart() returns (s: Option<string>)
      modifies this
      ensures Follows(s, ScopePartAt(tokens, old(pos)))
    {
      if Match(OperatorToken, "*") {
        var star := Advance();
        return Some("*");
      }
      s := ParseIdentifier();
    }

    method ParseAccessScope() returns (t: Option<TableRef>)
      modifies this
      ensures Follows(t, ScopeAt(tokens, old(pos)))
    {
      var first := ParseScopePart();
      if first.None? {
        return None;
      }
      if Match(Punctuation, ".") {
        var dot := Advance();
        var second := ParseScopePart();
        return if second.None? then None else Some(TableRef(first.value, second.value));
      }
      t := Some(TableRef(first.value, "*"));
    }

    /** One permission, any of four keywords. */
    method ParsePermission() returns (permission: Option<string>)
      modifies this
      ensures Follows(permission, PermissionAt(tokens, old(pos)))
    {
      if !Match(Keyword, "READ") && !Match(Keyword, "WRITE") && !Match(Keyword, "CREATE") && !Match(Keyword, "DELETE") {
        return None;
      }
      var t := Advance();
      permission := Some(t.value);
    }

    method ParsePermissions() returns (permissions: Option<seq<string>>)
      modifies this
      ensures Follows(permissions, ListAt(tokens, old(pos), PermissionAt))
    {
      hide PermissionAt, IsPermission;
      var found: seq<string> := [];
      FirstItem(tokens, pos, PermissionAt);
      while true
        invariant ListAt(tokens, old(pos), PermissionAt) == ListFrom(tokens, found, pos, PermissionAt)
        decreases |tokens| - pos
      {
        var permission := ParsePermission();
        if permission.None? {
          return None;
        }
        found := found + [permission.value];
        if !Match(Punctuation, ",") {
          return Some(found);
        }
        var comma := Advance();
      }
    }

    method ParseTimestampPart(length: nat) returns (digits: Option<string>)
      modifies this
      ensures digits.Some? <==> PartAt(tokens, old(pos), length)
      ensures digits.Some? ==> digits.value == tokens[old(pos)].value && pos == old(pos) + 1
    {
      if !Match(IntegerLiteral, "") {
        return None;
      }
      var t := Advance();
      digits := if |t.value| != length then None else Some(t.value);
    }

    /** A part of a time stamp and the punctuation behind it. */
    method ParsePartAnd(length: nat, mark: string) returns (text: Option<string>)
      requires mark != ""
      modifies this
      ensures text.Some? <==> PartAt(tokens, old(pos), length) && Is(tokens, old(pos) + 1, Token(Punctuation, mark))
      ensures text.Some? ==> text.value == tokens[old(pos)].value + mark && pos == old(pos) + 2
    {
      var digits := ParseTimestampPart(length);
      if digits.None? {
        return None;
      }
      var ok := Expect(Punctuation, mark);
      text := if ok then Some(digits.value + mark) else None;
    }

    method ParseTimestamp() returns (timestamp: Option<string>)
      modifies this
      ensures Follows(timestamp, TimestampAt(tokens, old(pos)))
    {
      hide PartAt, Is;
      timestamp := None;
      var year := ParsePartAnd(4, ".");
      if year.None? { return; }
      var month := ParsePartAnd(2, ".");
      if month.None? { return; }
      var day := ParsePartAnd(2, "-");
      if day.None? { return; }
      var hour := ParsePartAnd(2, ":");
      if hour.None? { return; }
      var minute := ParsePartAnd(2, ":");
      if minute.None? { return; }
      var second := ParsePartAnd(2, ".");
      if second.None? { return; }
      var millisecond := ParseTimestampPart(3);
      if millisecond.None? { return; }
      timestamp := Some(year.value + month.value + day.value + hour.value + minute.value + second.value
                        + millisecond.value);
      ghost var p := old(pos);
      JoiningAt(tokens, p);
    }

    lemma JoiningAt(ts: seq<Token>, p: nat)
      requires DateAt(ts, p) && ClockAt(ts, p + 6)
      ensures (ts[p].value + ".") + (ts[p + 2].value + ".") + (ts[p + 4].value + "-") + (ts[p + 6].value + ":")
            + (ts[p + 8].value + ":") + (ts[p + 10].value + ".") + ts[p + 12].value
           == DateText(ts, p) + "-" + ClockText(ts, p + 6)
    {
      Joining(ts[p].value, ts[p + 2].value, ts[p + 4].value,
              ts[p + 6].value, ts[p + 8].value, ts[p + 10].value, ts[p + 12].value);
    }

    /** The parts of a time stamp joined one by one, and as date and clock. */
    lemma Joining(y: string, mo: string, d: string, h: string, mi: string, s: string, ms: string)
      ensures (y + ".") + (mo + ".") + (d + "-") + (h + ":") + (mi + ":") + (s + ".") + ms
           == (y + "." + mo + "." + d) + "-" + (h + ":" + mi + ":" + s + "." + ms)
    {
    }

    method ParseExpression() returns (e: Option<Expression>)
      modifies this
      ensures Follows(e, ExpressionAt(tokens, old(pos)))
    {
      if Match(Keyword, "SUM") || Match(Keyword, "COUNT") || Match(Keyword, "AVG") {
        var function_ := Advance();
        var ok := Expect(Punctuation, "(");
        if !ok {
          return None;
        }
        var column := ParseIdentifier();
        if column.None? {
          return None;
        }
        ok := Expect(Punctuation, ")");
        return if ok then Some(Aggregate(AggregateFromName(function_.value), column.value)) else None;
      }
      e := ParseValue();
    }

    /** A keyword that may be there. */
    method Skip(word: string) returns (there: bool)
      requires word != ""
      modifies this
      ensures (there, pos) == Flag(tokens, old(pos), word)
    {
      there := Match(Keyword, word);
      if there {
        var t := Advance();
      }
    }

    method ParseColumnDefinition() returns (c: Option<ColumnDef>)
      modifies this
      ensures Follows(c, ColumnAt(tokens, old(pos)))
    {
      c := None;
      var name := ParseIdentifier();
      if name.None? {
        return;
      }
      if !Match(Keyword, "INT") && !Match(Keyword, "STRING") {
        return;
      }
      var t := Advance();
      var notNull := Skip("NOT_NULL");
      var indexed := Skip("INDEXED");
      var default: Option<Literal> := None;
      if Match(Keyword, "DEFAULT") {
        var word := Advance();
        default := ParseLiteral();
        if default.None? {
          return;
        }
      }
      c := Some(ColumnDef(name.value, t.value == "INT", notNull, indexed, default));
    }

    // Statements.

    method ParseColumns() returns (columns: Option<seq<ColumnDef>>)
      modifies this
      ensures Follows(columns, ListAt(tokens, old(pos), ColumnAt))
    {
      hide ColumnAt;
      var c := ParseColumnDefinition();
      if c.None? {
        return None;
      }
      var found := [c.value];
      while Match(Punctuation, ",")
        invariant pos <= |tokens| && ListAt(tokens, old(pos), ColumnAt) == ListTail(tokens, found, pos, ColumnAt)
        decreases |tokens| - pos
      {
        var t := Advance();
        c := ParseColumnDefinition();
        if c.None? {
          return None;
        }
        found := found + [c.value];
      }
      columns := Some(found);
    }

    method ParseCreateTable() returns (s: Option<Statement>)
      modifies this
      ensures Follows(s, CreateTableAt(tokens, old(pos)))
    {
      hide ListAt;
      var table := ParseTableRef();
      if table.None? {
        return None;
      }
      var ok := Expect(Punctuation, "(");
      if !ok {
        return None;
      }
      var columns := ParseColumns();
      if columns.None? {
        return None;
      }
      ok := Expect(Punctuation, ")");
      s := if ok then Some(Ast.CreateTable(table.value, columns.value)) else None;
    }

    method ParseCreateStatement() returns (s: Option<Statement>)
      modifies this
      ensures Follows(s, if Is(tokens, old(pos), Word("CREATE")) then CreateAt(tokens, old(pos) + 1) else None)
    {
      hide ColumnsAt, TableRefAt;
      s := None;
      var t;
      var ok := Expect(Keyword, "CREATE");
      if !ok {
        return;
      }
      if Match(Keyword, "DATABASE") {
        t := Advance();
        var name := ParseIdentifier();
        return if name.None? then None else Some(Ast.CreateDatabase(name.value));
      }
      if Match(Keyword, "USER") {
        t := Advance();
        var user := ParseIdentifier();
        if user.None? {
          return;
        }
        ok := Expect(Keyword, "PASSWORD");
        if !ok || !Match(StringLiteral, "") {
          return;
        }
        t := Advance();
        return Some(Ast.CreateUser(user.value, t.value));
      }
      if Match(Keyword, "TABLE") {
        t := Advance();
        s := ParseCreateTable();
      }
    }

    /** The common part of GRANT and REVOKE. */
    method ParseRights(preposition: string) returns (r: Option<(seq<string>, TableRef, string)>)
      requires preposition != ""
      modifies this
      ensures Follows(r, RightsAt(tokens, old(pos), preposition))
    {
      hide ListAt, ScopeAt;
      r := None;
      var permissions := ParsePermissions();
      if permissions.None? {
        return;
      }
      var ok := Expect(Keyword, "ON");
      if !ok {
        return;
      }
      var scope := ParseAccessScope();
      if scope.None? {
        return;
      }
      ok := Expect(Keyword, preposition);
      if !ok {
        return;
      }
      var user := ParseIdentifier();
      r := if user.None? then None else Some((permissions.value, scope.value, user.value));
    }

    method ParseGrantStatement() returns (s: Option<Statement>)
      modifies this
      ensures Follows(s, if Is(tokens, old(pos), Word("GRANT")) then GrantAt(tokens, old(pos) + 1) else None)
    {
      hide RightsAt;
      var ok := Expect(Keyword, "GRANT");
      if !ok {
        return None;
      }
      var r := ParseRights("TO");
      s := if r.None? then None else Some(Ast.Grant(r.value.0, r.value.1, r.value.2));
    }

    method ParseRevokeStatement() returns (s: Option<Statement>)
      modifies this
      ensures Follows(s, if Is(tokens, old(pos), Word("REVOKE")) then RevokeAt(tokens, old(pos) + 1) else None)
    {
      hide RightsAt;
      var ok := Expect(Keyword, "REVOKE");
      if !ok {
        return None;
      }
      var r := ParseRights("FROM");
      s := if r.None? then None else Some(Ast.Revoke(r.value.0, r.value.1, r.value.2));
    }

    method ParseDropStatement() returns (s: Option<Statement>)
      modifies this
      ensures Follows(s, if Is(tokens, old(pos), Word("DROP")) then DropAt(tokens, old(pos) + 1) else None)
    {
      s := None;
      var t;
      var ok := Expect(Keyword, "DROP");
      if !ok {
        return;
      }
      if Match(Keyword, "DATABASE") {
        t := Advance();
        var name := ParseIdentifier();
        return if name.None? then None else Some(Ast.DropDatabase(name.value));
      }
      if Match(Keyword, "TABLE") {
        t := Advance();
        var table := ParseTableRef();
        return if table.None? then None else Some(Ast.DropTable(table.value));
      }
    }

    method ParseUseStatement() returns (s: Option<Statement>)
      modifies this
      ensures Follows(s, if Is(tokens, old(pos), Word("USE")) then UseAt(tokens, old(pos) + 1) else None)
    {
      var ok := Expect(Keyword, "USE");
      if !ok {
        return None;
      }
      var name := ParseIdentifier();
      s := if name.None? then None else Some(Ast.UseDatabase(name.value));
    }

    method ParseRevertStatement() returns (s: Option<Statement>)
      modifies this
      ensures Follows(s, if Is(tokens, old(pos), Word("REVERT")) then RevertAt(tokens, old(pos) + 1) else None)
    {
      hide TimestampAt, TableRefAt;
      var ok := Expect(Keyword, "REVERT");
      if !ok {
        return None;
      }
      var table := ParseTableRef();
      if table.None? {
        return None;
      }
      var timestamp := ParseTimestamp();
      s := if timestamp.None? then None else Some(Ast.Revert(table.value, timestamp.value));
    }

    method ParseNames() returns (names: Option<seq<string>>)
      modifies this
      ensures Follows(names, ListAt(tokens, old(pos), NameAt))
    {
      var name := ParseIdentifier();
      if name.None? {
        return None;
      }
      var found := [name.value];
      while Match(Punctuation, ",")
        invariant pos <= |tokens| && ListAt(tokens, old(pos), NameAt) == ListTail(tokens, found, pos, NameAt)
        decreases |tokens| - pos
      {
        var t := Advance();
        name := ParseIdentifier();
        if name.None? {
          return None;
        }
        found := found + [name.value];
      }
      names := Some(found);
    }

    method ParseLiterals() returns (row: Option<seq<Literal>>)
      modifies this
      ensures Follows(row, ListAt(tokens, old(pos), LiteralAt))
    {
      var l := ParseLiteral();
      if l.None? {
        return None;
      }
      var found := [l.value];
      while Match(Punctuation, ",")
        invariant pos <= |tokens| && ListAt(tokens, old(pos), LiteralAt) == ListTail(tokens, found, pos, LiteralAt)
        decreases |tokens| - pos
      {
        var t := Advance();
        l := ParseLiteral();
        if l.None? {
          return None;
        }
        found := found + [l.value];
      }
      row := Some(found);
    }

    method ParseRow() returns (row: Option<seq<Literal>>)
      modifies this
      ensures Follows(row, RowAt(tokens, old(pos)))
    {
      hide ListAt;
      var ok := Expect(Punctuation, "(");
      if !ok {
        return None;
      }
      row := ParseLiterals();
      if row.None? {
        return None;
      }
      ok := Expect(Punctuation, ")");
      if !ok {
        row := None;
      }
    }

    method ParseRows() returns (rows: Option<seq<seq<Literal>>>)
      modifies this
      ensures Follows(rows, RowsAt(tokens, old(pos)))
    {
      hide RowAt;
      var values: seq<seq<Literal>> := [];
      var more := true;
      FirstItem(tokens, if Is(tokens, pos, COMMA) then pos + 1 else pos, RowAt);
      while more
        invariant more ==>
          RowsAt(tokens, old(pos)) == ListFrom(tokens, values, if Is(tokens, pos, COMMA) then pos + 1 else pos, RowAt)
        invariant !more ==> RowsAt(tokens, old(pos)) == Some((values, pos))
        decreases |tokens| - pos, more
      {
        if Match(Punctuation, ",") {
          var t := Advance();
        }
        var row := ParseRow();
        if row.None? {
          return None;
        }
        values := values + [row.value];
        more := Match(Punctuation, ",");
      }
      rows := Some(values);
    }

    method ParseInsertStatement() returns (s: Option<Statement>)
      modifies this
      ensures Follows(s, if Is(tokens, old(pos), Word("INSERT")) then InsertAt(tokens, old(pos) + 1) else None)
    {
      hide ListAt, RowsAt, TableRefAt;
      s := None;
      var ok := Expect(Keyword, "INSERT");
      if !ok {
        return;
      }
      ok := Expect(Keyword, "INTO");
      if !ok {
        return;
      }
      var table := ParseTableRef();
      if table.None? {
        return;
      }
      ok := Expect(Punctuation, "(");
      if !ok {
        return;
      }
      var columns := ParseNames();
      if columns.None? {
        return;
      }
      ok := Expect(Punctuation, ")");
      if !ok {
        return;
      }
      ok := Expect(Keyword, "VALUE");
      if !ok {
        return;
      }
      var values := ParseRows();
      s := if values.None? then None else Some(Ast.Insert(table.value, columns.value, values.value));
    }

    method ParseAssignment() returns (a: Option<(string, Expression)>)
      modifies this
      ensures Follows(a, AssignmentAt(tokens, old(pos)))
    {
      var column := ParseIdentifier();
      if column.None? {
        return None;
      }
      var ok := Expect(OperatorToken, "=");
      if !ok {
        return None;
      }
      var value := ParseValue();
      a := if value.None? then None else Some((column.value, value.value));
    }

    method ParseAssignments() returns (assignments: Option<seq<(string, Expression)>>)
      modifies this
      ensures Follows(assignments, ListAt(tokens, old(pos), AssignmentAt))
    {
      hide AssignmentAt;
      var found: seq<(string, Expression)> := [];
      FirstItem(tokens, pos, AssignmentAt);
      while true
        invariant ListAt(tokens, old(pos), AssignmentAt) == ListFrom(tokens, found, pos, AssignmentAt)
        decreases |tokens| - pos
      {
        var a := ParseAssignment();
        if a.None? {
          return None;
        }
        found := found + [a.value];
        if !Match(Punctuation, ",") {
          break;
        }
        var t := Advance();
      }
      assignments := Some(found);
    }

    method ParseWhere() returns (c: Option<Condition>)
      modifies this
      ensures Follows(c, WhereAt(tokens, old(pos)))
    {
      hide OrAt, OrAs;
      var ok := Expect(Keyword, "WHERE");
      if !ok {
        return None;
      }
      c := ParseCondition();
    }

    method ParseUpdateStatement() returns (s: Option<Statement>)
      modifies this
      ensures Follows(s, if Is(tokens, old(pos), Word("UPDATE")) then UpdateAt(tokens, old(pos) + 1) else None)
    {
      hide ListAt, WhereAt, TableRefAt;
      s := None;
      var ok := Expect(Keyword, "UPDATE");
      if !ok {
        return;
      }
      var table := ParseTableRef();
      if table.None? {
        return;
      }
      ok := Expect(Keyword, "SET");
      if !ok {
        return;
      }
      var assignments := ParseAssignments();
      if assignments.None? {
        return;
      }
      var c := ParseWhere();
      s := if c.None? then None else Some(Ast.Update(table.value, assignments.value, c));
    }

    method ParseDeleteStatement() returns (s: Option<Statement>)
      modifies this
      ensures Follows(s, if Is(tokens, old(pos), Word("DELETE")) then DeleteAt(tokens, old(pos) + 1) else None)
    {
      hide WhereAt, TableRefAt;
      s := None;
      var ok := Expect(Keyword, "DELETE");
      if !ok {
        return;
      }
      ok := Expect(Keyword, "FROM");
      if !ok {
        return;
      }
      var table := ParseTableRef();
      if table.None? {
        return;
      }
      var c := ParseWhere();
      s := if c.None? then None else Some(Ast.Delete(table.value, c));
    }

    method ParseItem() returns (item: Option<SelectItem>)
      modifies this
      ensures Follows(item, ItemAt(tokens, old(pos)))
    {
      hide ExpressionAt;
      var e := ParseExpression();
      if e.None? {
        return None;
      }
      var alias := "";
      if Match(Keyword, "AS") {
        var t := Advance();
        var name := ParseIdentifier();
        if name.None? {
          return None;
        }
        alias := name.value;
      }
      item := Some(SelectItem(e.value, alias));
    }

    method ParseItems() returns (items: Option<seq<SelectItem>>)
      modifies this
      ensures Follows(items, ListAt(tokens, old(pos), ItemAt))
    {
      hide ItemAt;
      var found: seq<SelectItem> := [];
      FirstItem(tokens, pos, ItemAt);
      while true
        invariant ListAt(tokens, old(pos), ItemAt) == ListFrom(tokens, found, pos, ItemAt)
        decreases |tokens| - pos
      {
        var item := ParseItem();
        if item.None? {
          return None;
        }
        found := found + [item.value];
        if !Match(Punctuation, ",") {
          break;
        }
        var t := Advance();
      }
      items := Some(found);
    }

    method ParseSelectStatement() returns (s: Option<Statement>)
      modifies this
      ensures Follows(s, if Is(tokens, old(pos), Word("SELECT")) then SelectAt(tokens, old(pos) + 1) else None)
    {
      hide ListAt, WhereAt, TableRefAt;
      s := None;
      var ok := Expect(Keyword, "SELECT");
      if !ok {
        return;
      }
      var all, items: Option<seq<SelectItem>> := false, Some([]);
      if Match(OperatorToken, "*") {
        var star := Advance();
        all := true;
      } else {
        items := ParseItems();
        if items.None? {
          return;
        }
      }
      ok := Expect(Keyword, "FROM");
      if !ok {
        return;
      }
      var table := ParseTableRef();
      if table.None? {
        return;
      }
      var c: Option<Condition> := None;
      if Match(Keyword, "WHERE") {
        c := ParseWhere();
        if c.None? {
          return;
        }
      }
      s := Some(Ast.Select(all, items.value, table.value, c));
    }

    /** One statement with nothing behind it but a semicolon. */
    method ParseStatement() returns (s: Option<Statement>)
      modifies this
      ensures s == ProgramAt(tokens, old(pos))
    {
      hide CreateAt, DropAt, UseAt, GrantAt, RevokeAt, RevertAt, InsertAt, UpdateAt, DeleteAt, SelectAt;
      s := None;
      if IsAtEnd() {
        return;
      }
      if Peek().kind != Keyword {
        return;
      }
      var keyword := Peek().value;
      if keyword == "CREATE" { s := ParseCreateStatement(); }
      else if keyword == "DROP" { s := ParseDropStatement(); }
      else if keyword == "USE" { s := ParseUseStatement(); }
      else if keyword == "GRANT" { s := ParseGrantStatement(); }
      else if keyword == "REVOKE" { s := ParseRevokeStatement(); }
      else if keyword == "REVERT" { s := ParseRevertStatement(); }
      else if keyword == "INSERT" { s := ParseInsertStatement(); }
      else if keyword == "UPDATE" { s := ParseUpdateStatement(); }
      else if keyword == "DELETE" { s := ParseDeleteStatement(); }
      else if keyword == "SELECT" { s := ParseSelectStatement(); }
      if s.None? {
        return;
      }
      if Match(Punctuation, ";") {
        var t := Advance();
      }
      if !IsAtEnd() {
        s := None;
      }
    }
  }

  /** A list starts like its first item. */
  lemma FirstItem<X>(ts: seq<Token>, p: nat, item: (seq<Token>, nat) -> At<X>)
    ensures ListAt(ts, p, item) == ListFrom(ts, [], p, item)
  {
    var x := item(ts, p);
    if x.Some? { assert [] + [x.value.0] == [x.value.0]; }
  }
}
