/** Writing statements as JSON and reading them, with the loops that fill the arrays. */
module AstSerializer {
  import opened Bytes
  import opened Ast
  import opened AstCodec
  import opened AstRoundTrip

  method FillArray<A, B>(s: seq<A>, f: A -> Option<B>) returns (r: Option<seq<B>>)
    ensures r == MapAll(s, f)
  {
    var filled: seq<B> := [];
    for i := 0 to |s|
      invariant MapAll(s[..i], f) == Some(filled)
    {
      assert s[..i + 1][..i] == s[..i];
      var one := f(s[i]);
      if one.None? {
        return None;
      }
      filled := filled + [one.value];
    }
    assert s[..|s|] == s;
    r := Some(filled);
  }

  method SerializeAst(s: Statement) returns (j: Option<Json>)
    ensures j == StatementJson(s)
    ensures Parsed(s) ==> (j.Some? <==> InRange(s))
    ensures Parsed(s) && j.Some? ==> StatementOf(j.value) == Some(CanonicalStatement(s))
  {
    if Parsed(s) { StatementRoundTrip(s); }
    hide Parsed, InRange, StatementOf, CanonicalStatement;
    j := None;
    match s {
      case CreateDatabase(name) =>
        j := Some(JObject(map["node_type" := JString("CreateDatabaseStatement"), "database" := JString(name)]));
      case DropDatabase(name) =>
        j := Some(JObject(map["node_type" := JString("DropDatabaseStatement"), "database" := JString(name)]));
      case UseDatabase(name) =>
        j := Some(JObject(map["node_type" := JString("UseDatabaseStatement"), "database" := JString(name)]));
      case CreateUser(user, _) =>
        j := Some(JObject(map["node_type" := JString("CreateUserStatement"), "username" := JString(user)]));
      case Grant(ps, scope, user) => j := Some(JObject(PermissionFields("GrantStatement", ps, scope, user)));
      case Revoke(ps, scope, user) => j := Some(JObject(PermissionFields("RevokeStatement", ps, scope, user)));
      case Revert(t, time) =>
        j := Some(JObject(map["node_type" := JString("RevertStatement"), "table" := JString(TableText(t)),
                              "target_timestamp" := JString(time)]));
      case CreateTable(t, columns) =>
        var cs := FillArray(columns, ColumnJson);
        if cs.Some? { j := Some(JObject(TableFields("CreateTableStatement", t)["columns" := JArray(cs.value)])); }
      case DropTable(t) => j := Some(JObject(TableFields("DropTableStatement", t)));
      case Insert(t, names, values) =>
        var rows := FillArray(values, RowJson);
        if rows.Some? {
          var fields := TableFields("InsertStatement", t)["columns" := Strings(names)];
          j := Some(JObject(fields["values" := JArray(rows.value)]));
        }
      case Update(t, assignments, c) =>
        var items := FillArray(assignments, AssignmentJson);
        if items.Some? {
          j := WithCondition(TableFields("UpdateStatement", t)["assignments" := JArray(items.value)], c);
        }
      case Delete(t, c) => j := WithCondition(TableFields("DeleteStatement", t), c);
      case Select(all, items, t, c) =>
        var projections := Some([WILDCARD]);
        if !all {
          projections := FillArray(items, ItemJson);
        }
        if projections.Some? {
          j := WithCondition(TableFields("SelectStatement", t)["projections" := JArray(projections.value)], c);
        }
    }
  }

  method ReadItems(elements: seq<Json>) returns (all: bool, r: Option<seq<SelectItem>>)
    ensures r == Items(elements)
    ensures r.Some? ==> (all <==> exists i :: 0 <= i < |elements| && IsWildcard(elements[i]))
  {
    all := false;
    var items: seq<SelectItem> := [];
    var failed := false;
    for i := 0 to |elements|
      invariant failed ==> Items(elements[..i]).None?
      invariant !failed ==> Items(elements[..i]) == Some(items)
      invariant !failed ==> (all <==> exists k :: 0 <= k < i && IsWildcard(elements[k]))
    {
      assert elements[..i + 1][..i] == elements[..i];
      if !failed {
        var kind := TextAt(elements[i], "node_type", "");
        if kind.None? {
          failed := true;
        } else if kind.value == "Wildcard" {
          all := true;
        } else {
          var item := ItemOf(elements[i]);
          if item.None? {
            failed := true;
          } else {
            items := items + [item.value];
          }
        }
      }
    }
    assert elements[..|elements|] == elements;
    r := if failed then None else Some(items);
  }

  /** What any statement of the parser that was serialized to `j` is shipped as; nothing where
      the source throws. */
  method DeserializeAst(j: Json) returns (s: Option<Statement>)
    ensures s == StatementOf(j)
    ensures forall t :: Parsed(t) && StatementJson(t) == Some(j) ==> s == Some(CanonicalStatement(t))
  {
    forall t | Parsed(t) && StatementJson(t) == Some(j) ensures StatementOf(j) == Some(CanonicalStatement(t)) {
      StatementRoundTrip(t);
    }
    hide Parsed, StatementJson, CanonicalStatement;
    s := None;
    var kind := TextAt(j, "node_type", "");
    if kind.None? {
      return;
    }
    if kind.value == "CreateDatabaseStatement" {
      var name := TextAt(j, "database", "");
      s := if name.None? then None else Some(CreateDatabase(name.value));
    } else if kind.value == "DropDatabaseStatement" {
      var name := TextAt(j, "database", "");
      s := if name.None? then None else Some(DropDatabase(name.value));
    } else if kind.value == "UseDatabaseStatement" {
      var name := TextAt(j, "database", "");
      s := if name.None? then None else Some(UseDatabase(name.value));
    } else if kind.value == "CreateUserStatement" {
      var user := TextAt(j, "username", "");
      s := if user.None? then None else Some(CreateUser(user.value, ""));
    } else if kind.value == "GrantStatement" || kind.value == "RevokeStatement" {
      var permissions, scope, user := StringsAt(j, "permissions"), TextAt(j, "scope", "*.*"), TextAt(j, "username", "");
      if permissions.Some? && scope.Some? && user.Some? {
        s := Some(if kind.value == "GrantStatement" then Grant(permissions.value, TableOfText(scope.value), user.value)
                  else Revoke(permissions.value, TableOfText(scope.value), user.value));
      }
    } else {
      s := DeserializeTableStatement(j, kind.value);
    }
  }

  method DeserializeTableStatement(j: Json, kind: string) returns (s: Option<Statement>)
    ensures s == TableStatementOf(j, kind)
  {
    s := None;
    var table := TextAt(j, "table", "");
    if kind == "CreateTableStatement" {
      var columns := FillArray(ElementsAt(j, "columns"), ColumnOf);
      s := if columns.None? || table.None? then None else Some(CreateTable(TableOfText(table.value), columns.value));
    } else if kind == "SelectStatement" {
      var all, items := ReadItems(ElementsAt(j, "projections"));
      var c := ConditionIn(j);
      s := if items.None? || c.None? || table.None? then None
        else Some(Select(all, items.value, TableOfText(table.value), c.value));
    } else if kind == "RevertStatement" {
      var time := TextAt(j, "target_timestamp", "");
      s := if table.None? || time.None? then None else Some(Revert(TableOfText(table.value), time.value));
    } else if kind == "InsertStatement" {
      var values := FillArray(ElementsAt(j, "values"), RowOf);
      var names := StringsAt(j, "columns");
      s := if values.None? || names.None? || table.None? then None
        else Some(Insert(TableOfText(table.value), names.value, values.value));
    } else if kind == "UpdateStatement" {
      var assignments := FillArray(ElementsAt(j, "assignments"), AssignmentOf);
      var c := ConditionIn(j);
      s := if assignments.None? || c.None? || table.None? then None
           else Some(Update(TableOfText(table.value), assignments.value, c.value));
    } else if kind == "DeleteStatement" {
      var c := ConditionIn(j);
      s := if c.None? || table.None? then None else Some(Delete(TableOfText(table.value), c.value));
    } else if kind == "DropTableStatement" {
      s := if table.None? then None else Some(DropTable(TableOfText(table.value)));
    } else {
      s := Some(Select(false, [], TableRef("", ""), None));
    }
  }
}
