/** Routing statements to storage nodes. */
module Router {
  import opened Bytes
  import opened Ast
  import opened AstCodec
  import opened AstSerializer
  import C = Catalog
  import R = Registry

  /** What the client gets, with its message; an exception where the source lets one through. */
  datatype Response = Success(text: string) | Failure(text: string) | Exception

  /** A request a storage node got: the node, the statement, and what came back. */
  datatype Asked = Asked(node: R.StorageNode, ast: Json, answer: Option<Response>)

  const NO_ANSWER := Failure("Failed to receive response from storage")

  /** The table a data statement is about. */
  function TableFromStatement(s: Statement): Option<TableRef> {
    match s
    case Insert(t, _, _) => Some(t)
    case Update(t, _, _) => Some(t)
    case Delete(t, _) => Some(t)
    case Select(_, _, t, _) => Some(t)
    case Revert(t, _) => Some(t)
    case CreateTable(t, _) => Some(t)
    case DropTable(t) => Some(t)
    case _ => None
  }

  function FreshNode(port: nat): R.StorageNode {
    R.StorageNode("127.0.0.1", port, R.Undetermined)
  }

  /** A table that is not there yet, of a database that is, with literals that fit. */
  ghost predicate CanHold(data: C.Databases, s: Statement)
    requires s.CreateTable?
  {
    s.table.database in data && s.table.table !in data[s.table.database] && StatementJson(s).Some?
  }

  ghost function WithTable(data: C.Databases, s: Statement): C.Databases
    requires s.CreateTable? && CanHold(data, s)
  {
    data[s.table.database := data[s.table.database][s.table.table := StatementJson(s).value]]
  }

  ghost function WithoutTable(data: C.Databases, t: TableRef): C.Databases
    requires C.HasTableNamed(data, t)
  {
    data[t.database := data[t.database] - {t.table}]
  }

  /** The log of requests went from `before` to `after` by one request with statement `s` to
      `node`, and its answer, if any, is `r`. */
  ghost predicate Requested(before: seq<Asked>, after: seq<Asked>, node: R.StorageNode, s: Statement, r: Response) {
    && |after| == |before| + 1 && after[..|before|] == before && StatementJson(s).Some?
    && var last := after[|before|];
    && last.node == node && last.ast == StatementJson(s).value
    && r == (if last.answer.Some? then last.answer.value else NO_ANSWER)
  }

  /** What comes of sending `s` to the node `id`: its answer to the one request, or an error
      without a request. */
  ghost predicate Sent(before: seq<Asked>, after: seq<Asked>, nodes: map<string, R.StorageNode>, id: string,
                       s: Statement, r: Response) {
    if id !in nodes then r == Failure("Storage node is not registered") && after == before
    else if nodes[id].state == R.Down then r == Failure("Storage node is down") && after == before
    else
      || (Requested(before, after, nodes[id], s, r) && !r.Exception?)
      || (after == before && (r.Failure? || (r.Exception? && StatementJson(s).None?)))
  }

  class Router {
    const registry: R.Registry
    const catalog: C.Catalog
    /** All requests to storage nodes so far. */
    ghost var asked: seq<Asked>

    constructor (autoStart: bool)
      ensures Valid() && registry.nodes == map[] && catalog.data == map[] && asked == []
    {
      registry := new R.Registry(autoStart);
      catalog := new C.Catalog();
      asked := [];
    }

    /** The nodes are those of the catalog's tables. */
    ghost predicate Valid()
      reads this, registry, catalog
    {
      registry.Valid() && C.NamesOk(catalog.data) && registry.nodes.Keys == C.TableKeys(catalog.data)
    }

    /** Any answer may come back from a node that is registered and not down. */
    method SendToStorage(id: string, s: Statement) returns (r: Response)
      modifies `asked
      ensures Sent(old(asked), asked, registry.nodes, id, s, r)
    {
      hide StatementJson;
      var node := registry.GetNode(id);
      if node.None? {
        return Failure("Storage node is not registered");
      }
      if node.value.state == R.Down {
        return Failure("Storage node is down");
      }
      var connected: bool := *;
      if !connected {
        return Failure("Failed to connect to storage node");
      }
      var ast := SerializeAst(s);
      if ast.None? {
        return Exception;
      }
      var sent: bool := *;
      if !sent {
        return Failure("Failed to send request to storage");
      }
      var answer := Receive();
      asked := asked + [Asked(node.value, ast.value, answer)];
      r := if answer.None? then NO_ANSWER else answer.value;
    }

    /** Nothing, or a success or failure with any message. */
    method Receive() returns (answer: Option<Response>)
      ensures answer.Some? ==> !answer.value.Exception?
    {
      var answered: bool, success: bool, text: string := *, *, *;
      answer := if !answered then None else Some(if success then Success(text) else Failure(text));
    }

    /** A statement about the rows of a table. */
    static predicate IsData(s: Statement) {
      s.Insert? || s.Update? || s.Delete? || s.Select? || s.Revert?
    }

    method Route(s: Statement) returns (r: Response)
      requires Valid() && registry.nextPort < U32_LIMIT
      requires s.CreateDatabase? ==> C.IsName(s.name)
      modifies registry, catalog, `asked
      ensures Valid()
      ensures s.CreateTable? && !r.Success? ==>
        catalog.data == old(catalog.data) && registry.nodes == old(registry.nodes)
      ensures s.CreateTable? && r.Success? ==>
        && CanHold(old(catalog.data), s)
        && catalog.data == WithTable(old(catalog.data), s)
        && registry.nodes == old(registry.nodes)[C.TableKey(s.table) := FreshNode(old(registry.nextPort))]
        && Requested(old(asked), asked, FreshNode(old(registry.nextPort)), s, r)
      ensures s.DropTable? && r.Success? ==>
        && C.HasTableNamed(old(catalog.data), s.table)
        && catalog.data == WithoutTable(old(catalog.data), s.table)
        && registry.nodes == old(registry.nodes) - {C.TableKey(s.table)}
        && Requested(old(asked), asked, old(registry.nodes)[C.TableKey(s.table)], s, r)
      ensures s.CreateDatabase? ==>
        && r == (if s.name in old(catalog.data) then Failure("Database already exists: " + s.name)
                 else Success("Database created"))
        && catalog.data == (if r.Success? then old(catalog.data)[s.name := map[]] else old(catalog.data))
      ensures s.DropDatabase? ==> r == Success("Database dropped") && catalog.data == old(catalog.data) - {s.name}
      ensures s.DropDatabase? ==> exists tables ::
        TablesOf(tables, old(catalog.data), s.name) && AllSent(old(asked), asked, old(registry.nodes), tables)
      ensures s.UseDatabase? ==>
        r == if s.name in old(catalog.data) then Success("Database selected")
          else Failure("Database not found: " + s.name)
      ensures IsData(s) ==>
        if C.HasTableNamed(old(catalog.data), s.table)
          then Sent(old(asked), asked, registry.nodes, C.TableKey(s.table), s, r)
        else r == Failure("Table not found: " + C.TableKey(s.table)) && asked == old(asked)
      ensures s.CreateUser? || s.Grant? || s.Revoke? ==> r == Failure("Cannot determine table from statement")
      ensures s.CreateDatabase? || s.UseDatabase? || s.CreateUser? || s.Grant? || s.Revoke? ==> asked == old(asked)
      ensures !(s.CreateDatabase? || s.DropDatabase? || s.CreateTable? || (s.DropTable? && r.Success?)) ==>
        catalog.data == old(catalog.data) && registry.nodes == old(registry.nodes)
    {
      hide C.TableKeys, C.TableKey, C.NamesOk, R.PortsOk, StatementJson, Sent, Requested,
        CanHold, WithTable, WithoutTable,
        C.HasTableNamed, FreshNode, AllSent, TablesOf;
      if s.CreateDatabase? {
        r := CreateDatabase(s.name);
      } else if s.DropDatabase? {
        r := DropDatabase(s.name);
      } else if s.UseDatabase? {
        r := if catalog.HasDatabase(s.name) then Success("Database selected")
             else Failure("Database not found: " + s.name);
      } else if s.CreateTable? {
        r := CreateTable(s);
      } else if s.DropTable? {
        r := DropTable(s.table);
      } else {
        r := SendData(s);
      }
    }

    /** What is left is about the rows of a table, or about users. */
    method SendData(s: Statement) returns (r: Response)
      modifies `asked
      ensures var table := TableFromStatement(s);
        if table.None? then r == Failure("Cannot determine table from statement") && asked == old(asked)
        else if C.HasTableNamed(catalog.data, table.value)
          then Sent(old(asked), asked, registry.nodes, C.TableKey(table.value), s, r)
        else r == Failure("Table not found: " + C.TableKey(table.value)) && asked == old(asked)
    {
      hide Sent, C.TableKey;
      var table := TableFromStatement(s);
      if table.None? {
        return Failure("Cannot determine table from statement");
      }
      if !catalog.HasTable(table.value) {
        return Failure("Table not found: " + C.TableKey(table.value));
      }
      r := SendToStorage(C.TableKey(table.value), s);
    }

    method CreateDatabase(name: string) returns (r: Response)
      requires Valid() && C.IsName(name)
      modifies catalog
      ensures Valid()
      ensures r == if name in old(catalog.data) then Failure("Database already exists: " + name)
                   else Success("Database created")
      ensures catalog.data == if r.Success? then old(catalog.data)[name := map[]] else old(catalog.data)
    {
      hide C.TableKeys, R.PortsOk;
      var ok := catalog.CreateDatabase(name);
      if ok {
        C.KeysOfEmptyDatabase(old(catalog.data), name);
      }
      r := if ok then Success("Database created") else Failure("Database already exists: " + name);
    }

    /** DROP TABLE was sent for each table, as far as its node could be reached. */
    static ghost predicate AllSent(before: seq<Asked>, after: seq<Asked>, nodes: map<string, R.StorageNode>,
                                   tables: seq<TableRef>)
      decreases |tables|
    {
      if tables == [] then after == before
      else
        var n := |tables| - 1;
        exists middle, r :: AllSent(before, middle, nodes, tables[..n]) && SentAt(middle, after, nodes, tables, n, r)
    }

    static ghost predicate SentAt(before: seq<Asked>, after: seq<Asked>, nodes: map<string, R.StorageNode>,
                                  tables: seq<TableRef>, i: nat, r: Response)
      requires i < |tables|
    {
      Sent(before, after, nodes - FirstKeys(tables, i), C.TableKey(tables[i]), Ast.DropTable(tables[i]), r)
    }

    static lemma OneMoreSent(before: seq<Asked>, middle: seq<Asked>, after: seq<Asked>,
                             nodes: map<string, R.StorageNode>, tables: seq<TableRef>, i: nat, r: Response)
      requires i < |tables| && AllSent(before, middle, nodes, tables[..i])
      requires SentAt(middle, after, nodes, tables, i, r)
      ensures AllSent(before, after, nodes, tables[..i + 1])
    {
      hide Sent, C.TableKey;
      var more := tables[..i + 1];
      assert more[..i] == tables[..i] && more[i] == tables[i];
      assert FirstKeys(more, i) == FirstKeys(tables, i) by {
        assert forall k :: 0 <= k < i ==> more[k] == tables[k];
      }
      assert SentAt(middle, after, nodes, more, i, r);
    }

    static lemma NothingSent(log: seq<Asked>, nodes: map<string, R.StorageNode>, tables: seq<TableRef>)
      ensures AllSent(log, log, nodes, tables[..0]) && FirstKeys(tables, 0) == {}
    {
    }

    static ghost predicate TablesOf(tables: seq<TableRef>, data: C.Databases, name: string) {
      forall t :: t in tables <==> t.database == name && C.HasTableNamed(data, t)
    }

    /** Whatever the storages answer, the database and its nodes are gone. */
    method DropDatabase(name: string) returns (r: Response)
      requires Valid()
      modifies registry, catalog, `asked
      ensures Valid() && r == Success("Database dropped") && catalog.data == old(catalog.data) - {name}
      ensures exists tables ::
        TablesOf(tables, old(catalog.data), name) && AllSent(old(asked), asked, old(registry.nodes), tables)
    {
      hide C.TableKeys, C.TableKey, R.PortsOk, StatementJson, C.IsName, Sent, AllSent, FirstKeys;
      ghost var was, before, nodes := catalog.data, asked, registry.nodes;
      var tables := catalog.DropDatabase(name);
      C.KeysWithoutDatabase(was, name, tables);
      NothingSent(asked, nodes, tables);
      for i := 0 to |tables|
        invariant registry.Valid() && catalog.data == was - {name}
        invariant registry.nodes == nodes - FirstKeys(tables, i) && AllSent(before, asked, nodes, tables[..i])
      {
        var id := C.TableKey(tables[i]);
        ghost var middle := asked;
        var answer := SendToStorage(id, Ast.DropTable(tables[i]));
        var dropped := registry.DropNode(id);
        NextKey(tables, i);
        OneMoreSent(before, middle, asked, nodes, tables, i, answer);
      }
      AllKeys(tables);
      assert tables[..|tables|] == tables;
      r := Success("Database dropped");
    }

    static ghost function FirstKeys(tables: seq<TableRef>, i: nat): set<string>
      requires i <= |tables|
    {
      set k | 0 <= k < i :: C.TableKey(tables[k])
    }

    static lemma NextKey(tables: seq<TableRef>, i: nat)
      requires i < |tables|
      ensures FirstKeys(tables, i + 1) == FirstKeys(tables, i) + {C.TableKey(tables[i])}
    {
    }

    static lemma AllKeys(tables: seq<TableRef>)
      ensures FirstKeys(tables, |tables|) == set t | t in tables :: C.TableKey(t)
    {
      forall t | t in tables ensures C.TableKey(t) in FirstKeys(tables, |tables|) {
        var k :| 0 <= k < |tables| && tables[k] == t;
      }
    }

    /** A table is created everywhere or nowhere. */
    method CreateTable(s: Statement) returns (r: Response)
      requires Valid() && s.CreateTable? && registry.nextPort < U32_LIMIT
      modifies registry, catalog, `asked
      ensures Valid()
      ensures !r.Success? ==> catalog.data == old(catalog.data) && registry.nodes == old(registry.nodes)
      ensures r.Success? ==>
        && CanHold(old(catalog.data), s)
        && catalog.data == WithTable(old(catalog.data), s)
        && registry.nodes == old(registry.nodes)[C.TableKey(s.table) := FreshNode(old(registry.nextPort))]
        && Requested(old(asked), asked, FreshNode(old(registry.nextPort)), s, r)
    {
      hide C.TableKeys, C.TableKey, R.PortsOk, StatementJson, C.IsName, Requested;
      var id := C.TableKey(s.table);
      ghost var was := catalog.data;
      var creation := catalog.CreateTable(s);
      if creation != C.Created {
        return if creation.Threw? then Exception else Failure("Table already exists or database not found");
      }
      ghost var j := StatementJson(s).value;
      NewKey(was, s.table);
      C.KeysWithTable(was, s.table, j);
      TakenBack(was, s.table, j);
      var ok := registry.CreateNode(id);
      if !ok {
        var dropped := catalog.DropTable(s.table);
        return Failure("Failed to create storage node in registry");
      }
      r := SendToStorage(id, s);
      if r.Failure? {
        var gone := registry.DropNode(id);
        var dropped := catalog.DropTable(s.table);
      }
    }

    /** The key of a table that is not there is not used. */
    static lemma NewKey(data: C.Databases, t: TableRef)
      requires C.NamesOk(data) && t.database in data && !C.HasTableNamed(data, t)
      ensures C.TableKey(t) !in C.TableKeys(data)
    {
      if C.TableKey(t) in C.TableKeys(data) {
        var db, n :| db in data && n in data[db] && C.TableKey(t) == C.TableKey(TableRef(db, n));
        C.KeysDiffer(t, TableRef(db, n));
      }
    }

    /** Taking the new table out again restores the catalog. */
    static lemma TakenBack(data: C.Databases, t: TableRef, j: Json)
      requires t.database in data && t.table !in data[t.database]
      ensures var u := data[t.database := data[t.database][t.table := j]];
        u[t.database := u[t.database] - {t.table}] == data
    {
      var db := data[t.database];
      assert db[t.table := j] - {t.table} == db;
    }

    method DropTable(t: TableRef) returns (r: Response)
      requires Valid()
      modifies registry, catalog, `asked
      ensures Valid()
      ensures !C.HasTableNamed(old(catalog.data), t) ==>
        r == Failure("Table not found: " + C.TableKey(t)) && asked == old(asked)
      ensures !r.Success? ==> catalog.data == old(catalog.data) && registry.nodes == old(registry.nodes)
      ensures r.Success? ==>
        && C.HasTableNamed(old(catalog.data), t)
        && catalog.data == WithoutTable(old(catalog.data), t)
        && registry.nodes == old(registry.nodes) - {C.TableKey(t)}
        && C.TableKey(t) in old(registry.nodes)
        && Requested(old(asked), asked, old(registry.nodes)[C.TableKey(t)], Ast.DropTable(t), r)
    {
      hide StatementJson;
      if !catalog.HasTable(t) {
        return Failure("Table not found: " + C.TableKey(t));
      }
      var id := C.TableKey(t);
      r := SendToStorage(id, Ast.DropTable(t));
      if r.Success? {
        C.KeysWithoutTable(catalog.data, t);
        var dropped := catalog.DropTable(t);
        var gone := registry.DropNode(id);
      }
    }
  }
}
