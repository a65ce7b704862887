/** The databases and tables the server knows. */
module Catalog {
  import opened Bytes
  import opened Ast
  import opened AstCodec
  import opened AstSerializer

  type Databases = map<string, map<string, Json>>

  /** The name of a table in the registry. */
  function TableKey(t: TableRef): string {
    TableText(t)
  }

  ghost predicate HasTableNamed(data: Databases, t: TableRef) {
    t.database in data && t.table in data[t.database]
  }

  /** The keys of all tables. */
  ghost function TableKeys(data: Databases): set<string> {
    set db, name | db in data && name in data[db] :: TableKey(TableRef(db, name))
  }

  /** Names as the lexer makes identifiers. */
  predicate IsName(s: string) { s != "" && '.' !in s }

  ghost predicate NamesOk(data: Databases) {
    forall db :: db in data ==> IsName(db)
  }

  /** Different tables have different keys. */
  lemma KeysDiffer(a: TableRef, b: TableRef)
    requires IsName(a.database) && IsName(b.database) && TableKey(a) == TableKey(b)
    ensures a == b
  {
    var s := TableKey(a);
    assert s == a.database + "." + a.table == b.database + "." + b.table;
    var m, n := |a.database|, |b.database|;
    assert s[m] == '.' && s[n] == '.';
    assert forall i :: 0 <= i < m ==> s[i] == a.database[i] && a.database[i] in a.database;
    assert forall i :: 0 <= i < n ==> s[i] == b.database[i] && b.database[i] in b.database;
    assert m == n;
    assert s[..m] == a.database && s[..n] == b.database && s[m + 1..] == a.table && s[n + 1..] == b.table;
  }

  datatype Creation = Created | Refused | Threw

  class Catalog {
    var data: Databases

    constructor ()
      ensures data == map[]
    {
      data := map[];
    }

    method CreateDatabase(name: string) returns (ok: bool)
      modifies this
      ensures ok == (name !in old(data))
      ensures data == if ok then old(data)[name := map[]] else old(data)
    {
      if name in data {
        return false;
      }
      data := data[name := map[]];
      ok := true;
    }

    /** The tables of the dropped database. */
    method DropDatabase(name: string) returns (tables: seq<TableRef>)
      modifies this
      ensures data == old(data) - {name}
      ensures forall t :: t in tables <==> t.database == name && HasTableNamed(old(data), t)
    {
      tables := [];
      if name !in data {
        return;
      }
      var left := data[name].Keys;
      while left != {}
        invariant left <= data[name].Keys && data == old(data)
        invariant forall t :: t in tables <==> t.database == name && t.table in data[name].Keys - left
      {
        var table :| table in left;
        tables := tables + [TableRef(name, table)];
        left := left - {table};
      }
      data := data - {name};
    }

    function HasDatabase(name: string): bool
      reads this
    {
      name in data
    }

    method CreateTable(s: Statement) returns (r: Creation)
      requires s.CreateTable?
      modifies this
      ensures r.Refused? <==> s.table.database !in old(data) || HasTableNamed(old(data), s.table)
      ensures r.Threw? <==> !r.Refused? && StatementJson(s).None?
      ensures !r.Created? ==> data == old(data)
      ensures r.Created? ==>
        data == old(data)[s.table.database := old(data)[s.table.database][s.table.table := StatementJson(s).value]]
    {
      var db := s.table.database;
      if !HasDatabase(db) || s.table.table in data[db] {
        return Refused;
      }
      var j := SerializeAst(s);
      if j.None? {
        return Threw;
      }
      data := data[db := data[db][s.table.table := j.value]];
      r := Created;
    }

    method DropTable(t: TableRef) returns (ok: bool)
      modifies this
      ensures ok == HasTableNamed(old(data), t)
      ensures data == if ok then old(data)[t.database := old(data)[t.database] - {t.table}] else old(data)
    {
      var resolved := ResolveTable(t);
      if resolved.None? {
        return false;
      }
      var db := resolved.value.database;
      data := data[db := data[db] - {resolved.value.table}];
      ok := true;
    }

    function ResolveTable(t: TableRef): (r: Option<TableRef>)
      reads this
      ensures r == if HasTableNamed(data, t) then Some(t) else None
    {
      if t.database !in data then None
      else if t.table !in data[t.database] then None
      else Some(TableRef(t.database, t.table))
    }

    function HasTable(t: TableRef): (r: bool)
      reads this
      ensures r == HasTableNamed(data, t)
    {
      ResolveTable(t).Some?
    }
  }

  // How the operations change the keys.

  lemma KeysOfEmptyDatabase(data: Databases, name: string)
    requires name !in data
    ensures TableKeys(data[name := map[]]) == TableKeys(data)
  {
    var u := data[name := map[]];
    forall k | k in TableKeys(data) ensures k in TableKeys(u) {
      var db, t :| db in data && t in data[db] && k == TableKey(TableRef(db, t));
      assert db in u && t in u[db];
    }
  }

  lemma KeysWithTable(data: Databases, t: TableRef, j: Json)
    requires t.database in data
    ensures TableKeys(data[t.database := data[t.database][t.table := j]]) == TableKeys(data) + {TableKey(t)}
  {
    var u := data[t.database := data[t.database][t.table := j]];
    assert t.database in u && t.table in u[t.database];
    forall k | k in TableKeys(data) ensures k in TableKeys(u) {
      var db, n :| db in data && n in data[db] && k == TableKey(TableRef(db, n));
      assert db in u && n in u[db];
    }
    forall k | k in TableKeys(u) ensures k in TableKeys(data) + {TableKey(t)} {
      var db, n :| db in u && n in u[db] && k == TableKey(TableRef(db, n));
      if TableRef(db, n) != t { assert db in data && n in data[db]; }
    }
  }

  lemma KeysWithoutTable(data: Databases, t: TableRef)
    requires NamesOk(data) && HasTableNamed(data, t)
    ensures TableKeys(data[t.database := data[t.database] - {t.table}]) == TableKeys(data) - {TableKey(t)}
  {
    var u := data[t.database := data[t.database] - {t.table}];
    forall k | k in TableKeys(u) ensures k in TableKeys(data) && k != TableKey(t) {
      var db, n :| db in u && n in u[db] && k == TableKey(TableRef(db, n));
      assert db in data && n in data[db];
      if k == TableKey(t) { KeysDiffer(TableRef(db, n), t); }
    }
    forall k | k in TableKeys(data) && k != TableKey(t) ensures k in TableKeys(u) {
      var db, n :| db in data && n in data[db] && k == TableKey(TableRef(db, n));
      assert db in u && n in u[db];
    }
  }

  /** The keys of a dropped database are those of its tables. */
  lemma KeysWithoutDatabase(data: Databases, name: string, tables: seq<TableRef>)
    requires NamesOk(data)
    requires forall t :: t in tables <==> t.database == name && HasTableNamed(data, t)
    ensures TableKeys(data - {name}) == TableKeys(data) - (set t | t in tables :: TableKey(t))
  {
    var u := data - {name};
    forall k | k in TableKeys(u) ensures k in TableKeys(data) && forall t :: t in tables ==> TableKey(t) != k {
      var db, n :| db in u && n in u[db] && k == TableKey(TableRef(db, n));
      assert db in data && n in data[db];
      forall t | t in tables ensures TableKey(t) != k {
        if TableKey(t) == k { KeysDiffer(t, TableRef(db, n)); }
      }
    }
    forall k | k in TableKeys(data) && !(exists t :: t in tables && TableKey(t) == k) ensures k in TableKeys(u) {
      var db, n :| db in data && n in data[db] && k == TableKey(TableRef(db, n));
      assert HasTableNamed(data, TableRef(db, n));
      assert db in u && n in u[db];
    }
  }
}
