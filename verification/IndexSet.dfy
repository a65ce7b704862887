/** The indexes of a table's columns, each a tree used through its map contract: the key put
    in must be absent, a key taken out need not be there. */
module IndexSet {
  import opened Bytes
  import opened LeafRun
  import opened Values
  import opened Records
  import opened TablePages
  import H = Heap
  import opened TableSpec

  predicate StrictEq(a: Value, b: Value) {
    match a
    case Null => b.Null?
    case Int(n) => b.Int? && b.value == n
    case Str(id) => b.Str? && b.id == id
  }

  /** Every indexed column has a tree. */
  ghost predicate AllOpen(columns: seq<Column>, trees: map<string, Tree>) {
    forall i :: 0 <= i < |columns| && columns[i].indexed ==> columns[i].name in trees
  }

  ghost predicate NamesDiffer(columns: seq<Column>) {
    forall i, j :: 0 <= i < j < |columns| ==> columns[i].name != columns[j].name
  }

  /** The key of the new value is not in the tree, once the old value is out. */
  ghost predicate Free(columns: seq<Column>, trees: map<string, Tree>, leaving: seq<Value>,
                       entering: seq<Value>, i: nat)
    requires AllOpen(columns, trees) && i < |columns| <= |entering| && |columns| <= |leaving|
  {
    columns[i].indexed && !entering[i].Null? ==> KeyOf(entering[i]) !in Leaving(trees[columns[i].name], leaving[i])
  }

  ghost predicate Same(columns: seq<Column>, before: map<string, Tree>, after: map<string, Tree>, i: nat)
    requires AllOpen(columns, before) && AllOpen(columns, after) && i < |columns|
  {
    columns[i].indexed ==> after[columns[i].name] == before[columns[i].name]
  }

  /** Tree `i` has lost the leaving value and got the entering one. */
  ghost predicate Moved(columns: seq<Column>, before: map<string, Tree>, after: map<string, Tree>,
                        leaving: seq<Value>, entering: seq<Value>, a: RecordAddress, i: nat)
    requires AllOpen(columns, before) && AllOpen(columns, after) && i < |columns| <= |entering|
      && |columns| <= |leaving|
  {
    columns[i].indexed ==>
      after[columns[i].name] == Entering(Leaving(before[columns[i].name], leaving[i]), entering[i], a)
  }

  /** One column done: a change of its tree is none of any other column's tree. */
  lemma MovedOn(columns: seq<Column>, before: map<string, Tree>, mid: map<string, Tree>, after: map<string, Tree>,
                leaving: seq<Value>, entering: seq<Value>, a: RecordAddress, i: nat)
    requires NamesDiffer(columns) && i < |columns| <= |entering| && |columns| <= |leaving|
    requires AllOpen(columns, before) && AllOpen(columns, mid) && AllOpen(columns, after)
    requires forall name :: name in mid && name != columns[i].name ==> name in after && after[name] == mid[name]
    requires forall j :: 0 <= j < i ==> Moved(columns, before, mid, leaving, entering, a, j)
    requires forall j :: i <= j < |columns| ==> Same(columns, before, mid, j)
    requires Moved(columns, before, after, leaving, entering, a, i)
    ensures forall j :: 0 <= j < i + 1 ==> Moved(columns, before, after, leaving, entering, a, j)
    ensures forall j :: i + 1 <= j < |columns| ==> Same(columns, before, after, j)
  {
    forall j | 0 <= j < i ensures Moved(columns, before, after, leaving, entering, a, j) {
      assert Moved(columns, before, mid, leaving, entering, a, j);
    }
    forall j | i + 1 <= j < |columns| ensures Same(columns, before, after, j) {
      assert Same(columns, before, mid, j);
    }
  }

  function Nulls(n: nat): (s: seq<Value>)
    ensures |s| == n && forall i :: 0 <= i < n ==> s[i] == Null
  {
    seq(n, _ => Null)
  }

  class IndexSet {
    var trees: map<string, Tree>

    constructor Open(columns: seq<Column>)
      ensures AllOpen(columns, trees) && forall name :: name in trees ==> trees[name] == map[]
    {
      trees := map[];
      new;
      for i := 0 to |columns|
        invariant AllOpen(columns[..i], trees) && forall name :: name in trees ==> trees[name] == map[]
      {
        if columns[i].indexed {
          trees := trees[columns[i].name := map[]];
        }
        assert AllOpen(columns[..i + 1], trees) by {
          assert columns[..i + 1] == columns[..i] + [columns[i]];
        }
      }
      assert columns[..|columns|] == columns;
    }

    method Insert(columns: seq<Column>, fields: seq<Value>, a: RecordAddress)
      requires NamesDiffer(columns) && AllOpen(columns, trees) && |fields| == |columns|
      requires forall i :: 0 <= i < |columns| ==> Free(columns, trees, Nulls(|columns|), fields, i)
      modifies this
      ensures AllOpen(columns, trees)
      ensures forall i :: 0 <= i < |columns| ==> Moved(columns, old(trees), trees, Nulls(|columns|), fields, a, i)
    {
      for i := 0 to |columns|
        invariant AllOpen(columns, trees)
        invariant forall j :: 0 <= j < i ==> Moved(columns, old(trees), trees, Nulls(|columns|), fields, a, j)
        invariant forall j :: i <= j < |columns| ==> Same(columns, old(trees), trees, j)
      {
        ghost var mid := trees;
        assert Same(columns, old(trees), trees, i) && Free(columns, old(trees), Nulls(|columns|), fields, i);
        if columns[i].indexed && !fields[i].Null? {
          TreeInsert(columns[i].name, KeyOf(fields[i]), a);
        }
        MovedOn(columns, old(trees), mid, trees, Nulls(|columns|), fields, a, i);
      }
    }

    method TreeInsert(name: string, key: int, a: RecordAddress)
      requires name in trees && key !in trees[name]
      modifies this
      ensures trees == old(trees)[name := old(trees)[name][key := a]]
    {
      trees := trees[name := trees[name][key := a]];
    }

    method TreeRemove(name: string, key: int)
      requires name in trees
      modifies this
      ensures trees == old(trees)[name := old(trees)[name] - {key}]
    {
      trees := trees[name := trees[name] - {key}];
    }

    method Remove(columns: seq<Column>, fields: seq<Value>)
      requires NamesDiffer(columns) && AllOpen(columns, trees) && |fields| == |columns|
      modifies this
      ensures AllOpen(columns, trees)
      ensures forall i :: 0 <= i < |columns| ==>
        Moved(columns, old(trees), trees, fields, Nulls(|columns|), RecordAddress(0, 0), i)
    {
      for i := 0 to |columns|
        invariant AllOpen(columns, trees)
        invariant forall j :: 0 <= j < i ==>
          Moved(columns, old(trees), trees, fields, Nulls(|columns|), RecordAddress(0, 0), j)
        invariant forall j :: i <= j < |columns| ==> Same(columns, old(trees), trees, j)
      {
        ghost var mid := trees;
        assert Same(columns, old(trees), trees, i);
        if columns[i].indexed && !fields[i].Null? {
          TreeRemove(columns[i].name, KeyOf(fields[i]));
        }
        MovedOn(columns, old(trees), mid, trees, fields, Nulls(|columns|), RecordAddress(0, 0), i);
      }
    }

    /** A row moves from `oldAddress` to another address, where it has the new values. */
    method Update(columns: seq<Column>, oldFields: seq<Value>, oldAddress: RecordAddress,
                  fields: seq<Value>, a: RecordAddress)
      requires NamesDiffer(columns) && AllOpen(columns, trees)
        && |fields| == |oldFields| == |columns| && a != oldAddress
      requires forall i :: 0 <= i < |columns| ==> Free(columns, trees, oldFields, fields, i)
      modifies this
      ensures AllOpen(columns, trees)
      ensures forall i :: 0 <= i < |columns| ==> Moved(columns, old(trees), trees, oldFields, fields, a, i)
    {
      for i := 0 to |columns|
        invariant AllOpen(columns, trees)
        invariant forall j :: 0 <= j < i ==> Moved(columns, old(trees), trees, oldFields, fields, a, j)
        invariant forall j :: i <= j < |columns| ==> Same(columns, old(trees), trees, j)
      {
        ghost var mid := trees;
        assert Same(columns, old(trees), trees, i) && Free(columns, old(trees), oldFields, fields, i);
        if columns[i].indexed && !(StrictEq(oldFields[i], fields[i]) && oldAddress == a) {
          if !oldFields[i].Null? {
            TreeRemove(columns[i].name, KeyOf(oldFields[i]));
          }
          if !fields[i].Null? {
            TreeInsert(columns[i].name, KeyOf(fields[i]), a);
          }
        }
        MovedOn(columns, old(trees), mid, trees, oldFields, fields, a, i);
      }
    }

    /** `Index::Find`: nothing when the column has no index or the value is not of its type. */
    method Find(columns: seq<Column>, i: nat, value: Value) returns (r: Option<seq<RecordAddress>>)
      requires AllOpen(columns, trees) && i < |columns|
      ensures r.None? <==> !columns[i].indexed || value.Null? || !Suits(columns[i], value)
      ensures r.Some? ==>
        var tree := trees[columns[i].name];
        r.value == if KeyOf(value) in tree then [tree[KeyOf(value)]] else []
    {
      var c := columns[i];
      if !c.indexed || value.Null? {
        return None;
      }
      if (c.isInt && !value.Int?) || (!c.isInt && !value.Str?) {
        return None;
      }
      r := Some(TreeSearch(c.name, KeyOf(value)));
    }

    function TreeSearch(name: string, key: int): (r: seq<RecordAddress>)
      requires name in trees
      reads this
      ensures r == if key in trees[name] then [trees[name][key]] else []
    {
      if key in trees[name] then [trees[name][key]] else []
    }

    /** Whether a record other than the one at `own` has the value of column `i`. */
    method HasDuplicate(columns: seq<Column>, fields: seq<Value>, own: Option<RecordAddress>, i: nat,
                        heap: H.Heap, known: set<nat>, ghost ids: map<nat, RecordAddress>, ghost self: Option<nat>)
        returns (found: bool)
      requires AllOpen(columns, trees) && |fields| == |columns| && i < |columns|
      requires heap.Valid() && IdsOk(heap.cells, ids)
      requires RowsOk(columns, RowsOf(heap.cells, ids), known)
      requires TreesOk(columns, trees, RowsOf(heap.cells, ids), ids)
      requires Suits(columns[i], fields[i])
      requires own.Some? ==> self.Some? && self.value in ids && ids[self.value] == own.value
      requires own.None? ==> self.None? || self.value !in ids
      ensures found <==> columns[i].indexed && !fields[i].Null? && Taken(RowsOf(heap.cells, ids), self, i, fields[i])
    {
      found := false;
      for j := 0 to |columns|
        invariant found <==>
          i < j && columns[i].indexed && !fields[i].Null? && Taken(RowsOf(heap.cells, ids), self, i, fields[i])
      {
        if columns[j].indexed && !fields[j].Null? && j == i {
          found := Other(columns, fields, own, i, heap, known, ids, self);
        }
      }
    }

    method Other(columns: seq<Column>, fields: seq<Value>, own: Option<RecordAddress>, i: nat,
                 heap: H.Heap, known: set<nat>, ghost ids: map<nat, RecordAddress>, ghost self: Option<nat>)
        returns (found: bool)
      requires AllOpen(columns, trees) && |fields| == |columns| && i < |columns|
      requires heap.Valid() && IdsOk(heap.cells, ids) && columns[i].indexed && !fields[i].Null?
      requires RowsOk(columns, RowsOf(heap.cells, ids), known)
      requires TreesOk(columns, trees, RowsOf(heap.cells, ids), ids)
      requires Suits(columns[i], fields[i])
      requires own.Some? ==> self.Some? && self.value in ids && ids[self.value] == own.value
      requires own.None? ==> self.None? || self.value !in ids
      ensures found <==> Taken(RowsOf(heap.cells, ids), self, i, fields[i])
    {
      ghost var rows, tree := RowsOf(heap.cells, ids), trees[columns[i].name];
      var addresses := TreeSearch(columns[i].name, KeyOf(fields[i]));
      TakenByKey(columns, tree, rows, ids, heap.cells, self, i, fields[i], known);
      if addresses == [] || own == Some(addresses[0]) {
        return false;
      }
      ghost var id :| Backs(tree, rows, ids, i, KeyOf(fields[i]), id);
      assert Housed(heap.cells, ids, id) && heap.HasSlot(ids[id]);
      var existing := heap.ReadRecord(addresses[0], |columns|, known);
      assert RowOk(columns, rows[id], known);
      found := existing.Found? && StrictEq(existing.fields[i], fields[i]);
    }
  }

  /** A value is taken exactly when its key leads to the address of another row, and then
      that row has the very value. */
  lemma TakenByKey(columns: seq<Column>, tree: Tree, rows: Rows, ids: map<nat, RecordAddress>,
                   cells: map<RecordAddress, H.Cell>,
                   self: Option<nat>, i: nat, v: Value, known: set<nat>)
    requires IdsOk(cells, ids) && rows == RowsOf(cells, ids) && TreeOk(tree, rows, ids, i)
      && RowsOk(columns, rows, known)
    requires i < |columns| && Suits(columns[i], v) && !v.Null?
    ensures Taken(rows, self, i, v) <==>
      KeyOf(v) in tree && (self.Some? && self.value in ids ==> tree[KeyOf(v)] != ids[self.value])
    ensures forall id :: KeyOf(v) in tree && Backs(tree, rows, ids, i, KeyOf(v), id) ==> rows[id][i] == v
  {
    hide RowsOk, IdsOk, RowsOf, KeyOf, Taken, TreeOk;
    if Taken(rows, self, i, v) { TakenLeads(tree, rows, ids, cells, self, i, v); }
    forall id | KeyOf(v) in tree && Backs(tree, rows, ids, i, KeyOf(v), id) ensures rows[id][i] == v {
      BackedIsValue(columns, tree, rows, ids, i, v, id, known);
    }
    if KeyOf(v) in tree { SomeBacks(tree, rows, ids, i, KeyOf(v)); }
    if KeyOf(v) in tree && (self.Some? && self.value in ids ==> tree[KeyOf(v)] != ids[self.value]) {
      var id :| Backs(tree, rows, ids, i, KeyOf(v), id);
      IsTaken(rows, self, i, v, id);
    }
  }

  lemma SomeBacks(tree: Tree, rows: Rows, ids: map<nat, RecordAddress>, i: nat, k: int)
    requires rows.Keys == ids.Keys && TreeOk(tree, rows, ids, i) && k in tree
    ensures exists id :: Backs(tree, rows, ids, i, k, id)
  {
  }

  lemma IsTaken(rows: Rows, self: Option<nat>, i: nat, v: Value, id: nat)
    requires id in rows && self != Some(id) && i < |rows[id]| && rows[id][i] == v
    ensures Taken(rows, self, i, v)
  {
  }

  /** The row behind a key has the very value. */
  lemma BackedIsValue(columns: seq<Column>, tree: Tree, rows: Rows, ids: map<nat, RecordAddress>, i: nat, v: Value,
                      id: nat, known: set<nat>)
    requires RowsOk(columns, rows, known) && i < |columns| && Suits(columns[i], v) && !v.Null?
    requires KeyOf(v) in tree && Backs(tree, rows, ids, i, KeyOf(v), id)
    ensures rows[id][i] == v
  {
    assert RowOk(columns, rows[id], known);
    assert Suits(columns[i], rows[id][i]);
    hide RowsOk, RowOk, KeyOf, Suits;
    KeysAreValues(columns[i], rows[id][i], v);
  }

  /** A value of another row leads to its address. */
  lemma TakenLeads(tree: Tree, rows: Rows, ids: map<nat, RecordAddress>, cells: map<RecordAddress, H.Cell>,
                   self: Option<nat>, i: nat, v: Value)
    requires IdsOk(cells, ids) && rows.Keys == ids.Keys && TreeOk(tree, rows, ids, i) && !v.Null?
      && Taken(rows, self, i, v)
    ensures KeyOf(v) in tree && (self.Some? && self.value in ids ==> tree[KeyOf(v)] != ids[self.value])
  {
    hide IdsOk, KeyOf;
    var id :| id in rows && self != Some(id) && i < |rows[id]| && rows[id][i] == v;
    assert Entered(tree, rows, ids, i, id);
    if self.Some? && self.value in ids { AddressesDiffer(cells, ids, id, self.value); }
  }

  lemma AddressesDiffer(cells: map<RecordAddress, H.Cell>, ids: map<nat, RecordAddress>, x: nat, y: nat)
    requires IdsOk(cells, ids) && x in ids && y in ids && x != y
    ensures ids[x] != ids[y]
  {
    assert Housed(cells, ids, x) && Housed(cells, ids, y);
  }
}
