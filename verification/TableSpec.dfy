/** What a table stands for: its rows and its id counter, and how the id index, the column
    indexes, the heap and the journal have to agree with them. */
module TableSpec {
  import opened Bytes
  import opened LeafRun
  import opened Values
  import opened Records
  import opened TablePages
  import opened Heap
  import opened Journal

  datatype Default = NoDefault | DefaultNull | DefaultInt(value: int) | DefaultString(text: seq<byte>)

  datatype Column = Column(name: string, isInt: bool, notNull: bool, indexed: bool, default: Default)

  /** Column names differ, indexed columns are NOT NULL, and a default suits its column. */
  ghost predicate SchemaOk(columns: seq<Column>) {
    && 0 < |columns| <= 1024 * 1024
    && (forall i, j :: 0 <= i < j < |columns| ==> columns[i].name != columns[j].name)
    && (forall i :: 0 <= i < |columns| ==> columns[i].indexed ==> columns[i].notNull)
    && (forall i :: 0 <= i < |columns| ==> DefaultOk(columns[i]))
  }

  ghost predicate DefaultOk(c: Column) {
    match c.default
    case NoDefault => true
    case DefaultNull => !c.notNull
    case DefaultInt(n) => c.isInt && I32_MIN <= n <= I32_MAX
    case DefaultString(text) => !c.isInt && |text| < 0x1_0000_0000_0000_0000
  }

  type Rows = map<nat, seq<Value>>
  type Tree = map<int, RecordAddress>

  /** The logical state. */
  datatype Snapshot = Snapshot(rows: Rows, counter: nat)

  // Rows.

  predicate Suits(c: Column, v: Value) {
    match v
    case Null => !c.notNull
    case Int(_) => c.isInt
    case Str(_) => !c.isInt
  }

  ghost predicate Typed(columns: seq<Column>, fields: seq<Value>) {
    |fields| == |columns| && forall i :: 0 <= i < |columns| ==> Suits(columns[i], fields[i])
  }

  ghost predicate RowOk(columns: seq<Column>, fields: seq<Value>, known: set<nat>) {
    Typed(columns, fields) && AllFit(fields) && AllKnown(fields, known) && SizeOf(fields) <= MAX_RECORD_SIZE
  }

  /** Rows `x` and `y` do not share a value of an indexed column. */
  ghost predicate Differ(columns: seq<Column>, a: seq<Value>, b: seq<Value>) {
    forall i :: 0 <= i < |columns| && columns[i].indexed && i < |a| && i < |b| ==> a[i] != b[i]
  }

  ghost predicate RowsOk(columns: seq<Column>, rows: Rows, known: set<nat>) {
    && (forall id :: id in rows ==> RowOk(columns, rows[id], known) && id < U32_LIMIT)
    && (forall x, y :: x in rows && y in rows && x != y ==> Differ(columns, rows[x], rows[y]))
  }

  ghost predicate SnapshotOk(columns: seq<Column>, s: Snapshot, known: set<nat>) {
    RowsOk(columns, s.rows, known) && (forall id :: id in s.rows ==> id < s.counter) && s.counter < U32_LIMIT
  }

  // Making a row from the values of some columns.

  datatype MakeError = CountMismatch | ValuesMismatch | UnknownColumn(name: string)

  /** The place of the column called `name`. */
  function ColumnIndex(columns: seq<Column>, name: string): (i: Option<nat>)
    ensures i.Some? ==> i.value < |columns| && columns[i.value].name == name
    ensures i.None? <==> forall j :: 0 <= j < |columns| ==> columns[j].name != name
  {
    if columns == [] then None
    else if columns[0].name == name then Some(0)
    else
      var rest := ColumnIndex(columns[1..], name);
      assert forall j :: 0 < j < |columns| ==> columns[j] == columns[1..][j - 1];
      if rest.Some? then Some(rest.value + 1) else None
  }

  /** `v` is the default of column `c`, a string default by its id. */
  predicate IsDefault(c: Column, v: Value, view: map<nat, seq<byte>>) {
    match c.default
    case NoDefault => v == Null
    case DefaultNull => v == Null
    case DefaultInt(n) => v == Int(n)
    case DefaultString(text) => v.Str? && v.id in view && view[v.id] == text
  }

  /** Column `i` got the value given for it last, or its default when none was given. */
  ghost predicate MadeAt(columns: seq<Column>, names: seq<string>, values: seq<Value>, v: Value,
                         view: map<nat, seq<byte>>, i: nat)
    requires |names| == |values| && i < |columns|
  {
    if columns[i].name in names then
      exists k: nat :: GivenLast(names, columns[i].name, k) && v == values[k]
    else IsDefault(columns[i], v, view)
  }

  ghost predicate GivenLast(names: seq<string>, name: string, k: nat) {
    k < |names| && names[k] == name && forall l :: k < l < |names| ==> names[l] != name
  }

  ghost predicate Made(columns: seq<Column>, names: seq<string>, values: seq<Value>, fields: seq<Value>,
                       view: map<nat, seq<byte>>) {
    && |fields| == |columns|
    && if names == [] then fields == values
       else |names| == |values| && forall i :: 0 <= i < |columns| ==> MadeAt(columns, names, values, fields[i], view, i)
  }

  // Checking a new row.

  datatype Violation = NullNotAllowed(column: nat) | WrongType(column: nat) | Duplicate(column: nat)

  /** Another row has the value in column `i`. */
  ghost predicate Taken(rows: Rows, self: Option<nat>, i: nat, v: Value) {
    exists id :: id in rows && self != Some(id) && i < |rows[id]| && rows[id][i] == v
  }

  ghost function ViolationAt(columns: seq<Column>, rows: Rows, self: Option<nat>, fields: seq<Value>,
                             i: nat): Option<Violation>
    requires i < |columns| == |fields|
  {
    var c, v := columns[i], fields[i];
    if c.notNull && v.Null? then Some(NullNotAllowed(i))
    else if !Suits(c, v) then Some(WrongType(i))
    else if c.indexed && Taken(rows, self, i, v) then Some(Duplicate(i))
    else None
  }

  /** The first column from `i` on that forbids the row. */
  ghost function FirstViolation(columns: seq<Column>, rows: Rows, self: Option<nat>, fields: seq<Value>,
                                i: nat): Option<Violation>
    requires i <= |columns| == |fields|
    decreases |columns| - i
  {
    if i == |columns| then None
    else
      var v := ViolationAt(columns, rows, self, fields, i);
      if v.Some? then v else FirstViolation(columns, rows, self, fields, i + 1)
  }

  lemma {:induction false} NoViolation(columns: seq<Column>, rows: Rows, self: Option<nat>, fields: seq<Value>, i: nat)
    requires i <= |columns| == |fields|
    ensures FirstViolation(columns, rows, self, fields, i).None? <==>
      forall j :: i <= j < |columns| ==> ViolationAt(columns, rows, self, fields, j).None?
    decreases |columns| - i
  {
    if i < |columns| { NoViolation(columns, rows, self, fields, i + 1); }
  }

  /** What each violation of a column means; a NULL that is not allowed is none of a wrong type. */
  lemma ViolationSays(columns: seq<Column>, rows: Rows, self: Option<nat>, fields: seq<Value>, i: nat)
    requires i < |columns| == |fields|
    ensures var v, c, f := ViolationAt(columns, rows, self, fields, i), columns[i], fields[i];
      && (v == Some(NullNotAllowed(i)) <==> c.notNull && f == Null)
      && (v == Some(WrongType(i)) <==> if c.isInt then f.Str? else f.Int?)
      && (v == Some(Duplicate(i)) <==>
          && !(c.notNull && f == Null) && !(if c.isInt then f.Str? else f.Int?) && c.indexed
          && exists id :: id in rows && self != Some(id) && i < |rows[id]| && rows[id][i] == f)
      && (v.Some? ==> v.value in {NullNotAllowed(i), WrongType(i), Duplicate(i)})
  {
  }

  /** The violation reported is that of the first column that has one. */
  lemma {:induction false} ReportedIsFirst(columns: seq<Column>, rows: Rows, self: Option<nat>, fields: seq<Value>,
                                           i: nat, j: nat)
    requires i <= j < |columns| == |fields|
    requires ViolationAt(columns, rows, self, fields, j).Some?
    requires forall k :: i <= k < j ==> ViolationAt(columns, rows, self, fields, k).None?
    ensures FirstViolation(columns, rows, self, fields, i) == ViolationAt(columns, rows, self, fields, j)
    decreases j - i
  {
    if i < j { ReportedIsFirst(columns, rows, self, fields, i + 1, j); }
  }

  /** Validation accepts a row exactly when the rows stay well-typed and unique with it. */
  lemma ValidationIsExact(columns: seq<Column>, rows: Rows, id: nat, fields: seq<Value>, known: set<nat>)
    requires SchemaOk(columns) && RowsOk(columns, rows, known) && |fields| == |columns| && id < U32_LIMIT
    requires AllFit(fields) && AllKnown(fields, known) && SizeOf(fields) <= MAX_RECORD_SIZE
    ensures FirstViolation(columns, rows, Some(id), fields, 0).None? <==> RowsOk(columns, rows[id := fields], known)
  {
    NoViolation(columns, rows, Some(id), fields, 0);
    if forall j :: 0 <= j < |columns| ==> ViolationAt(columns, rows, Some(id), fields, j).None? {
      AcceptedIsOk(columns, rows, id, fields, known);
    }
    if RowsOk(columns, rows[id := fields], known) {
      forall j | 0 <= j < |columns| ensures ViolationAt(columns, rows, Some(id), fields, j).None? {
        OkIsAccepted(columns, rows, id, fields, known, j);
      }
    }
  }

  /** What validation lets through has numbers and texts in the columns for them, and NULL
      only where it is allowed. */
  lemma AcceptedIsTyped(columns: seq<Column>, rows: Rows, self: Option<nat>, fields: seq<Value>, i: nat)
    requires i < |columns| == |fields| && FirstViolation(columns, rows, self, fields, 0).None?
    ensures if columns[i].isInt then !fields[i].Str? else !fields[i].Int?
    ensures columns[i].notNull ==> !fields[i].Null?
  {
    NoViolation(columns, rows, self, fields, 0);
    assert ViolationAt(columns, rows, self, fields, i).None?;
  }

  /** The default of a column is no violation, unless there is none and NULL is forbidden. */
  lemma DefaultSuits(c: Column, v: Value, view: map<nat, seq<byte>>)
    requires DefaultOk(c) && IsDefault(c, v, view)
    ensures Suits(c, v) <==> !(c.default.NoDefault? && c.notNull)
  {
  }

  lemma AcceptedIsOk(columns: seq<Column>, rows: Rows, id: nat, fields: seq<Value>, known: set<nat>)
    requires RowsOk(columns, rows, known) && |fields| == |columns| && id < U32_LIMIT
    requires AllFit(fields) && AllKnown(fields, known) && SizeOf(fields) <= MAX_RECORD_SIZE
    requires forall j :: 0 <= j < |columns| ==> ViolationAt(columns, rows, Some(id), fields, j).None?
    ensures RowsOk(columns, rows[id := fields], known)
  {
    AcceptedDiffers(columns, rows, id, fields);
    var u := rows[id := fields];
    forall j | 0 <= j < |columns| ensures Suits(columns[j], fields[j]) {
      assert ViolationAt(columns, rows, Some(id), fields, j).None?;
    }
    hide ViolationAt;
    forall x, y | x in u && y in u && x != y ensures Differ(columns, u[x], u[y]) {
      if x == id {
        assert Differ(columns, fields, rows[y]);
      } else if y == id {
        assert Differ(columns, fields, rows[x]);
      }
    }
  }

  lemma OkIsAccepted(columns: seq<Column>, rows: Rows, id: nat, fields: seq<Value>, known: set<nat>, j: nat)
    requires |fields| == |columns| && j < |columns| && RowsOk(columns, rows[id := fields], known)
    ensures ViolationAt(columns, rows, Some(id), fields, j).None?
  {
    var u := rows[id := fields];
    assert u[id] == fields && Suits(columns[j], fields[j]);
    if Taken(rows, Some(id), j, fields[j]) {
      var x :| x in rows && Some(id) != Some(x) && j < |rows[x]| && rows[x][j] == fields[j];
      assert u[x] == rows[x] && Differ(columns, u[id], u[x]);
    }
  }

  lemma AcceptedDiffers(columns: seq<Column>, rows: Rows, id: nat, fields: seq<Value>)
    requires |fields| == |columns|
    requires forall j :: 0 <= j < |columns| ==> ViolationAt(columns, rows, Some(id), fields, j).None?
    ensures forall x :: x in rows && x != id ==> Differ(columns, fields, rows[x])
  {
    forall x, j | x in rows && x != id && 0 <= j < |columns| && columns[j].indexed && j < |rows[x]|
      ensures fields[j] != rows[x][j]
    {
      assert ViolationAt(columns, rows, Some(id), fields, j).None?;
      assert fields[j] == rows[x][j] ==> Taken(rows, Some(id), j, fields[j]);
    }
  }

  // Indexes.

  function KeyOf(v: Value): int {
    match v
    case Null => 0
    case Int(n) => n
    case Str(id) => id
  }

  /** The entry of row `id` in the index of column `i`. */
  ghost predicate Entered(tree: Tree, rows: Rows, ids: map<nat, RecordAddress>, i: nat, id: nat)
    requires id in rows && id in ids
  {
    i < |rows[id]| && !rows[id][i].Null? ==> KeyOf(rows[id][i]) in tree && tree[KeyOf(rows[id][i])] == ids[id]
  }

  ghost predicate Backs(tree: Tree, rows: Rows, ids: map<nat, RecordAddress>, i: nat, k: int, id: nat)
    requires k in tree
  {
    id in rows && id in ids && i < |rows[id]| && !rows[id][i].Null? && KeyOf(rows[id][i]) == k && tree[k] == ids[id]
  }

  /** The index maps exactly the values of the column to the addresses of their rows. */
  ghost predicate TreeOk(tree: Tree, rows: Rows, ids: map<nat, RecordAddress>, i: nat)
    requires rows.Keys == ids.Keys
  {
    && (forall id :: id in rows ==> Entered(tree, rows, ids, i, id))
    && (forall k :: k in tree ==> exists id :: Backs(tree, rows, ids, i, k, id))
  }

  ghost predicate TreesOk(columns: seq<Column>, trees: map<string, Tree>, rows: Rows, ids: map<nat, RecordAddress>)
    requires rows.Keys == ids.Keys
  {
    forall i :: 0 <= i < |columns| && columns[i].indexed ==>
      columns[i].name in trees && TreeOk(trees[columns[i].name], rows, ids, i)
  }

  /** What storing, dropping and replacing a row does to the tree of its column. */
  function Entering(tree: Tree, v: Value, a: RecordAddress): Tree {
    if v.Null? then tree else tree[KeyOf(v) := a]
  }

  function Leaving(tree: Tree, v: Value): Tree {
    if v.Null? then tree else tree - {KeyOf(v)}
  }

  lemma EnteringOk(tree: Tree, rows: Rows, ids: map<nat, RecordAddress>, i: nat, id: nat,
                   fields: seq<Value>, a: RecordAddress)
    requires rows.Keys == ids.Keys && TreeOk(tree, rows, ids, i) && id !in rows && i < |fields|
    requires fields[i].Null? || KeyOf(fields[i]) !in tree
    ensures TreeOk(Entering(tree, fields[i], a), rows[id := fields], ids[id := a], i)
  {
    var u, r, s := Entering(tree, fields[i], a), rows[id := fields], ids[id := a];
    forall x | x in r ensures Entered(u, r, s, i, x) {
      if x != id { assert Entered(tree, rows, ids, i, x); }
    }
    forall k | k in u ensures exists x :: Backs(u, r, s, i, k, x) {
      if k in tree {
        var x :| Backs(tree, rows, ids, i, k, x);
        assert Backs(u, r, s, i, k, x);
      } else {
        assert Backs(u, r, s, i, k, id);
      }
    }
  }

  lemma LeavingOk(tree: Tree, rows: Rows, ids: map<nat, RecordAddress>, i: nat, id: nat)
    requires rows.Keys == ids.Keys && TreeOk(tree, rows, ids, i) && id in rows && i < |rows[id]|
    requires forall x :: x in rows && x != id && i < |rows[x]| && !rows[x][i].Null? ==>
      KeyOf(rows[x][i]) != KeyOf(rows[id][i]) || rows[id][i].Null?
    ensures TreeOk(Leaving(tree, rows[id][i]), rows - {id}, ids - {id}, i)
  {
    var u, r, s := Leaving(tree, rows[id][i]), rows - {id}, ids - {id};
    forall x | x in r ensures Entered(u, r, s, i, x) {
      assert Entered(tree, rows, ids, i, x);
    }
    forall k | k in u ensures exists x :: Backs(u, r, s, i, k, x) {
      var x :| Backs(tree, rows, ids, i, k, x);
      assert Backs(u, r, s, i, k, x);
    }
  }

  /** In a column whose values all suit it, equal keys are equal values. */
  lemma KeysAreValues(c: Column, v: Value, w: Value)
    requires Suits(c, v) && Suits(c, w) && !v.Null? && !w.Null?
    ensures KeyOf(v) == KeyOf(w) <==> v == w
  {
  }

  // The heap and the id index.

  ghost predicate Housed(cells: map<RecordAddress, Cell>, ids: map<nat, RecordAddress>, id: nat)
    requires id in ids
  {
    ids[id] in cells && !cells[ids[id]].deleted && cells[ids[id]].id == id
  }

  /** The id index leads exactly to the cells that are not deleted. */
  ghost predicate IdsOk(cells: map<RecordAddress, Cell>, ids: map<nat, RecordAddress>) {
    && (forall id :: id in ids ==> Housed(cells, ids, id))
    && (forall a :: a in cells && !cells[a].deleted ==> cells[a].id in ids && ids[cells[a].id] == a)
  }

  ghost function RowsOf(cells: map<RecordAddress, Cell>, ids: map<nat, RecordAddress>): (rows: Rows)
    requires IdsOk(cells, ids)
    ensures rows.Keys == ids.Keys
  {
    map id | id in ids :: assert Housed(cells, ids, id); cells[ids[id]].fields
  }

  lemma RowAdded(cells: map<RecordAddress, Cell>, ids: map<nat, RecordAddress>, a: RecordAddress,
                 id: nat, fields: seq<Value>)
    requires IdsOk(cells, ids) && a !in cells && id !in ids
    ensures var c, s := cells[a := Cell(id, fields, false)], ids[id := a];
      IdsOk(c, s) && RowsOf(c, s) == RowsOf(cells, ids)[id := fields]
  {
    var c, s := cells[a := Cell(id, fields, false)], ids[id := a];
    forall x | x in s ensures Housed(c, s, x) {
      if x != id { assert Housed(cells, ids, x); }
    }
    forall x | x in ids ensures RowsOf(c, s)[x] == RowsOf(cells, ids)[x] { assert Housed(cells, ids, x); }
  }

  lemma RowDropped(cells: map<RecordAddress, Cell>, ids: map<nat, RecordAddress>, id: nat)
    requires IdsOk(cells, ids) && id in ids
    ensures Housed(cells, ids, id)
    ensures var a := ids[id]; var c, s := cells[a := cells[a].(deleted := true)], ids - {id};
      IdsOk(c, s) && RowsOf(c, s) == RowsOf(cells, ids) - {id}
  {
    assert Housed(cells, ids, id);
    var a := ids[id];
    var c, s := cells[a := cells[a].(deleted := true)], ids - {id};
    forall x | x in s ensures Housed(c, s, x) {
      assert Housed(cells, ids, x);
    }
    forall x | x in s ensures RowsOf(c, s)[x] == RowsOf(cells, ids)[x] { assert Housed(cells, ids, x); }
  }

  // History.

  /** `before` is what undoing `t` makes of `after`. */
  ghost predicate Undoes(t: Track, before: Snapshot, after: Snapshot) {
    match t.kind
    case Delete =>
      t.id in after.rows && after.counter == t.id + 1 && before == Snapshot(after.rows - {t.id}, t.id)
    case Update =>
      t.id in after.rows && before == Snapshot(after.rows[t.id := t.fields], after.counter)
    case Insert =>
      t.id !in after.rows && before == Snapshot(after.rows[t.id := t.fields], after.counter)
  }

  /** The state before operation `k`, or the present one. */
  ghost function StateAt(past: seq<Snapshot>, now: Snapshot, k: nat): Snapshot {
    if k < |past| then past[k] else now
  }

  ghost predicate StepOk(columns: seq<Column>, past: seq<Snapshot>, tracks: seq<Track>,
                         now: Snapshot, known: set<nat>, k: nat)
    requires k < |past| == |tracks|
  {
    && SnapshotOk(columns, past[k], known)
    && Undoes(tracks[k], past[k], StateAt(past, now, k + 1))
    && (tracks[k].kind.Delete? || (|tracks[k].fields| == |columns| && AllKnown(tracks[k].fields, known)))
  }

  /** Every track of the journal undoes its operation, back to each state of the past. */
  ghost predicate HistoryOk(columns: seq<Column>, past: seq<Snapshot>, tracks: seq<Track>,
                            now: Snapshot, known: set<nat>) {
    |past| == |tracks| && forall k :: 0 <= k < |past| ==> StepOk(columns, past, tracks, now, known, k)
  }

  lemma HistoryGrows(columns: seq<Column>, past: seq<Snapshot>, tracks: seq<Track>, now: Snapshot, known: set<nat>,
                     t: Track, next: Snapshot)
    requires HistoryOk(columns, past, tracks, now, known) && SnapshotOk(columns, now, known) && Undoes(t, now, next)
    requires t.kind.Delete? || (|t.fields| == |columns| && AllKnown(t.fields, known))
    ensures HistoryOk(columns, past + [now], tracks + [t], next, known)
  {
    forall k | 0 <= k < |past| + 1 ensures StepOk(columns, past + [now], tracks + [t], next, known, k) {
      if k < |past| { assert StepOk(columns, past, tracks, now, known, k); }
    }
  }

  lemma HistoryShrinks(columns: seq<Column>, past: seq<Snapshot>, tracks: seq<Track>, now: Snapshot, known: set<nat>)
    requires HistoryOk(columns, past, tracks, now, known) && past != []
    ensures var n := |past| - 1;
      && HistoryOk(columns, past[..n], tracks[..n], past[n], known)
      && SnapshotOk(columns, past[n], known) && Undoes(tracks[n], past[n], now)
      && (tracks[n].kind.Delete? || (|tracks[n].fields| == |columns| && AllKnown(tracks[n].fields, known)))
  {
    var n := |past| - 1;
    assert StepOk(columns, past, tracks, now, known, n);
    forall k | 0 <= k < n ensures StepOk(columns, past[..n], tracks[..n], past[n], known, k) {
      assert StepOk(columns, past, tracks, now, known, k);
    }
  }

  lemma HistoryLearns(columns: seq<Column>, past: seq<Snapshot>, tracks: seq<Track>, now: Snapshot,
                      known: set<nat>, more: set<nat>)
    requires HistoryOk(columns, past, tracks, now, known) && known <= more
    ensures HistoryOk(columns, past, tracks, now, more)
  {
    forall k | 0 <= k < |past| ensures StepOk(columns, past, tracks, now, more, k) {
      assert StepOk(columns, past, tracks, now, known, k);
      SnapshotLearns(columns, past[k], known, more);
    }
  }

  lemma SnapshotLearns(columns: seq<Column>, s: Snapshot, known: set<nat>, more: set<nat>)
    requires SnapshotOk(columns, s, known) && known <= more
    ensures SnapshotOk(columns, s, more)
  {
    forall id | id in s.rows ensures RowOk(columns, s.rows[id], more) {
      assert RowOk(columns, s.rows[id], known);
    }
  }

  // How far a revert goes.

  /** The tracks that remain: all up to the last one older than `time`. */
  ghost function Kept(tracks: seq<Track>, time: seq<byte>): (k: nat)
    ensures k <= |tracks|
  {
    if tracks == [] || LexLess(tracks[|tracks| - 1].time, time) then |tracks| else Kept(tracks[..|tracks| - 1], time)
  }

  ghost predicate NonDecreasing(tracks: seq<Track>) {
    forall i, j :: 0 <= i < j < |tracks| ==> !LexLess(tracks[j].time, tracks[i].time)
  }

  /** Every operation before `k` is stamped before `time`, and none from `k` on. */
  ghost predicate SplitAt(tracks: seq<Track>, k: nat, time: seq<byte>) {
    && k <= |tracks|
    && (forall i :: 0 <= i < k ==> LexLess(tracks[i].time, time))
    && (forall i :: k <= i < |tracks| ==> !LexLess(tracks[i].time, time))
  }

  /** With stamps that do not go back, that is just before the first operation stamped `time`
      or later. */
  lemma {:induction false} KeptIsFirst(tracks: seq<Track>, time: seq<byte>)
    requires NonDecreasing(tracks)
    ensures SplitAt(tracks, Kept(tracks, time), time)
    decreases |tracks|
  {
    if tracks != [] {
      var n := |tracks| - 1;
      if LexLess(tracks[n].time, time) {
        forall i | 0 <= i < n ensures LexLess(tracks[i].time, time) {
          LexOrder(tracks[i].time, tracks[n].time, time);
        }
      } else {
        KeptIsFirst(tracks[..n], time);
      }
    }
  }
}
