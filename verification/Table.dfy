/** A table: rows in a heap, an index by id and one by each indexed column, and a journal
    that can take every operation back. */
module Table {
  import opened Bytes
  import opened LeafRun
  import opened Values
  import opened Records
  import opened TablePages
  import opened TableSpec
  import opened BatchSpec
  import opened IndexSet
  import H = Heap
  import J = Journal
  import I = Interner

  datatype Record = Record(id: nat, fields: seq<Value>, address: RecordAddress)

  datatype Fields = Fields(fields: seq<Value>) | NoFields(error: MakeError)

  datatype InsertOutcome =
    | InsertNotMade(error: MakeError)
    | Inserted(id: nat, address: RecordAddress)
    | InsertRejected(violation: Violation)
    | InsertTooLarge

  datatype UpdateOutcome = Updated(address: RecordAddress) | UpdateRejected(violation: Violation) | UpdateTooLarge

  /** Where a batch of operations starts. */
  datatype Start = Start(now: Snapshot, past: seq<Snapshot>, tracks: seq<J.Track>)

  class Table {
    const columns: seq<Column>
    const heap: H.Heap
    const journal: J.Journal
    const interner: I.Interner
    const indexes: IndexSet
    var recordIdCount: nat
    var idToAddr: map<nat, RecordAddress>
    /** The states just before the operations the journal holds. */
    ghost var past: seq<Snapshot>

    ghost function KnownIds(): set<nat>
      reads interner
    {
      interner.idToView.Keys
    }

    ghost function TableRows(): (rows: Rows)
      requires IdsOk(heap.cells, idToAddr)
      reads `idToAddr, heap
      ensures rows.Keys == idToAddr.Keys
    {
      RowsOf(heap.cells, idToAddr)
    }

    /** Heap, id index and column indexes agree on one set of well-typed, unique rows. */
    ghost predicate Agree()
      reads `idToAddr, heap, indexes, interner
    {
      && SchemaOk(columns) && heap.Valid() && interner.Valid()
      && IdsOk(heap.cells, idToAddr)
      && TreesOk(columns, indexes.trees, TableRows(), idToAddr)
      && RowsOk(columns, TableRows(), KnownIds())
    }

    ghost function Now(): Snapshot
      requires IdsOk(heap.cells, idToAddr)
      reads this, heap
    {
      Snapshot(TableRows(), recordIdCount)
    }

    ghost predicate Valid()
      reads this, heap, indexes, interner, journal
    {
      && Agree() && journal.Valid()
      && SnapshotOk(columns, Now(), KnownIds())
      && HistoryOk(columns, past, journal.tracks, Now(), KnownIds())
    }

    constructor (columns: seq<Column>)
      requires SchemaOk(columns)
      ensures Valid() && this.columns == columns && Now() == Snapshot(map[], 0) && past == []
    {
      EmptyFiles();
      hide J.FileOf, I.StringFile, J.AllOk, I.TextsOk;
      this.columns := columns;
      heap := new H.Heap([]);
      journal := new J.Journal([], []);
      interner := new I.Interner([], []);
      indexes := new IndexSet.Open(columns);
      recordIdCount, idToAddr, past := 0, map[], [];
      new;
      hide SchemaOk, H.Heap.Valid, J.Journal.Valid, I.Interner.Valid;
      assert RowsOf(heap.cells, idToAddr) == map[];
    }

    // Storing, dropping and replacing rows.

    /** Write the record, then enter it in the column indexes and the id index. */
    method StoreRow(id: nat, fields: seq<Value>) returns (a: Option<RecordAddress>)
      requires Agree() && id !in idToAddr && id < U32_LIMIT && |heap.pages| < U32_LIMIT
      requires AllFit(fields)
      requires SizeOf(fields) <= MAX_RECORD_SIZE ==> RowsOk(columns, TableRows()[id := fields], KnownIds())
      modifies `idToAddr, heap, indexes
      ensures a.None? <==> SizeOf(fields) > MAX_RECORD_SIZE
      ensures a.None? ==> heap.cells == old(heap.cells) && idToAddr == old(idToAddr) && Agree()
      ensures a.Some? ==>
        Agree() && TableRows() == old(TableRows())[id := fields] && idToAddr == old(idToAddr)[id := a.value]
      ensures |heap.pages| <= |old(heap.pages)| + 1
    {
      hide TreesOk, RowsOk, IdsOk, RowsOf;
      ghost var cells, ids, rows, trees := heap.cells, idToAddr, TableRows(), indexes.trees;
      a := heap.WriteRecord(id, fields, 0);
      if a.None? {
        return;
      }
      RowAdded(cells, ids, a.value, id, fields);
      NewIsFree(columns, trees, rows, ids, id, fields, KnownIds());
      indexes.Insert(columns, fields, a.value);
      TreesAfterInsert(columns, trees, indexes.trees, rows, ids, id, fields, a.value, KnownIds());
      idToAddr := idToAddr[id := a.value];
    }

    /** Mark the record deleted, then take it out of the column indexes and the id index. */
    method DropRow(id: nat, fields: seq<Value>)
      requires Agree() && id in idToAddr && fields == TableRows()[id]
      modifies `idToAddr, heap, indexes
      ensures Agree() && TableRows() == old(TableRows()) - {id} && idToAddr == old(idToAddr) - {id}
      ensures |heap.pages| == |old(heap.pages)|
    {
      hide TreesOk, RowsOk, IdsOk, RowsOf;
      ghost var cells, ids, rows, trees := heap.cells, idToAddr, TableRows(), indexes.trees;
      RowDropped(cells, ids, id);
      RowWidth(columns, rows, id, KnownIds());
      TreesOpen(columns, trees, rows, ids);
      heap.DeleteRecord(idToAddr[id]);
      indexes.Remove(columns, fields);
      TreesAfterRemove(columns, trees, indexes.trees, rows, ids, id, KnownIds());
      idToAddr := idToAddr - {id};
      FewerRows(columns, rows, id, KnownIds());
    }

    /** The old record is marked deleted and the new one written, to the same page if it has
        room; then the indexes follow. A record too large for any page leaves the row lost. */
    method ReplaceRow(id: nat, before: seq<Value>, fields: seq<Value>) returns (a: Option<RecordAddress>)
      requires Agree() && id in idToAddr && id < U32_LIMIT && before == TableRows()[id] && |heap.pages| < U32_LIMIT
      requires AllFit(fields)
      requires SizeOf(fields) <= MAX_RECORD_SIZE ==> RowsOk(columns, TableRows()[id := fields], KnownIds())
      modifies `idToAddr, heap, indexes
      ensures a.None? <==> SizeOf(fields) > MAX_RECORD_SIZE
      ensures a.None? ==> idToAddr == old(idToAddr) && !Housed(heap.cells, idToAddr, id)
      ensures a.Some? ==>
        Agree() && TableRows() == old(TableRows())[id := fields] && idToAddr == old(idToAddr)[id := a.value]
      ensures |heap.pages| <= |old(heap.pages)| + 1
    {
      hide TreesOk, RowsOk, IdsOk, RowsOf;
      ghost var cells, ids, rows, trees := heap.cells, idToAddr, TableRows(), indexes.trees;
      RowDropped(cells, ids, id);
      RowWidth(columns, rows, id, KnownIds());
      var oldAddress := idToAddr[id];
      heap.DeleteRecord(oldAddress);
      ghost var fewer := heap.cells;
      a := heap.WriteRecord(id, fields, oldAddress.pageIndex);
      if a.None? {
        return;
      }
      RowAdded(fewer, ids - {id}, a.value, id, fields);
      ReplacedIsFree(columns, trees, rows, ids, id, fields, KnownIds());
      indexes.Update(columns, before, oldAddress, fields, a.value);
      TreesAfterReplace(columns, trees, indexes.trees, rows, ids, id, fields, a.value, KnownIds());
      idToAddr := idToAddr[id := a.value];
      PutBack(rows, id, fields);
      PutBack(ids, id, a.value);
    }

    // Making records.

    /** A text gets an id; the table does not change. */
    method Intern(text: seq<byte>) returns (id: nat)
      requires Valid() && |text| < I.U64_LIMIT && interner.nextId + 1 < U32_LIMIT
      modifies interner
      ensures Valid() && Now() == old(Now()) && id in interner.idToView
        && interner.idToView[id] == text && id < U32_LIMIT
      ensures interner.nextId == old(interner.nextId) + if text in old(interner.stringToId) then 0 else 1
      ensures interner.stringToId.Keys == old(interner.stringToId).Keys + {text}
      ensures I.Extends(old(interner.idToView), interner.idToView)
    {
      hide TreesOk, IdsOk, RowsOf, RowsOk, SnapshotOk, HistoryOk, J.Journal.Valid, H.Heap.Valid,
        I.Interner.Valid, SchemaOk;
      ghost var known := KnownIds();
      id := interner.Intern(text);
      RowsLearn(columns, TableRows(), known, KnownIds());
      SnapshotLearns(columns, Now(), known, KnownIds());
      HistoryLearns(columns, past, journal.tracks, Now(), known, KnownIds());
    }

    method DefaultValue(c: Column) returns (v: Value)
      requires Valid() && c in columns && interner.nextId + 1 < U32_LIMIT
      modifies interner
      ensures Valid() && Now() == old(Now()) && interner.nextId <= old(interner.nextId) + 1
      ensures I.Extends(old(interner.idToView), interner.idToView)
      ensures IsDefault(c, v, interner.idToView) && Fits(v) && Known(v, KnownIds())
    {
      DefaultsFit(columns, c);
      match c.default
      case NoDefault => v := Null;
      case DefaultNull => v := Null;
      case DefaultInt(n) => v := Int(n);
      case DefaultString(text) =>
        var id := Intern(text);
        v := Str(id);
    }

    /** The places of the named columns, or the first name there is no column for. */
    method ResolveColumnIndices(names: seq<string>) returns (indices: seq<nat>, unknown: Option<string>)
      ensures unknown.None? ==>
        |indices| == |names| && forall k :: 0 <= k < |names| ==>
          indices[k] < |columns| && columns[indices[k]].name == names[k]
      ensures unknown.Some? ==> unknown.value in names && forall j :: 0 <= j < |columns| ==>
        columns[j].name != unknown.value
    {
      indices := [];
      for k := 0 to |names|
        invariant |indices| == k
        invariant forall l :: 0 <= l < k ==> indices[l] < |columns| && columns[indices[l]].name == names[l]
      {
        var i := ColumnIndex(columns, names[k]);
        if i.None? {
          return indices, Some(names[k]);
        }
        indices := indices + [i.value];
      }
      unknown := None;
    }

    /** The fields of a new record. */
    method MakeRecord(values: seq<Value>, names: seq<string>) returns (r: Fields)
      requires Valid() && AllFit(values) && AllKnown(values, KnownIds()) && interner.nextId + |columns| + 1 < U32_LIMIT
      modifies interner
      ensures Valid() && Now() == old(Now())
      ensures r.NoFields? <==> NotMakeable(columns, names, values)
      ensures r.Fields? ==> Made(columns, names, values, r.fields, interner.idToView)
      ensures r.Fields? ==> AllFit(r.fields) && AllKnown(r.fields, KnownIds())
      ensures I.Extends(old(interner.idToView), interner.idToView)
        && interner.nextId <= old(interner.nextId) + |columns|
    {
      hide TreesOk, IdsOk, RowsOf, RowsOk, SnapshotOk, HistoryOk, J.Journal.Valid;
      if names == [] {
        return if |values| != |columns| then NoFields(CountMismatch) else Fields(values);
      }
      if |values| != |names| {
        return NoFields(ValuesMismatch);
      }
      var indices, unknown := ResolveColumnIndices(names);
      if unknown.Some? {
        return NoFields(UnknownColumn(unknown.value));
      }
      var fields := ApplyDefaults(indices);
      fields := UpdateColumns(fields, values, indices);
      r := Fields(fields);
      MadeFromIndices(columns, names, values, indices, fields, interner.idToView);
    }

    method ApplyDefaults(indices: seq<nat>) returns (fields: seq<Value>)
      requires Valid() && interner.nextId + |columns| + 1 < U32_LIMIT
      modifies interner
      ensures Valid() && Now() == old(Now()) && AllFit(fields) && AllKnown(fields, KnownIds())
      ensures I.Extends(old(interner.idToView), interner.idToView)
      ensures Defaulted(fields, |columns|, indices, interner.idToView)
        && interner.nextId <= old(interner.nextId) + |columns|
    {
      hide Valid, Now, Defaulted, Agree, IdsOk, AllFit, AllKnown, I.Extends;
      ValidFacts();
      NullsFit(|columns|, KnownIds());
      ExtendsItself(interner.idToView);
      fields := Nulls(|columns|);
      NothingDefaulted(indices, interner.idToView);
      for i := 0 to |columns|
        invariant Valid() && IdsOk(heap.cells, idToAddr) && Now() == old(Now())
          && interner.nextId <= old(interner.nextId) + i
        invariant AllFit(fields) && AllKnown(fields, KnownIds()) && I.Extends(old(interner.idToView), interner.idToView)
        invariant Defaulted(fields, i, indices, interner.idToView)
      {
        ghost var view := interner.idToView;
        fields := ApplyDefault(fields, i, indices);
        ExtendsOn(old(interner.idToView), view, interner.idToView);
        ValidFacts();
      }
    }

    /** The first `n` columns that are not among the given ones have their defaults, and the
        other columns nothing yet. */
    ghost predicate Defaulted(fields: seq<Value>, n: nat, indices: seq<nat>, view: map<nat, seq<byte>>)
      requires n <= |columns|
    {
      && |fields| == |columns|
      && (forall j :: 0 <= j < n && j !in indices ==> IsDefault(columns[j], fields[j], view))
      && (forall j :: n <= j < |columns| ==> fields[j] == Null)
    }

    lemma NullsFit(n: nat, known: set<nat>)
      ensures AllFit(Nulls(n)) && AllKnown(Nulls(n), known)
    {
    }

    lemma NothingDefaulted(indices: seq<nat>, view: map<nat, seq<byte>>)
      ensures Defaulted(Nulls(|columns|), 0, indices, view)
    {
    }

    method ApplyDefault(start: seq<Value>, i: nat, indices: seq<nat>) returns (fields: seq<Value>)
      requires Valid() && i < |columns| && interner.nextId + 1 < U32_LIMIT
      requires AllFit(start) && AllKnown(start, KnownIds()) && Defaulted(start, i, indices, interner.idToView)
      modifies interner
      ensures Valid() && Now() == old(Now()) && interner.nextId <= old(interner.nextId) + 1
      ensures AllFit(fields) && AllKnown(fields, KnownIds()) && I.Extends(old(interner.idToView), interner.idToView)
      ensures Defaulted(fields, i + 1, indices, interner.idToView)
    {
      hide Valid, Now;
      fields := start;
      ghost var before := interner.idToView;
      if columns[i].default != NoDefault && i !in indices {
        var v := DefaultValue(columns[i]);
        DefaultsStay(columns, start, before, interner.idToView);
        fields := fields[i := v];
      }
    }

    // The operations.

    /** What is wrong with the fields of a new record, or of the record at `own`. */
    method ValidateRecord(fields: seq<Value>, own: Option<RecordAddress>, ghost self: nat)
      returns (v: Option<Violation>)
      requires Agree() && |fields| == |columns|
      requires own.Some? ==> self in idToAddr && idToAddr[self] == own.value
      requires own.None? ==> self !in idToAddr
      ensures v == FirstViolation(columns, TableRows(), Some(self), fields, 0)
    {
      hide TreesOk, RowsOk, IdsOk, RowsOf, Taken;
      TreesOpen(columns, indexes.trees, TableRows(), idToAddr);
      ghost var all := FirstViolation(columns, TableRows(), Some(self), fields, 0);
      for i := 0 to |columns|
        invariant all == FirstViolation(columns, TableRows(), Some(self), fields, i)
      {
        var c, value := columns[i], fields[i];
        if c.notNull && value.Null? {
          return Some(NullNotAllowed(i));
        }
        if !value.Null? && ((c.isInt && !value.Int?) || (!c.isInt && !value.Str?)) {
          return Some(WrongType(i));
        }
        if c.indexed {
          var found := indexes.HasDuplicate(columns, fields, own, i, heap,
                                            interner.idToView.Keys, idToAddr, Some(self));
          if found {
            return Some(Duplicate(i));
          }
        }
      }
      v := None;
    }

    /** The state before an operation joins the past. */
    ghost method Remember(state: Snapshot, t: J.Track, rest: seq<J.Track>)
      requires Agree() && journal.Valid() && journal.tracks == rest + [t]
      requires SnapshotOk(columns, Now(), KnownIds()) && SnapshotOk(columns, state, KnownIds())
      requires HistoryOk(columns, past, rest, state, KnownIds()) && Undoes(t, state, Now())
      requires t.kind.Delete? || (|t.fields| == |columns| && AllKnown(t.fields, KnownIds()))
      modifies `past
      ensures Valid() && past == old(past) + [state]
    {
      hide Agree, SnapshotOk, HistoryOk, Undoes, J.Journal.Valid, AllKnown;
      AgreeFacts();
      HistoryGrows(columns, past, rest, state, KnownIds(), t, Now());
      past := past + [state];
    }

    /** A checked record gets the next id. One too large for a page is refused only after the
        journal and the counter have moved on, and its track undoes nothing. */
    method InsertRow(fields: seq<Value>, now: seq<byte>) returns (outcome: InsertOutcome)
      requires Valid() && |fields| == |columns| && AllFit(fields) && AllKnown(fields, KnownIds())
      requires |now| == J.TIME_LEN && recordIdCount + 1 < U32_LIMIT && |heap.pages| < U32_LIMIT
      modifies `recordIdCount, `idToAddr, `past, heap, indexes, journal
      ensures var v := FirstViolation(columns, old(TableRows()), Some(old(recordIdCount)), fields, 0);
        match outcome
        case InsertNotMade(_) => false
        case InsertRejected(w) =>
          && v == Some(w) && Valid() && Now() == old(Now()) && past == old(past)
          && journal.tracks == old(journal.tracks)
          && idToAddr == old(idToAddr)
        case Inserted(id, a) =>
          && v.None? && SizeOf(fields) <= MAX_RECORD_SIZE && id == old(recordIdCount)
          && Valid() && Now() == Snapshot(old(TableRows())[id := fields], id + 1)
          && idToAddr == old(idToAddr)[id := a]
          && past == old(past) + [old(Now())]
          && journal.tracks == old(journal.tracks) + [J.Track(now, J.Delete, id, [])]
        case InsertTooLarge =>
          && v.None? && SizeOf(fields) > MAX_RECORD_SIZE
          && Agree() && Now() == Snapshot(old(TableRows()), old(recordIdCount) + 1)
          && journal.tracks == old(journal.tracks) + [J.Track(now, J.Delete, old(recordIdCount), [])]
          && !(exists before :: Undoes(J.Track(now, J.Delete, old(recordIdCount), []), before, Now()))
          && past == old(past) && idToAddr == old(idToAddr)
      ensures |heap.pages| <= |old(heap.pages)| + 1
    {
      hide TreesOk, RowsOk, IdsOk, RowsOf, SnapshotOk, J.Journal.Valid, J.TrackOk, Agree, HistoryOk, FirstViolation;
      AgreeFacts();
      ghost var rows, state, known := TableRows(), Now(), KnownIds();
      var id := recordIdCount;
      Fresh(state);
      var v := ValidateRecord(fields, None, id);
      if v.Some? {
        return InsertRejected(v.value);
      }
      journal.SaveInsertion(now, id);
      recordIdCount := recordIdCount + 1;
      if SizeOf(fields) <= MAX_RECORD_SIZE { ValidationIsExact(columns, rows, id, fields, known); }
      var a := StoreRow(id, fields);
      if a.None? {
        AgreeFacts();
        return InsertTooLarge;
      }
      AgreeFacts();
      SnapshotAfterInsert(columns, state, fields, known);
      Remember(state, J.Track(now, J.Delete, id, []), old(journal.tracks));
      outcome := Inserted(id, a.value);
    }

    /** A record is made and inserted. A string default it needs may be interned even when it
        is rejected. */
    method InsertRecord(values: seq<Value>, names: seq<string>, now: seq<byte>)
      returns (outcome: InsertOutcome, fields: seq<Value>)
      requires Valid() && AllFit(values) && AllKnown(values, KnownIds()) && interner.nextId + |columns| + 1 < U32_LIMIT
      requires |now| == J.TIME_LEN && recordIdCount + 1 < U32_LIMIT && |heap.pages| < U32_LIMIT
      modifies `recordIdCount, `idToAddr, `past, heap, indexes, journal, interner
      ensures outcome.InsertNotMade? <==> NotMakeable(columns, names, values)
      ensures !outcome.InsertNotMade? ==>
        |fields| == |columns| && Made(columns, names, values, fields, interner.idToView)
      ensures I.Extends(old(interner.idToView), interner.idToView)
        && interner.nextId <= old(interner.nextId) + |columns|
      ensures |heap.pages| <= |old(heap.pages)| + 1
      ensures match outcome
        case InsertNotMade(_) =>
          && Valid() && Now() == old(Now()) && past == old(past) && journal.tracks == old(journal.tracks)
          && idToAddr == old(idToAddr)
        case InsertRejected(w) =>
          && FirstViolation(columns, old(TableRows()), Some(old(recordIdCount)), fields, 0) == Some(w)
          && Valid() && Now() == old(Now()) && past == old(past) && journal.tracks == old(journal.tracks)
          && idToAddr == old(idToAddr)
        case Inserted(id, a) =>
          && FirstViolation(columns, old(TableRows()), Some(old(recordIdCount)), fields, 0).None?
          && SizeOf(fields) <= MAX_RECORD_SIZE && id == old(recordIdCount)
          && Valid() && Now() == Snapshot(old(TableRows())[id := fields], id + 1)
          && idToAddr == old(idToAddr)[id := a]
          && past == old(past) + [old(Now())]
          && journal.tracks == old(journal.tracks) + [J.Track(now, J.Delete, id, [])]
        case InsertTooLarge =>
          && FirstViolation(columns, old(TableRows()), Some(old(recordIdCount)), fields, 0).None?
          && SizeOf(fields) > MAX_RECORD_SIZE
          && Agree() && Now() == Snapshot(old(TableRows()), old(recordIdCount) + 1)
          && journal.tracks == old(journal.tracks) + [J.Track(now, J.Delete, old(recordIdCount), [])]
          && past == old(past) && idToAddr == old(idToAddr)
    {
      hide TreesOk, RowsOk, RowsOf, SnapshotOk, J.Journal.Valid, HistoryOk, FirstViolation, Agree, Valid, Undoes;
      ValidFacts();
      fields := [];
      var r := MakeRecord(values, names);
      if r.NoFields? {
        return InsertNotMade(r.error), [];
      }
      fields := r.fields;
      outcome := InsertRow(r.fields, now);
    }

    /** The table has got exactly the rows `made`, each with its state in the past and its
        track in the journal. */
    ghost predicate HasGot(from: Start, names: seq<string>, rows: seq<seq<Value>>, stamps: seq<seq<byte>>,
                           result: seq<Record>, made: seq<seq<Value>>)
      requires IdsOk(heap.cells, idToAddr) && |stamps| == |rows|
      reads this, heap, interner, journal
    {
      && Now() == InsertAll(from.now, made) && past == from.past + InsertStates(from.now, made)
      && AllMade(columns, names, rows, made, interner.idToView)
      && (forall i :: 0 <= i < |made| ==> Admitted(columns, from.now, made, i))
      && AreNew(result, made, from.now.counter, idToAddr) && recordIdCount == from.now.counter + |made|
      && journal.tracks == from.tracks + InsertTracks(from.now.counter, stamps[..|made|])
    }

    /** The same behind a row that is too large: the counter and the journal have moved on. */
    ghost predicate HasGotAllBut(from: Start, names: seq<string>, rows: seq<seq<Value>>, stamps: seq<seq<byte>>,
                                 result: seq<Record>, made: seq<seq<Value>>)
      requires IdsOk(heap.cells, idToAddr) && |stamps| == |rows|
      reads this, heap, interner, journal
    {
      && Now() == Snapshot(InsertAll(from.now, made).rows, from.now.counter + |made| + 1)
      && past == from.past + InsertStates(from.now, made)
      && AllMade(columns, names, rows, made, interner.idToView) && |made| < |rows|
      && (forall i :: 0 <= i < |made| ==> Admitted(columns, from.now, made, i))
      && AreNew(result, made, from.now.counter, idToAddr)
      && journal.tracks == from.tracks + InsertTracks(from.now.counter, stamps[..|made| + 1])
    }

    /** All rows are in, or those before the first that failed: it could not be made, was
        forbidden, or did not fit a page. */
    ghost predicate InsertEnded(from: Start, names: seq<string>, rows: seq<seq<Value>>, stamps: seq<seq<byte>>,
                                result: seq<Record>, failure: Option<InsertOutcome>, made: seq<seq<Value>>)
      requires |stamps| == |rows|
      reads this, heap, indexes, interner, journal
    {
      && |made| == |result| <= |rows| && (failure.None? <==> |made| == |rows|)
      && match failure
         case None => Valid() && HasGot(from, names, rows, stamps, result, made)
         case Some(InsertNotMade(_)) =>
           && Valid() && HasGot(from, names, rows, stamps, result, made) && NotMakeable(columns, names, rows[|made|])
         case Some(InsertRejected(w)) =>
           && Valid() && HasGot(from, names, rows, stamps, result, made)
           && RejectedFor(columns, names, rows[|made|], InsertAll(from.now, made), w, interner.idToView)
         case Some(InsertTooLarge) =>
           && Agree() && HasGotAllBut(from, names, rows, stamps, result, made)
           && TooLargeOnly(columns, names, rows[|made|], InsertAll(from.now, made), interner.idToView)
         case Some(Inserted(_, _)) => false
    }

    /** One more row; the parameters are those of the whole. */
    method InsertNext(names: seq<string>, rows: seq<seq<Value>>, stamps: seq<seq<byte>>, result: seq<Record>,
                      ghost made: seq<seq<Value>>, ghost from: Start)
        returns (outcome: InsertOutcome, fields: seq<Value>)
      requires Valid() && |stamps| == |rows| && Stamps(stamps) && |result| == |made| < |rows|
      requires HasGot(from, names, rows, stamps, result, made)
      requires AllFit(rows[|result|]) && AllKnown(rows[|result|], KnownIds())
      requires interner.nextId + |columns| + 1 < U32_LIMIT && recordIdCount + 1 < U32_LIMIT && |heap.pages| < U32_LIMIT
      modifies `recordIdCount, `idToAddr, `past, heap, indexes, journal, interner
      ensures I.Extends(old(interner.idToView), interner.idToView)
        && interner.nextId <= old(interner.nextId) + |columns|
      ensures |heap.pages| <= |old(heap.pages)| + 1
      ensures match outcome
        case Inserted(id, a) => Valid()
          && HasGot(from, names, rows, stamps, result + [Record(id, fields, a)], made + [fields])
        case InsertNotMade(_) =>
          && Valid() && HasGot(from, names, rows, stamps, result, made) && NotMakeable(columns, names, rows[|made|])
        case InsertRejected(w) =>
          && Valid() && HasGot(from, names, rows, stamps, result, made)
          && RejectedFor(columns, names, rows[|made|], InsertAll(from.now, made), w, interner.idToView)
        case InsertTooLarge =>
          && Agree() && HasGotAllBut(from, names, rows, stamps, result, made)
          && TooLargeOnly(columns, names, rows[|made|], InsertAll(from.now, made), interner.idToView)
    {
      hide Valid, Agree, Undoes, I.Extends, Made, FirstViolation, AllFit, AllKnown, InsertAll,
        InsertStates, InsertTracks;
      hide AllMade, AreNew, Admitted, NotMakeable, RejectedFor, TooLargeOnly, IdsOk;
      ValidFacts();
      ghost var view, i := interner.idToView, |made|;
      outcome, fields := InsertRecord(rows[|result|], names, stamps[|result|]);
      AllMadeStays(columns, names, rows, made, view, interner.idToView);
      TrackOneMore(from.now.counter, stamps, i);
      if outcome.Inserted? {
        ValidFacts();
        InsertOneMore(from.now, made, fields);
        AdmittedOneMore(columns, from.now, made, fields);
        AllMadeMore(columns, names, rows, made, fields, interner.idToView);
        OneMoreNew(result, made, from.now.counter, old(idToAddr), fields, outcome.address);
      } else if outcome.InsertRejected? {
        IsRejected(columns, names, rows[i], InsertAll(from.now, made), fields, outcome.violation, interner.idToView);
      } else if outcome.InsertTooLarge? {
        IsTooLarge(columns, names, rows[i], InsertAll(from.now, made), fields, interner.idToView);
      }
    }

    /** The rows are made and inserted one after the other. The first one that fails ends it;
        those before it stay, each with its track. */
    method InsertMultiple(rows: seq<seq<Value>>, names: seq<string>, stamps: seq<seq<byte>>)
        returns (result: seq<Record>, failure: Option<InsertOutcome>, ghost made: seq<seq<Value>>)
      requires Valid() && |stamps| == |rows| && Stamps(stamps)
      requires forall i :: 0 <= i < |rows| ==> AllFit(rows[i]) && AllKnown(rows[i], KnownIds())
      requires interner.nextId + (|rows| + 1) * |columns| + 1 < U32_LIMIT
      requires recordIdCount + |rows| < U32_LIMIT && |heap.pages| + |rows| <= U32_LIMIT
      modifies `recordIdCount, `idToAddr, `past, heap, indexes, journal, interner
      ensures I.Extends(old(interner.idToView), interner.idToView)
      ensures InsertEnded(old(Start(Now(), past, journal.tracks)), names, rows, stamps, result, failure, made)
    {
      hide Valid, Agree, Now, HasGot, HasGotAllBut, I.Extends, AllFit, AllKnown;
      ValidFacts();
      ghost var from, view0 := Start(Now(), past, journal.tracks), interner.idToView;
      result, made := [], [];
      NothingGot(names, rows, stamps);
      ExtendsItself(view0);
      for i := 0 to |rows|
        invariant Valid() && IdsOk(heap.cells, idToAddr) && |made| == |result| == i
        invariant HasGot(from, names, rows, stamps, result, made)
        invariant I.Extends(view0, interner.idToView) && interner.nextId <= old(interner.nextId) + i * |columns|
        invariant |heap.pages| <= |old(heap.pages)| + i
      {
        ghost var view := interner.idToView;
        StillKnown(rows[i], view0, view);
        RoomForRow(i, |rows|, |columns|);
        GotCounter(from, names, rows, stamps, result, made);
        var outcome, fields := InsertNext(names, rows, stamps, result, made, from);
        ExtendsOn(view0, view, interner.idToView);
        if !outcome.Inserted? {
          return result, Some(outcome), made;
        }
        ValidFacts();
        result := result + [Record(outcome.id, fields, outcome.address)];
        made := made + [fields];
      }
      failure := None;
    }

    lemma GotCounter(from: Start, names: seq<string>, rows: seq<seq<Value>>, stamps: seq<seq<byte>>,
                     result: seq<Record>, made: seq<seq<Value>>)
      requires IdsOk(heap.cells, idToAddr) && |stamps| == |rows| && HasGot(from, names, rows, stamps, result, made)
      ensures recordIdCount == from.now.counter + |made|
    {
    }

    lemma NothingGot(names: seq<string>, rows: seq<seq<Value>>, stamps: seq<seq<byte>>)
      requires IdsOk(heap.cells, idToAddr) && |stamps| == |rows|
      ensures HasGot(Start(Now(), past, journal.tracks), names, rows, stamps, [], [])
    {
    }

    /** A record at its current address gets new fields. One too large for a page is refused
        only after the old record is gone: the id index then leads to a deleted cell. */
    method UpdateRecord(record: Record, now: seq<byte>) returns (outcome: UpdateOutcome)
      requires Valid() && record.id in idToAddr && idToAddr[record.id] == record.address
      requires |record.fields| == |columns| && AllFit(record.fields) && AllKnown(record.fields, KnownIds())
      requires |now| == J.TIME_LEN && |heap.pages| < U32_LIMIT
      modifies `idToAddr, `past, heap, indexes, journal
      ensures var rows, id := old(TableRows()), record.id;
        var v := FirstViolation(columns, rows, Some(id), record.fields, 0);
        match outcome
        case UpdateRejected(w) =>
          && v == Some(w) && Valid() && Now() == old(Now()) && past == old(past)
          && journal.tracks == old(journal.tracks)
          && idToAddr == old(idToAddr)
        case Updated(a) =>
          && v.None? && SizeOf(record.fields) <= MAX_RECORD_SIZE
          && Valid() && Now() == Snapshot(rows[id := record.fields], old(recordIdCount))
          && idToAddr == old(idToAddr)[id := a]
          && past == old(past) + [old(Now())]
          && journal.tracks == old(journal.tracks) + [J.Track(now, J.Update, id, rows[id])]
        case UpdateTooLarge =>
          && v.None? && SizeOf(record.fields) > MAX_RECORD_SIZE
          && idToAddr == old(idToAddr) && !IdsOk(heap.cells, idToAddr) && past == old(past)
          && journal.tracks == old(journal.tracks) + [J.Track(now, J.Update, id, rows[id])]
      ensures |heap.pages| <= |old(heap.pages)| + 1
    {
      hide TreesOk, RowsOk, IdsOk, RowsOf, SnapshotOk, J.Journal.Valid, J.TrackOk, Agree, HistoryOk, FirstViolation;
      AgreeFacts();
      ghost var rows, state, known, id := TableRows(), Now(), KnownIds(), record.id;
      var v := ValidateRecord(record.fields, Some(record.address), record.id);
      if v.Some? {
        return UpdateRejected(v.value);
      }
      var oldFields := ReadRow(record.id);
      if SizeOf(record.fields) <= MAX_RECORD_SIZE { ValidationIsExact(columns, rows, id, record.fields, known); }
      var a := ReplaceJournaled(record.id, oldFields, record.fields, now);
      outcome := if a.Some? then Updated(a.value) else UpdateTooLarge;
    }

    /** The first `n` changes have been made, one after the other. */
    ghost predicate HasMade(from: Start, l: seq<Change>, stamps: seq<seq<byte>>, n: nat, errors: seq<(nat, Violation)>)
      requires IdsOk(heap.cells, idToAddr) && Wide(columns, l) && n <= |l| == |stamps|
      reads this, heap, journal
    {
      && Now() == Snapshot(UpdateAll(columns, from.now.rows, l, n), from.now.counter)
      && errors == UpdateErrors(columns, from.now.rows, l, n)
      && past == from.past + UpdateStates(columns, from.now, l, n)
      && journal.tracks == from.tracks + UpdateTracks(columns, from.now.rows, l, n, stamps)
    }

    /** Change `n` was allowed, but did not fit a page; its row is lost, and the last track is for it. */
    ghost predicate HasLost(from: Start, l: seq<Change>, stamps: seq<seq<byte>>, n: nat, errors: seq<(nat, Violation)>)
      requires Wide(columns, l) && n < |l| == |stamps|
      reads this, heap, journal
    {
      && ChangeViolation(columns, UpdateAll(columns, from.now.rows, l, n), l, n).None?
      && SizeOf(l[n].1) > MAX_RECORD_SIZE
      && errors == UpdateErrors(columns, from.now.rows, l, n)
      && past == from.past + UpdateStates(columns, from.now, l, n)
      && journal.tracks == from.tracks + UpdateTracks(columns, from.now.rows, l, n, stamps)
                         + TrackOf(UpdateAll(columns, from.now.rows, l, n), l[n].0, stamps[n])
      && !IdsOk(heap.cells, idToAddr)
    }

    /** Record `i` of a batch of which the first `i` have been made. */
    method UpdateNext(records: seq<Record>, i: nat, stamps: seq<seq<byte>>, errors: seq<(nat, Violation)>,
                      ghost from: Start)
        returns (outcome: UpdateOutcome)
      requires Valid() && i < |records| == |stamps| && Stamps(stamps) && |heap.pages| < U32_LIMIT
      requires Wide(columns, PairsOf(records)) && HasMade(from, PairsOf(records), stamps, i, errors)
      requires DistinctIds(records) && AllAt(records, i, idToAddr)
      requires AllFit(records[i].fields) && AllKnown(records[i].fields, KnownIds())
      modifies `idToAddr, `past, heap, indexes, journal
      ensures |heap.pages| <= |old(heap.pages)| + 1
      ensures outcome.UpdateTooLarge? ==> HasLost(from, PairsOf(records), stamps, i, errors)
      ensures !outcome.UpdateTooLarge? ==> Valid() && AllAt(records, i + 1, idToAddr)
      ensures outcome.UpdateRejected? ==>
        HasMade(from, PairsOf(records), stamps, i + 1, errors + [(i, outcome.violation)])
      ensures outcome.Updated? ==> HasMade(from, PairsOf(records), stamps, i + 1, errors)
    {
      hide Valid, Agree, FirstViolation, AllFit, AllKnown, DistinctIds, AllAt;
      hide UpdateAll, UpdateErrors, UpdateStates, UpdateTracks;
      ValidFacts();
      ghost var ids, l := idToAddr, PairsOf(records);
      IsAt(records, i, idToAddr);
      assert l[i] == (records[i].id, records[i].fields);
      UpdateOneMore(columns, from.now, l, i, stamps);
      hide Wide;
      outcome := UpdateRecord(records[i], stamps[i]);
      if outcome.Updated? { OthersAt(records, i, ids, outcome.address); }
      if !outcome.UpdateTooLarge? { ValidFacts(); }
    }

    /** Records at their addresses get new fields, one after the other; what is forbidden is
        noted and leaves its row as it is. A record too large for a page, which cannot come up
        with 814 columns, ends the batch here. */
    method UpdateMultiple(records: seq<Record>, stamps: seq<seq<byte>>)
        returns (errors: seq<(nat, Violation)>, lost: Option<nat>)
      requires Valid() && |stamps| == |records| && Stamps(stamps)
      requires DistinctIds(records) && AllAt(records, 0, idToAddr) && |heap.pages| + |records| <= U32_LIMIT
      requires Wide(columns, PairsOf(records))
      requires forall i :: 0 <= i < |records| ==> AllFit(records[i].fields) && AllKnown(records[i].fields, KnownIds())
      modifies `idToAddr, `past, heap, indexes, journal
      ensures |columns| <= 814 ==> lost.None?
      ensures var from, l := old(Start(Now(), past, journal.tracks)), PairsOf(records);
        match lost
        case None => Valid() && HasMade(from, l, stamps, |l|, errors)
        case Some(k) => k < |l| && HasLost(from, l, stamps, k, errors)
    {
      hide Valid, Agree, Now, AllFit, AllKnown, HasMade, DistinctIds, AllAt, Wide;
      ValidFacts();
      ghost var from, l := Start(Now(), past, journal.tracks), PairsOf(records);
      NothingMade(l, stamps);
      errors := [];
      for i := 0 to |records|
        invariant Valid() && IdsOk(heap.cells, idToAddr) && AllAt(records, i, idToAddr)
        invariant HasMade(from, l, stamps, i, errors) && |heap.pages| <= |old(heap.pages)| + i
      {
        var outcome := UpdateNext(records, i, stamps, errors, from);
        if outcome.UpdateTooLarge? {
          SmallRowsFit(l, i);
          return errors, Some(i);
        }
        ValidFacts();
        if outcome.UpdateRejected? {
          errors := errors + [(i, outcome.violation)];
        }
      }
      lost := None;
    }

    lemma SmallRowsFit(l: seq<Change>, i: nat)
      requires Wide(columns, l) && i < |l|
      ensures |columns| <= 814 ==> SizeOf(l[i].1) <= MAX_RECORD_SIZE
    {
      H.RowsFit(l[i].1);
    }

    lemma NothingMade(l: seq<Change>, stamps: seq<seq<byte>>)
      requires IdsOk(heap.cells, idToAddr) && Wide(columns, l) && |l| == |stamps|
      ensures HasMade(Start(Now(), past, journal.tracks), l, stamps, 0, [])
    {
    }

    /** The part of an update behind its checks. */
    method ReplaceJournaled(id: nat, oldFields: seq<Value>, fields: seq<Value>, now: seq<byte>)
      returns (a: Option<RecordAddress>)
      requires Valid() && id in idToAddr && oldFields == TableRows()[id] && AllFit(fields)
      requires SizeOf(fields) <= MAX_RECORD_SIZE ==> RowsOk(columns, TableRows()[id := fields], KnownIds())
      requires |now| == J.TIME_LEN && |heap.pages| < U32_LIMIT
      modifies `idToAddr, `past, heap, indexes, journal
      ensures journal.tracks == old(journal.tracks) + [J.Track(now, J.Update, id, oldFields)]
      ensures a.None? <==> SizeOf(fields) > MAX_RECORD_SIZE
      ensures a.None? ==> idToAddr == old(idToAddr) && !IdsOk(heap.cells, idToAddr) && past == old(past)
      ensures a.Some? ==>
        && Valid() && Now() == Snapshot(old(TableRows())[id := fields], old(recordIdCount))
        && idToAddr == old(idToAddr)[id := a.value] && past == old(past) + [old(Now())]
      ensures |heap.pages| <= |old(heap.pages)| + 1
    {
      hide TreesOk, RowsOk, IdsOk, RowsOf, SnapshotOk, J.Journal.Valid, J.TrackOk, Agree, HistoryOk, Undoes;
      AgreeFacts();
      ghost var rows, state, known := TableRows(), Now(), KnownIds();
      RowIsTrack(columns, state, id, known, now);
      journal.SaveUpdation(now, id, oldFields);
      a := ReplaceRow(id, oldFields, fields);
      if a.None? {
        NotHoused(heap.cells, idToAddr, id);
        return;
      }
      AgreeFacts();
      SnapshotAfterUpdate(columns, state, id, fields, known, now);
      Remember(state, J.Track(now, J.Update, id, rows[id]), old(journal.tracks));
    }

    /** The stored fields of a row. */
    method ReadRow(id: nat) returns (fields: seq<Value>)
      requires Agree() && id in idToAddr
      ensures fields == TableRows()[id]
    {
      assert Housed(heap.cells, idToAddr, id) && heap.HasSlot(idToAddr[id]);
      RowWidth(columns, TableRows(), id, KnownIds());
      var r := heap.ReadRecord(idToAddr[id], |columns|, interner.idToView.Keys);
      fields := r.fields;
    }

    method DeleteRecord(record: Record, now: seq<byte>)
      requires Valid() && record.id in idToAddr && idToAddr[record.id] == record.address
      requires record.fields == TableRows()[record.id] && |now| == J.TIME_LEN
      modifies `idToAddr, `past, heap, indexes, journal
      ensures Valid() && Now() == Snapshot(old(TableRows()) - {record.id}, old(recordIdCount))
      ensures past == old(past) + [old(Now())] && |heap.pages| == |old(heap.pages)|
      ensures idToAddr == old(idToAddr) - {record.id}
      ensures journal.tracks == old(journal.tracks) + [J.Track(now, J.Insert, record.id, record.fields)]
    {
      hide TreesOk, RowsOk, IdsOk, RowsOf, SnapshotOk, J.Journal.Valid, J.TrackOk, Agree, HistoryOk, Undoes;
      AgreeFacts();
      ghost var rows, state, known, id := TableRows(), Now(), KnownIds(), record.id;
      RowIsTrack(columns, state, id, known, now);
      journal.SaveDeletion(now, record.id, record.fields);
      DropRow(record.id, record.fields);
      AgreeFacts();
      SnapshotAfterDelete(columns, state, id, known, now);
      Remember(state, J.Track(now, J.Insert, id, rows[id]), old(journal.tracks));
    }

    method DeleteMultiple(records: seq<Record>, stamps: seq<seq<byte>>)
      requires Valid() && |stamps| == |records| && forall i :: 0 <= i < |stamps| ==> |stamps[i]| == J.TIME_LEN
      requires DistinctIds(records) && forall i :: 0 <= i < |records| ==> Live(records[i], TableRows(), idToAddr)
      modifies `idToAddr, `past, heap, indexes, journal
      ensures Valid() && Now() == Snapshot(old(TableRows()) - IdSet(records), old(recordIdCount))
      ensures |past| == |old(past)| + |records| && past[..|old(past)|] == old(past)
      ensures records != [] ==> past[|old(past)|] == old(Now())
    {
      hide TreesOk, RowsOk, IdsOk, RowsOf, SnapshotOk, J.Journal.Valid, Agree, HistoryOk;
      AgreeFacts();
      ghost var rows := TableRows();
      for i := 0 to |records|
        invariant Valid() && IdsOk(heap.cells, idToAddr)
          && Now() == Snapshot(rows - IdSet(records[..i]), old(recordIdCount))
        invariant forall j :: i <= j < |records| ==> Live(records[j], TableRows(), idToAddr)
        invariant |past| == |old(past)| + i && past[..|old(past)|] == old(past)
        invariant i > 0 ==> past[|old(past)|] == old(Now())
      {
        OneMoreId(records, i);
        DeleteOne(records, i, stamps[i]);
        AgreeFacts();
      }
      assert records[..|records|] == records;
    }

    method DeleteOne(records: seq<Record>, i: nat, now: seq<byte>)
      requires Valid() && i < |records| && |now| == J.TIME_LEN && DistinctIds(records)
      requires forall j :: i <= j < |records| ==> Live(records[j], TableRows(), idToAddr)
      modifies `idToAddr, `past, heap, indexes, journal
      ensures Valid() && Now() == Snapshot(old(TableRows()) - {records[i].id}, old(recordIdCount))
      ensures past == old(past) + [old(Now())]
      ensures forall j :: i < j < |records| ==> Live(records[j], TableRows(), idToAddr)
    {
      hide TreesOk, RowsOk, IdsOk, RowsOf, SnapshotOk, J.Journal.Valid, Agree, HistoryOk;
      AgreeFacts();
      StillLive(records, i, TableRows(), idToAddr);
      DeleteRecord(records[i], now);
      AgreeFacts();
    }

    // Reverting.

    /** One track undone. */
    method Undo(t: J.Track, ghost before: Snapshot)
      requires Agree() && SnapshotOk(columns, Now(), KnownIds()) && SnapshotOk(columns, before, KnownIds())
      requires Undoes(t, before, Now()) && J.TrackOk(t) && |heap.pages| < U32_LIMIT
      modifies `idToAddr, `recordIdCount, heap, indexes
      ensures Agree() && Now() == before && |heap.pages| <= |old(heap.pages)| + 1
    {
      hide TreesOk, RowsOk, IdsOk, RowsOf;
      if t.kind.Insert? {
        RowWidth(columns, before.rows, t.id, KnownIds());
        var a := StoreRow(t.id, t.fields);
      } else if t.kind.Update? {
        assert t.id in idToAddr;
        RowWidth(columns, before.rows, t.id, KnownIds());
        var current := ReadRow(t.id);
        var a := ReplaceRow(t.id, current, t.fields);
      } else {
        assert t.id in idToAddr;
        var realFields := ReadRow(t.id);
        DropRow(t.id, realFields);
        assert t.id + 1 == recordIdCount;
        recordIdCount := recordIdCount - 1;
      }
    }

    /** The last track of the journal, unless it is older than `time`. */
    method Pop(time: seq<byte>) returns (t: Option<J.Track>)
      requires Agree() && journal.Valid() && HistoryOk(columns, past, journal.tracks, Now(), KnownIds())
      modifies journal
      ensures journal.Valid()
      ensures t.None? ==> journal.tracks == old(journal.tracks) && Kept(old(journal.tracks), time) == |past|
      ensures t.Some? ==>
        && past != [] && old(journal.tracks) == journal.tracks + [t.value] && J.TrackOk(t.value)
        && Kept(old(journal.tracks), time) == Kept(journal.tracks, time)
    {
      hide RowsOk, IdsOk, RowsOf, TreesOk, LexLess, SnapshotOk, J.FileOf;
      ghost var tracks := journal.tracks;
      if past != [] { HistoryShrinks(columns, past, tracks, Now(), KnownIds()); }
      t := journal.RevertLast(time, |columns|, interner.idToView.Keys);
      if t.Some? { assert tracks[..|tracks| - 1] == journal.tracks; }
    }

    /** The last operation taken back. */
    method UndoLast(t: J.Track, ghost rest: seq<J.Track>)
      requires Agree() && SnapshotOk(columns, Now(), KnownIds()) && past != [] && J.TrackOk(t)
      requires HistoryOk(columns, past, rest + [t], Now(), KnownIds()) && |heap.pages| < U32_LIMIT
      modifies `idToAddr, `recordIdCount, `past, heap, indexes
      ensures Agree() && SnapshotOk(columns, Now(), KnownIds()) && |heap.pages| <= |old(heap.pages)| + 1
      ensures Now() == old(past)[|old(past)| - 1] && past == old(past)[..|old(past)| - 1]
      ensures HistoryOk(columns, past, rest, Now(), KnownIds())
    {
      hide TreesOk, RowsOk, IdsOk, RowsOf, SnapshotOk, Undoes, J.TrackOk, StepOk;
      ghost var tracks, n, known := rest + [t], |past| - 1, KnownIds();
      HistoryShrinks(columns, past, tracks, Now(), known);
      SameLength(columns, past, tracks, Now(), known);
      assert tracks[..n] == rest;
      Undo(t, past[n]);
      past := past[..n];
    }

    /** The table goes back to the state before the first operation of the tail of the journal
        that is stamped `time` or later, which is the first such operation of all if the stamps
        never went back; the rest of the journal stays good for more. */
    method Revert(time: seq<byte>)
      requires Valid() && |heap.pages| + |journal.tracks| <= U32_LIMIT
      modifies `idToAddr, `recordIdCount, `past, heap, indexes, journal
      ensures Valid()
      ensures var k := Kept(old(journal.tracks), time);
        && journal.tracks == old(journal.tracks)[..k] && past == old(past)[..k]
        && Now() == StateAt(old(past), old(Now()), k)
      ensures NonDecreasing(old(journal.tracks)) ==> SplitAt(old(journal.tracks), |journal.tracks|, time)
    {
      hide TreesOk, RowsOk, IdsOk, RowsOf, HistoryOk, SnapshotOk, J.TrackOk, J.Journal.Valid, Agree,
        Kept, NonDecreasing, SplitAt;
      AgreeFacts();
      ghost var tracks, states, last := journal.tracks, past, Now();
      if NonDecreasing(tracks) { KeptIsFirst(tracks, time); }
      SameLength(columns, past, tracks, last, KnownIds());
      var t := Pop(time);
      while t.Some?
        invariant Agree() && IdsOk(heap.cells, idToAddr) && journal.Valid() && SnapshotOk(columns, Now(), KnownIds())
        invariant |past| <= |states| == |tracks| && past == states[..|past|] && Now() == StateAt(states, last, |past|)
        invariant HistoryOk(columns, past, tracks[..|past|], Now(), KnownIds())
        invariant t.Some? ==>
          && past != [] && tracks[..|past|] == journal.tracks + [t.value] && J.TrackOk(t.value)
          && Kept(journal.tracks, time) == Kept(tracks, time)
        invariant t.None? ==> journal.tracks == tracks[..|past|] && Kept(tracks, time) == |past|
        invariant |heap.pages| + |journal.tracks| + (if t.Some? then 1 else 0) <= U32_LIMIT
        decreases |past| + if t.Some? then 1 else 0
      {
        ghost var rest := journal.tracks;
        UndoLast(t.value, rest);
        assert rest == tracks[..|past|] && past == states[..|past|];
        AgreeFacts();
        t := Pop(time);
      }
    }

    // Reading.

    /** All rows, by ascending id. */
    method Records() returns (result: seq<Record>)
      requires Valid()
      ensures Lists(result, Listing(TableRows(), recordIdCount), idToAddr)
    {
      hide TreesOk, RowsOk, IdsOk, RowsOf, HistoryOk, SnapshotOk, J.Journal.Valid;
      ghost var rows := TableRows();
      result := [];
      for id := 0 to recordIdCount
        invariant Lists(result, Listing(rows, id), idToAddr)
      {
        if id in idToAddr {
          var fields := ReadRow(id);
          result := result + [Record(id, fields, idToAddr[id])];
        }
      }
    }

    /** The rows with a value in column `i`, by way of its index: nothing when the column has
        none or the value is not of its type. */
    method FindByIndex(i: nat, value: Value) returns (r: Option<seq<Record>>)
      requires Valid() && i < |columns|
      ensures r.None? <==> !columns[i].indexed || value.Null? || !Suits(columns[i], value)
      ensures r.Some? ==> Finds(r.value, TableRows(), idToAddr, i, value)
    {
      hide RowsOk, IdsOk, RowsOf, HistoryOk, TreeOk, SnapshotOk, J.Journal.Valid;
      TreesOpen(columns, indexes.trees, TableRows(), idToAddr);
      var addresses := indexes.Find(columns, i, value);
      if addresses.None? {
        return None;
      }
      ghost var rows, tree := TableRows(), indexes.trees[columns[i].name];
      FoundByKey(columns, tree, rows, idToAddr, heap.cells, i, value, KnownIds());
      if addresses.value == [] {
        return Some([]);
      }
      ghost var id :| Backs(tree, rows, idToAddr, i, KeyOf(value), id);
      var found := ReadIfEqual(addresses.value[0], i, value, id);
      r := Some(found);
    }

    /** The record of an index entry, if it has the value. */
    method ReadIfEqual(a: RecordAddress, i: nat, value: Value, ghost id: nat) returns (result: seq<Record>)
      requires Agree() && id in idToAddr && a == idToAddr[id] && i < |columns|
      ensures |TableRows()[id]| == |columns|
      ensures result == if TableRows()[id][i] == value then [Record(id, TableRows()[id], a)] else []
    {
      hide TreesOk, RowsOk;
      assert Housed(heap.cells, idToAddr, id) && heap.HasSlot(a);
      RowWidth(columns, TableRows(), id, KnownIds());
      var record := heap.ReadRecord(a, |columns|, interner.idToView.Keys);
      result := [];
      if record.Found? && StrictEq(record.fields[i], value) {
        result := [Record(record.id, record.fields, a)];
      }
    }

    lemma RowFacts(id: nat)
      requires Valid() && id in idToAddr
      ensures |TableRows()[id]| == |columns| && AllKnown(TableRows()[id], KnownIds()) && AllFit(TableRows()[id])
      ensures id < recordIdCount < U32_LIMIT
    {
      RowWidth(columns, TableRows(), id, KnownIds());
    }

    lemma CounterFits()
      requires Valid()
      ensures recordIdCount < U32_LIMIT
    {
    }

    lemma InternerIsValid()
      requires Agree()
      ensures interner.Valid()
    {
    }

    lemma ValidFacts()
      requires Valid()
      ensures IdsOk(heap.cells, idToAddr) && Agree()
    {
    }

    lemma AgreeFacts()
      requires Agree()
      ensures SchemaOk(columns) && IdsOk(heap.cells, idToAddr) && RowsOk(columns, TableRows(), KnownIds())
    {
    }

    lemma Fresh(state: Snapshot)
      requires Valid() && state == Now()
      ensures recordIdCount !in idToAddr
    {
    }
  }

  lemma SnapshotAfterInsert(columns: seq<Column>, s: Snapshot, fields: seq<Value>, known: set<nat>)
    requires SnapshotOk(columns, s, known) && RowsOk(columns, s.rows[s.counter := fields], known)
      && s.counter + 1 < U32_LIMIT
    ensures SnapshotOk(columns, Snapshot(s.rows[s.counter := fields], s.counter + 1), known)
    ensures (s.rows[s.counter := fields]) - {s.counter} == s.rows
  {
  }

  lemma SnapshotAfterUpdate(columns: seq<Column>, s: Snapshot, id: nat, fields: seq<Value>,
                            known: set<nat>, now: seq<byte>)
    requires SnapshotOk(columns, s, known) && RowsOk(columns, s.rows[id := fields], known) && id in s.rows
    ensures SnapshotOk(columns, Snapshot(s.rows[id := fields], s.counter), known)
    ensures Undoes(J.Track(now, J.Update, id, s.rows[id]), s, Snapshot(s.rows[id := fields], s.counter))
  {
    assert s.rows[id := fields][id := s.rows[id]] == s.rows;
  }

  lemma SnapshotAfterDelete(columns: seq<Column>, s: Snapshot, id: nat, known: set<nat>, now: seq<byte>)
    requires SnapshotOk(columns, s, known) && id in s.rows
    ensures SnapshotOk(columns, Snapshot(s.rows - {id}, s.counter), known)
    ensures Undoes(J.Track(now, J.Insert, id, s.rows[id]), s, Snapshot(s.rows - {id}, s.counter))
  {
    assert (s.rows - {id})[id := s.rows[id]] == s.rows;
    FewerRows(columns, s.rows, id, known);
  }

  /** A row can be written to the journal. */
  lemma RowIsTrack(columns: seq<Column>, s: Snapshot, id: nat, known: set<nat>, now: seq<byte>)
    requires SchemaOk(columns) && SnapshotOk(columns, s, known) && id in s.rows && |now| == J.TIME_LEN
    ensures J.TrackOk(J.Track(now, J.Update, id, s.rows[id])) && J.TrackOk(J.Track(now, J.Insert, id, s.rows[id]))
    ensures id < U32_LIMIT && |s.rows[id]| == |columns| && AllKnown(s.rows[id], known)
  {
    RowWidth(columns, s.rows, id, known);
  }

  lemma NotHoused(cells: map<RecordAddress, H.Cell>, ids: map<nat, RecordAddress>, id: nat)
    requires id in ids && !Housed(cells, ids, id)
    ensures !IdsOk(cells, ids)
  {
  }

  lemma SameLength(columns: seq<Column>, past: seq<Snapshot>, tracks: seq<J.Track>, now: Snapshot, known: set<nat>)
    requires HistoryOk(columns, past, tracks, now, known)
    ensures |past| == |tracks| && past[..|past|] == past && tracks[..|tracks|] == tracks
  {
  }

  /** The rows with ids below `n`, by ascending id. */
  ghost function Listing(rows: Rows, n: nat): seq<(nat, seq<Value>)> {
    if n == 0 then [] else Listing(rows, n - 1) + if n - 1 in rows then [(n - 1, rows[n - 1])] else []
  }

  ghost function PairsOf(records: seq<Record>): (l: seq<(nat, seq<Value>)>)
    ensures |l| == |records| && forall i :: 0 <= i < |l| ==> l[i] == (records[i].id, records[i].fields)
  {
    seq(|records|, i requires 0 <= i < |records| => (records[i].id, records[i].fields))
  }

  /** From `n` on the records are at the addresses of their ids. */
  ghost predicate AllAt(records: seq<Record>, n: nat, ids: map<nat, RecordAddress>) {
    forall i :: n <= i < |records| ==> records[i].id in ids && ids[records[i].id] == records[i].address
  }

  lemma IsAt(records: seq<Record>, i: nat, ids: map<nat, RecordAddress>)
    requires AllAt(records, i, ids) && i < |records|
    ensures records[i].id in ids && ids[records[i].id] == records[i].address && AllAt(records, i + 1, ids)
  {
  }

  /** Moving record `i` moves none of the others. */
  lemma OthersAt(records: seq<Record>, i: nat, ids: map<nat, RecordAddress>, a: RecordAddress)
    requires AllAt(records, i, ids) && DistinctIds(records) && i < |records|
    ensures AllAt(records, i + 1, ids[records[i].id := a])
  {
  }

  lemma ExtendsItself(view: map<nat, seq<byte>>)
    ensures I.Extends(view, view)
  {
  }

  lemma ExtendsOn(a: map<nat, seq<byte>>, b: map<nat, seq<byte>>, c: map<nat, seq<byte>>)
    requires I.Extends(a, b) && I.Extends(b, c)
    ensures I.Extends(a, c)
  {
  }

  ghost predicate Stamps(stamps: seq<seq<byte>>) {
    forall i :: 0 <= i < |stamps| ==> |stamps[i]| == J.TIME_LEN
  }

  ghost predicate AllMade(columns: seq<Column>, names: seq<string>, rows: seq<seq<Value>>, made: seq<seq<Value>>,
                          view: map<nat, seq<byte>>)
  {
    |made| <= |rows| && forall i :: 0 <= i < |made| ==> Made(columns, names, rows[i], made[i], view)
  }

  /** The records got consecutive ids from `counter` on and are at their addresses. */
  ghost predicate AreNew(records: seq<Record>, made: seq<seq<Value>>, counter: nat, ids: map<nat, RecordAddress>) {
    |records| == |made| && forall i :: 0 <= i < |records| ==> IsNew(records[i], made[i], counter + i, ids)
  }

  ghost predicate IsNew(r: Record, fields: seq<Value>, id: nat, ids: map<nat, RecordAddress>) {
    r.id == id && r.fields == fields && id in ids && ids[id] == r.address
  }

  /** Values, names and columns do not match. */
  ghost predicate NotMakeable(columns: seq<Column>, names: seq<string>, values: seq<Value>) {
    || (names == [] && |values| != |columns|) || (names != [] && |values| != |names|)
    || (names != [] && exists k :: 0 <= k < |names| && ColumnIndex(columns, names[k]).None?)
  }

  /** What is made of the values is forbidden as the next row. */
  ghost predicate RejectedFor(columns: seq<Column>, names: seq<string>, values: seq<Value>, s: Snapshot, v: Violation,
                              view: map<nat, seq<byte>>)
  {
    exists fields :: |fields| == |columns| && Made(columns, names, values, fields, view)
      && NextViolation(columns, s, fields) == Some(v)
  }

  /** What is made of the values would be allowed as the next row, but does not fit a page. */
  ghost predicate TooLargeOnly(columns: seq<Column>, names: seq<string>, values: seq<Value>, s: Snapshot,
                               view: map<nat, seq<byte>>)
  {
    exists fields :: |fields| == |columns| && Made(columns, names, values, fields, view)
      && NextViolation(columns, s, fields).None? && SizeOf(fields) > MAX_RECORD_SIZE
  }

  lemma IsRejected(columns: seq<Column>, names: seq<string>, values: seq<Value>, s: Snapshot, fields: seq<Value>,
                   v: Violation, view: map<nat, seq<byte>>)
    requires |fields| == |columns| && Made(columns, names, values, fields, view)
    requires FirstViolation(columns, s.rows, Some(s.counter), fields, 0) == Some(v)
    ensures RejectedFor(columns, names, values, s, v, view)
  {
    assert NextViolation(columns, s, fields) == Some(v);
    hide Made, NextViolation;
  }

  lemma IsTooLarge(columns: seq<Column>, names: seq<string>, values: seq<Value>, s: Snapshot, fields: seq<Value>,
                   view: map<nat, seq<byte>>)
    requires |fields| == |columns| && Made(columns, names, values, fields, view)
    requires FirstViolation(columns, s.rows, Some(s.counter), fields, 0).None? && SizeOf(fields) > MAX_RECORD_SIZE
    ensures TooLargeOnly(columns, names, values, s, view)
  {
    assert NextViolation(columns, s, fields).None?;
    hide Made, NextViolation;
  }

  lemma MadeStays(columns: seq<Column>, names: seq<string>, values: seq<Value>, fields: seq<Value>,
                  view: map<nat, seq<byte>>, more: map<nat, seq<byte>>)
    requires Made(columns, names, values, fields, view) && I.Extends(view, more)
    ensures Made(columns, names, values, fields, more)
  {
    if names != [] {
      forall i | 0 <= i < |columns| ensures MadeAt(columns, names, values, fields[i], more, i) {
        assert MadeAt(columns, names, values, fields[i], view, i);
      }
    }
  }

  lemma AllMadeStays(columns: seq<Column>, names: seq<string>, rows: seq<seq<Value>>, made: seq<seq<Value>>,
                     view: map<nat, seq<byte>>, more: map<nat, seq<byte>>)
    requires AllMade(columns, names, rows, made, view) && I.Extends(view, more)
    ensures AllMade(columns, names, rows, made, more)
  {
    hide Made, I.Extends;
    forall i | 0 <= i < |made| ensures Made(columns, names, rows[i], made[i], more) {
      MadeStays(columns, names, rows[i], made[i], view, more);
    }
  }

  lemma StillKnown(fields: seq<Value>, view: map<nat, seq<byte>>, more: map<nat, seq<byte>>)
    requires AllKnown(fields, view.Keys) && I.Extends(view, more)
    ensures AllKnown(fields, more.Keys)
  {
  }

  lemma AllMadeMore(columns: seq<Column>, names: seq<string>, rows: seq<seq<Value>>, made: seq<seq<Value>>,
                    fields: seq<Value>, view: map<nat, seq<byte>>)
    requires AllMade(columns, names, rows, made, view) && |made| < |rows|
    requires Made(columns, names, rows[|made|], fields, view)
    ensures AllMade(columns, names, rows, made + [fields], view)
  {
    hide Made;
  }

  /** Every row interns at most one default a column. */
  lemma RoomForRow(i: nat, n: nat, width: nat)
    requires i < n
    ensures i * width + width == (i + 1) * width <= n * width
    ensures (n + 1) * width == n * width + width
  {
  }

  lemma OneMoreNew(records: seq<Record>, made: seq<seq<Value>>, counter: nat, ids: map<nat, RecordAddress>,
                   fields: seq<Value>, a: RecordAddress)
    requires AreNew(records, made, counter, ids)
    ensures var id := counter + |made|; AreNew(records + [Record(id, fields, a)],
                                               made + [fields], counter, ids[id := a])
  {
  }

  ghost predicate Lists(records: seq<Record>, l: seq<(nat, seq<Value>)>, ids: map<nat, RecordAddress>) {
    |records| == |l| && forall i :: 0 <= i < |l| ==>
      (records[i].id, records[i].fields) == l[i] && records[i].id in ids && ids[records[i].id] == records[i].address
  }

  /** Taking row `i` out leaves the later ones where they are. */
  lemma StillLive(records: seq<Record>, i: nat, rows: Rows, ids: map<nat, RecordAddress>)
    requires rows.Keys == ids.Keys && i < |records| && DistinctIds(records)
    requires forall j :: i <= j < |records| ==> Live(records[j], rows, ids)
    ensures Live(records[i], rows, ids)
    ensures forall j :: i < j < |records| ==> Live(records[j], rows - {records[i].id}, ids - {records[i].id})
  {
  }

  ghost predicate DistinctIds(records: seq<Record>) {
    forall i, j :: 0 <= i < j < |records| ==> records[i].id != records[j].id
  }

  ghost function IdSet(records: seq<Record>): set<nat> {
    set i | 0 <= i < |records| :: records[i].id
  }

  lemma OneMoreId(records: seq<Record>, i: nat)
    requires i < |records|
    ensures IdSet(records[..i + 1]) == IdSet(records[..i]) + {records[i].id}
  {
    var a, b := records[..i], records[..i + 1];
    forall x | x in IdSet(b) ensures x in IdSet(a) + {records[i].id} {
      var k :| 0 <= k < |b| && b[k].id == x;
      if k < i { assert a[k].id == x; }
    }
    forall x | x in IdSet(a) + {records[i].id} ensures x in IdSet(b) {
      if x == records[i].id {
        assert b[i].id == x;
      } else {
        var k :| 0 <= k < |a| && a[k].id == x;
        assert b[k].id == x;
      }
    }
  }

  ghost predicate Live(x: Record, rows: Rows, ids: map<nat, RecordAddress>)
    requires rows.Keys == ids.Keys
  {
    x.id in rows && x.address == ids[x.id] && x.fields == rows[x.id]
  }

  /** The records are those of exactly the rows with `v` in column `i`; there is at most one. */
  ghost predicate Finds(records: seq<Record>, rows: Rows, ids: map<nat, RecordAddress>, i: nat, v: Value)
    requires rows.Keys == ids.Keys
  {
    && |records| <= 1
    && forall x: Record :: x in records <==>
      Live(x, rows, ids) && i < |x.fields| && x.fields[i] == v
  }

  /** A listing holds every row below its bound, once, in the order of the ids. */
  lemma {:induction false} ListingIsComplete(rows: Rows, n: nat)
    ensures forall id, fields :: (id, fields) in Listing(rows, n) <==> id < n && id in rows && rows[id] == fields
    ensures forall i, j :: 0 <= i < j < |Listing(rows, n)| ==> Listing(rows, n)[i].0 < Listing(rows, n)[j].0
    ensures |Listing(rows, n)| <= n
    decreases n
  {
    if n > 0 {
      ListingIsComplete(rows, n - 1);
      var l := Listing(rows, n - 1);
      forall i | 0 <= i < |l| ensures l[i].0 < n - 1 { assert (l[i].0, l[i].1) in l; }
    }
  }

  /** The address an index holds for a value is that of the only row with the value. */
  lemma FoundByKey(columns: seq<Column>, tree: Tree, rows: Rows, ids: map<nat, RecordAddress>,
                   cells: map<RecordAddress, H.Cell>,
                   i: nat, v: Value, known: set<nat>)
    requires IdsOk(cells, ids) && rows == RowsOf(cells, ids) && TreeOk(tree, rows, ids, i)
      && RowsOk(columns, rows, known)
    requires i < |columns| && columns[i].indexed && Suits(columns[i], v) && !v.Null?
    ensures KeyOf(v) !in tree ==> forall id :: id in rows ==> i < |rows[id]| && rows[id][i] != v
    ensures KeyOf(v) in tree ==>
      && (exists id :: Backs(tree, rows, ids, i, KeyOf(v), id))
      && forall id, x :: Backs(tree, rows, ids, i, KeyOf(v), id) && x in rows ==>
        i < |rows[x]| && rows[id][i] == v && (rows[x][i] == v <==> x == id)
  {
    forall x | x in rows ensures i < |rows[x]| && (rows[x][i] == v ==> KeyOf(v) in tree) {
      RowWidth(columns, rows, x, known);
      assert Entered(tree, rows, ids, i, x);
    }
    TakenByKey(columns, tree, rows, ids, cells, None, i, v, known);
    forall id, x | KeyOf(v) in tree && Backs(tree, rows, ids, i, KeyOf(v), id) && x in rows
      ensures rows[x][i] == v <==> x == id
    {
      if x != id { DifferentKeys(columns, rows, i, x, id, known); }
    }
  }

  lemma EmptyFiles()
    ensures J.AllOk([]) && J.FileOf([]) == [] && I.TextsOk([]) && I.StringFile([]) == []
  {
  }

  lemma PutBack<T>(m: map<nat, T>, id: nat, x: T)
    ensures (m - {id})[id := x] == m[id := x]
  {
  }

  lemma TreesOpen(columns: seq<Column>, trees: map<string, Tree>, rows: Rows, ids: map<nat, RecordAddress>)
    requires rows.Keys == ids.Keys && TreesOk(columns, trees, rows, ids)
    ensures AllOpen(columns, trees)
  {
  }

  lemma ReplacedIsFree(columns: seq<Column>, trees: map<string, Tree>, rows: Rows, ids: map<nat, RecordAddress>,
                       id: nat, fields: seq<Value>, known: set<nat>)
    requires rows.Keys == ids.Keys && TreesOk(columns, trees, rows, ids) && id in rows
    requires RowsOk(columns, rows, known) && RowsOk(columns, rows[id := fields], known)
    ensures |fields| == |columns| == |rows[id]| && AllOpen(columns, trees)
    ensures forall i :: 0 <= i < |columns| ==> Free(columns, trees, rows[id], fields, i)
  {
    var u := rows[id := fields];
    RowWidth(columns, u, id, known);
    RowWidth(columns, rows, id, known);
    TreesOpen(columns, trees, rows, ids);
    hide RowsOk, KeyOf, Leaving;
    forall i | 0 <= i < |columns| ensures Free(columns, trees, rows[id], fields, i) {
      if columns[i].indexed && !fields[i].Null? {
        KeyIsFree(columns, trees[columns[i].name], rows, ids, i, id, fields, known);
      }
    }
  }

  lemma KeyIsFree(columns: seq<Column>, tree: Tree, rows: Rows, ids: map<nat, RecordAddress>, i: nat,
                  id: nat, fields: seq<Value>, known: set<nat>)
    requires rows.Keys == ids.Keys && TreeOk(tree, rows, ids, i) && id in rows
    requires i < |columns| == |fields| == |rows[id]| && columns[i].indexed && !fields[i].Null?
    requires RowsOk(columns, rows[id := fields], known)
    ensures KeyOf(fields[i]) !in Leaving(tree, rows[id][i])
  {
    hide RowsOk, KeyOf;
    if KeyOf(fields[i]) in Leaving(tree, rows[id][i]) {
      var x :| Backs(tree, rows, ids, i, KeyOf(fields[i]), x);
      assert x != id;
      DifferentKeys(columns, rows[id := fields], i, x, id, known);
    }
  }

  lemma TreesAfterReplace(columns: seq<Column>, trees: map<string, Tree>, trees': map<string, Tree>, rows: Rows,
                          ids: map<nat, RecordAddress>, id: nat, fields: seq<Value>, a: RecordAddress, known: set<nat>)
    requires rows.Keys == ids.Keys && TreesOk(columns, trees, rows, ids) && id in rows
      && |fields| == |columns| == |rows[id]|
    requires RowsOk(columns, rows, known) && AllOpen(columns, trees) && AllOpen(columns, trees')
    requires forall i :: 0 <= i < |columns| ==> Free(columns, trees, rows[id], fields, i)
    requires forall i :: 0 <= i < |columns| ==> Moved(columns, trees, trees', rows[id], fields, a, i)
    ensures TreesOk(columns, trees', rows[id := fields], ids[id := a])
  {
    hide RowsOk, Free, Moved, TreeOk;
    forall i | 0 <= i < |columns| && columns[i].indexed
      ensures TreeOk(trees'[columns[i].name], rows[id := fields], ids[id := a], i)
    {
      TreeAfterReplace(columns, trees, trees', rows, ids, i, id, fields, a, known);
    }
  }

  lemma TreeAfterReplace(columns: seq<Column>, trees: map<string, Tree>, trees': map<string, Tree>, rows: Rows,
                         ids: map<nat, RecordAddress>, i: nat, id: nat, fields: seq<Value>, a: RecordAddress,
                         known: set<nat>)
    requires i < |columns| && columns[i].indexed && columns[i].name in trees && columns[i].name in trees'
    requires rows.Keys == ids.Keys && TreeOk(trees[columns[i].name], rows, ids, i) && id in rows
    requires |fields| == |columns| == |rows[id]| && RowsOk(columns, rows, known) && AllOpen(columns, trees)
    requires AllOpen(columns, trees') && Free(columns, trees, rows[id], fields, i)
    requires Moved(columns, trees, trees', rows[id], fields, a, i)
    ensures TreeOk(trees'[columns[i].name], rows[id := fields], ids[id := a], i)
  {
    hide RowsOk, TreeOk, KeyOf, Entering, Leaving;
    PutBack(rows, id, fields);
    PutBack(ids, id, a);
    forall x | x in rows && x != id { DifferentKeys(columns, rows, i, x, id, known); }
    LeavingOk(trees[columns[i].name], rows, ids, i, id);
    EnteringOk(Leaving(trees[columns[i].name], rows[id][i]), rows - {id}, ids - {id}, i, id, fields, a);
  }

  /** Later values for a column win. */
  method UpdateColumns(start: seq<Value>, values: seq<Value>, indices: seq<nat>) returns (fields: seq<Value>)
    requires |values| == |indices| && forall k :: 0 <= k < |indices| ==> indices[k] < |start|
    ensures |fields| == |start|
    ensures forall i :: 0 <= i < |start| && i !in indices ==> fields[i] == start[i]
    ensures forall k :: 0 <= k < |indices| && (forall l :: k < l < |indices| ==> indices[l] != indices[k]) ==>
      fields[indices[k]] == values[k]
    ensures forall i :: 0 <= i < |start| ==> fields[i] == start[i] || fields[i] in values
  {
    fields := start;
    for n := 0 to |indices|
      invariant |fields| == |start|
      invariant forall i :: 0 <= i < |start| && i !in indices[..n] ==> fields[i] == start[i]
      invariant forall k :: 0 <= k < n && (forall l :: k < l < n ==> indices[l] != indices[k]) ==>
        fields[indices[k]] == values[k]
      invariant forall i :: 0 <= i < |start| ==> fields[i] == start[i] || fields[i] in values
    {
      assert indices[..n + 1] == indices[..n] + [indices[n]];
      fields := fields[indices[n] := values[n]];
    }
    assert indices[..|indices|] == indices;
  }

  lemma MadeFromIndices(columns: seq<Column>, names: seq<string>, values: seq<Value>,
                        indices: seq<nat>, fields: seq<Value>,
                        view: map<nat, seq<byte>>)
    requires SchemaOk(columns) && |names| == |values| == |indices| && names != [] && |fields| == |columns|
    requires forall k :: 0 <= k < |names| ==> indices[k] < |columns| && columns[indices[k]].name == names[k]
    requires forall i :: 0 <= i < |columns| && i !in indices ==> IsDefault(columns[i], fields[i], view)
    requires forall k :: 0 <= k < |indices| && (forall l :: k < l < |indices| ==> indices[l] != indices[k]) ==>
      fields[indices[k]] == values[k]
    ensures Made(columns, names, values, fields, view)
  {
    forall i | 0 <= i < |columns| ensures MadeAt(columns, names, values, fields[i], view, i) {
      if i in indices {
        var k :| 0 <= k < |indices| && indices[k] == i;
        assert names[k] == columns[i].name;
      }
      if columns[i].name in names {
        var k := LastOf(names, columns[i].name);
        assert indices[k] == i;
        assert GivenLast(names, columns[i].name, k);
      }
    }
  }

  lemma {:induction false} LastOf(names: seq<string>, name: string) returns (k: nat)
    requires name in names
    ensures GivenLast(names, name, k)
    decreases |names|
  {
    k := |names| - 1;
    if names[k] != name {
      k := LastOf(names[..k], name);
    }
  }

  /** More texts change no default and make no string unknown. */
  lemma DefaultsStay(columns: seq<Column>, fields: seq<Value>, view: map<nat, seq<byte>>, more: map<nat, seq<byte>>)
    requires |fields| == |columns| && I.Extends(view, more)
    ensures forall i :: 0 <= i < |columns| && IsDefault(columns[i], fields[i], view) ==>
      IsDefault(columns[i], fields[i], more)
    ensures AllKnown(fields, view.Keys) ==> AllKnown(fields, more.Keys)
  {
  }

  lemma DefaultsFit(columns: seq<Column>, c: Column)
    requires SchemaOk(columns) && c in columns
    ensures DefaultOk(c)
  {
  }

  lemma RowsLearn(columns: seq<Column>, rows: Rows, known: set<nat>, more: set<nat>)
    requires RowsOk(columns, rows, known) && known <= more
    ensures RowsOk(columns, rows, more)
  {
    forall id | id in rows ensures RowOk(columns, rows[id], more) {
      assert RowOk(columns, rows[id], known);
    }
  }

  lemma RowWidth(columns: seq<Column>, rows: Rows, id: nat, known: set<nat>)
    requires RowsOk(columns, rows, known) && id in rows
    ensures RowOk(columns, rows[id], known) && |rows[id]| == |columns|
  {
  }

  lemma FewerRows(columns: seq<Column>, rows: Rows, id: nat, known: set<nat>)
    requires RowsOk(columns, rows, known)
    ensures RowsOk(columns, rows - {id}, known)
  {
    var u := rows - {id};
    forall x, y | x in u && y in u && x != y ensures Differ(columns, u[x], u[y]) {
      assert Differ(columns, rows[x], rows[y]);
    }
  }

  /** Rows that may stand together have different keys in every index. */
  lemma DifferentKeys(columns: seq<Column>, rows: Rows, i: nat, x: nat, y: nat, known: set<nat>)
    requires RowsOk(columns, rows, known) && i < |columns| && columns[i].indexed && x in rows && y in rows && x != y
    ensures |rows[x]| == |rows[y]| == |columns|
    ensures !rows[x][i].Null? && !rows[y][i].Null? ==> KeyOf(rows[x][i]) != KeyOf(rows[y][i])
  {
    assert RowOk(columns, rows[x], known) && RowOk(columns, rows[y], known);
    assert Differ(columns, rows[x], rows[y]);
    if !rows[x][i].Null? && !rows[y][i].Null? { KeysAreValues(columns[i], rows[x][i], rows[y][i]); }
  }

  lemma NewIsFree(columns: seq<Column>, trees: map<string, Tree>, rows: Rows, ids: map<nat, RecordAddress>,
                  id: nat, fields: seq<Value>, known: set<nat>)
    requires rows.Keys == ids.Keys && TreesOk(columns, trees, rows, ids) && id !in rows
    requires RowsOk(columns, rows[id := fields], known)
    ensures |fields| == |columns| && AllOpen(columns, trees)
    ensures forall i :: 0 <= i < |columns| ==> Free(columns, trees, Nulls(|columns|), fields, i)
  {
    var u := rows[id := fields];
    assert RowOk(columns, u[id], known);
    forall i | 0 <= i < |columns| ensures Free(columns, trees, Nulls(|columns|), fields, i) {
      if columns[i].indexed && !fields[i].Null? && KeyOf(fields[i]) in trees[columns[i].name] {
        var x :| Backs(trees[columns[i].name], rows, ids, i, KeyOf(fields[i]), x);
        DifferentKeys(columns, u, i, x, id, known);
      }
    }
  }

  lemma TreesAfterInsert(columns: seq<Column>, trees: map<string, Tree>, trees': map<string, Tree>, rows: Rows,
                         ids: map<nat, RecordAddress>, id: nat, fields: seq<Value>, a: RecordAddress, known: set<nat>)
    requires rows.Keys == ids.Keys && TreesOk(columns, trees, rows, ids) && id !in rows && |fields| == |columns|
    requires AllOpen(columns, trees) && AllOpen(columns, trees')
    requires forall i :: 0 <= i < |columns| ==> Free(columns, trees, Nulls(|columns|), fields, i)
    requires forall i :: 0 <= i < |columns| ==> Moved(columns, trees, trees', Nulls(|columns|), fields, a, i)
    ensures TreesOk(columns, trees', rows[id := fields], ids[id := a])
  {
    forall i | 0 <= i < |columns| && columns[i].indexed
      ensures TreeOk(trees'[columns[i].name], rows[id := fields], ids[id := a], i)
    {
      assert Free(columns, trees, Nulls(|columns|), fields, i)
        && Moved(columns, trees, trees', Nulls(|columns|), fields, a, i);
      EnteringOk(trees[columns[i].name], rows, ids, i, id, fields, a);
    }
  }

  lemma TreesAfterRemove(columns: seq<Column>, trees: map<string, Tree>, trees': map<string, Tree>, rows: Rows,
                         ids: map<nat, RecordAddress>, id: nat, known: set<nat>)
    requires rows.Keys == ids.Keys && TreesOk(columns, trees, rows, ids) && id in rows && |rows[id]| == |columns|
    requires RowsOk(columns, rows, known)
    requires AllOpen(columns, trees) && AllOpen(columns, trees')
    requires forall i :: 0 <= i < |columns| ==>
      Moved(columns, trees, trees', rows[id], Nulls(|columns|), RecordAddress(0, 0), i)
    ensures TreesOk(columns, trees', rows - {id}, ids - {id})
  {
    forall i | 0 <= i < |columns| && columns[i].indexed
      ensures TreeOk(trees'[columns[i].name], rows - {id}, ids - {id}, i)
    {
      assert Moved(columns, trees, trees', rows[id], Nulls(|columns|), RecordAddress(0, 0), i);
      forall x | x in rows && x != id { DifferentKeys(columns, rows, i, x, id, known); }
      LeavingOk(trees[columns[i].name], rows, ids, i, id);
    }
  }
}
