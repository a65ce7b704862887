/** What inserting and updating several rows, one after the other, makes of a table. */
module BatchSpec {
  import opened Bytes
  import opened Values
  import opened Records
  import opened TableSpec
  import J = Journal

  // Inserting.

  /** Every row gets the next id. */
  ghost function InsertAll(s: Snapshot, made: seq<seq<Value>>): Snapshot {
    if made == [] then s
    else
      var n := |made| - 1;
      var u := InsertAll(s, made[..n]);
      Snapshot(u.rows[u.counter := made[n]], u.counter + 1)
  }

  /** The states just before each insertion. */
  ghost function InsertStates(s: Snapshot, made: seq<seq<Value>>): seq<Snapshot> {
    seq(|made|, i requires 0 <= i < |made| => InsertAll(s, made[..i]))
  }

  ghost function InsertTracks(counter: nat, stamps: seq<seq<byte>>): seq<J.Track> {
    seq(|stamps|, i requires 0 <= i < |stamps| => J.Track(stamps[i], J.Delete, counter + i, []))
  }

  /** What forbids `fields` as the next row behind those already inserted. */
  ghost function NextViolation(columns: seq<Column>, s: Snapshot, fields: seq<Value>): Option<Violation>
    requires |fields| == |columns|
  {
    FirstViolation(columns, s.rows, Some(s.counter), fields, 0)
  }

  /** Row `i` was allowed beside those before it. */
  ghost predicate Admitted(columns: seq<Column>, s: Snapshot, made: seq<seq<Value>>, i: nat)
    requires i < |made|
  {
    |made[i]| == |columns| && NextViolation(columns, InsertAll(s, made[..i]), made[i]).None?
  }

  /** The old rows stay, and the new ones follow under consecutive ids. */
  lemma {:induction false} InsertAllIs(s: Snapshot, made: seq<seq<Value>>)
    requires forall id :: id in s.rows ==> id < s.counter
    ensures var u := InsertAll(s, made);
      && u.counter == s.counter + |made|
      && (forall id :: id in u.rows <==> id in s.rows || s.counter <= id < u.counter)
      && (forall id :: id in s.rows ==> u.rows[id] == s.rows[id])
      && (forall i :: 0 <= i < |made| ==> u.rows[s.counter + i] == made[i])
    decreases |made|
  {
    if made != [] { InsertAllIs(s, made[..|made| - 1]); }
  }

  lemma InsertOneMore(s: Snapshot, made: seq<seq<Value>>, fields: seq<Value>)
    ensures var u := InsertAll(s, made);
      && InsertAll(s, made + [fields]) == Snapshot(u.rows[u.counter := fields], u.counter + 1)
      && InsertStates(s, made + [fields]) == InsertStates(s, made) + [u]
  {
    var more := made + [fields];
    assert more[..|made|] == made;
    hide InsertAll;
    var a, b := InsertStates(s, more), InsertStates(s, made) + [InsertAll(s, made)];
    forall i | 0 <= i < |more| ensures a[i] == b[i] {
      assert more[..i] == made[..i];
      assert i == |made| ==> made[..i] == made;
    }
  }

  lemma TrackOneMore(counter: nat, stamps: seq<seq<byte>>, n: nat)
    requires n < |stamps|
    ensures InsertTracks(counter, stamps[..n + 1]) ==
      InsertTracks(counter, stamps[..n]) + [J.Track(stamps[n], J.Delete, counter + n, [])]
  {
  }

  lemma AdmittedOneMore(columns: seq<Column>, s: Snapshot, made: seq<seq<Value>>, fields: seq<Value>)
    requires forall i :: 0 <= i < |made| ==> Admitted(columns, s, made, i)
    requires |fields| == |columns| && NextViolation(columns, InsertAll(s, made), fields).None?
    ensures forall i :: 0 <= i < |made| + 1 ==> Admitted(columns, s, made + [fields], i)
  {
    hide InsertAll, NextViolation;
    var more := made + [fields];
    forall i | 0 <= i < |more| ensures Admitted(columns, s, more, i) {
      assert more[..i] == made[..i];
      if i < |made| { assert Admitted(columns, s, made, i); }
    }
  }

  // Updating.

  /** New fields for the row of an id. */
  type Change = (nat, seq<Value>)

  ghost predicate Wide(columns: seq<Column>, l: seq<Change>) {
    forall i :: 0 <= i < |l| ==> |l[i].1| == |columns|
  }

  /** What forbids change `i`. */
  ghost function ChangeViolation(columns: seq<Column>, rows: Rows, l: seq<Change>, i: nat): Option<Violation>
    requires Wide(columns, l) && i < |l|
  {
    FirstViolation(columns, rows, Some(l[i].0), l[i].1, 0)
  }

  /** The first `n` changes made: a row whose new fields are forbidden keeps the old ones,
      the others get theirs. */
  ghost function UpdateAll(columns: seq<Column>, rows: Rows, l: seq<Change>, n: nat): Rows
    requires Wide(columns, l) && n <= |l|
  {
    if n == 0 then rows
    else
      var u := UpdateAll(columns, rows, l, n - 1);
      if ChangeViolation(columns, u, l, n - 1).None? then u[l[n - 1].0 := l[n - 1].1] else u
  }

  /** The changes among them that were forbidden, by their places, and why. */
  ghost function UpdateErrors(columns: seq<Column>, rows: Rows, l: seq<Change>, n: nat): seq<(nat, Violation)>
    requires Wide(columns, l) && n <= |l|
  {
    if n == 0 then []
    else
      var v := ChangeViolation(columns, UpdateAll(columns, rows, l, n - 1), l, n - 1);
      UpdateErrors(columns, rows, l, n - 1) + if v.Some? then [(n - 1, v.value)] else []
  }

  /** The states just before each update that was made. */
  ghost function UpdateStates(columns: seq<Column>, s: Snapshot, l: seq<Change>, n: nat): seq<Snapshot>
    requires Wide(columns, l) && n <= |l|
  {
    if n == 0 then []
    else
      var u := UpdateAll(columns, s.rows, l, n - 1);
      UpdateStates(columns, s, l, n - 1) +
        if ChangeViolation(columns, u, l, n - 1).None? then [Snapshot(u, s.counter)] else []
  }

  /** The tracks of the updates that were made, each with the fields its row had. */
  ghost function UpdateTracks(columns: seq<Column>, rows: Rows, l: seq<Change>, n: nat, stamps: seq<seq<byte>>):
      seq<J.Track>
    requires Wide(columns, l) && n <= |l| == |stamps|
  {
    if n == 0 then []
    else
      var u := UpdateAll(columns, rows, l, n - 1);
      UpdateTracks(columns, rows, l, n - 1, stamps) +
        if ChangeViolation(columns, u, l, n - 1).None? then TrackOf(u, l[n - 1].0, stamps[n - 1]) else []
  }

  ghost function TrackOf(rows: Rows, id: nat, stamp: seq<byte>): seq<J.Track> {
    if id in rows then [J.Track(stamp, J.Update, id, rows[id])] else []
  }

  /** One more change: refused, or made with a track and a past state. */
  lemma UpdateOneMore(columns: seq<Column>, s: Snapshot, l: seq<Change>, n: nat, stamps: seq<seq<byte>>)
    requires Wide(columns, l) && n < |l| == |stamps|
    ensures var u := UpdateAll(columns, s.rows, l, n);
      match ChangeViolation(columns, u, l, n)
      case Some(w) =>
        && UpdateAll(columns, s.rows, l, n + 1) == u
        && UpdateErrors(columns, s.rows, l, n + 1) == UpdateErrors(columns, s.rows, l, n) + [(n, w)]
        && UpdateStates(columns, s, l, n + 1) == UpdateStates(columns, s, l, n)
        && UpdateTracks(columns, s.rows, l, n + 1, stamps) == UpdateTracks(columns, s.rows, l, n, stamps)
      case None =>
        && UpdateAll(columns, s.rows, l, n + 1) == u[l[n].0 := l[n].1]
        && UpdateErrors(columns, s.rows, l, n + 1) == UpdateErrors(columns, s.rows, l, n)
        && UpdateStates(columns, s, l, n + 1) == UpdateStates(columns, s, l, n) + [Snapshot(u, s.counter)]
        && UpdateTracks(columns, s.rows, l, n + 1, stamps) ==
           UpdateTracks(columns, s.rows, l, n, stamps) + TrackOf(u, l[n].0, stamps[n])
  {
    hide ChangeViolation, TrackOf;
  }

  ghost predicate DistinctChanges(l: seq<Change>) {
    forall i, j :: 0 <= i < j < |l| ==> l[i].0 != l[j].0
  }

  ghost predicate Refused(errors: seq<(nat, Violation)>, i: nat) {
    exists k :: 0 <= k < |errors| && errors[k].0 == i
  }

  ghost predicate Within(errors: seq<(nat, Violation)>, n: nat) {
    forall k :: 0 <= k < |errors| ==> errors[k].0 < n
  }

  /** Change `i` was made, unless there is an error for it; then its row is as before. */
  ghost predicate Done(rows: Rows, after: Rows, l: seq<Change>, errors: seq<(nat, Violation)>, i: nat)
    requires i < |l|
  {
    && l[i].0 in rows && l[i].0 in after
    && after[l[i].0] == if Refused(errors, i) then rows[l[i].0] else l[i].1
  }

  /** Rows are neither lost nor added, those that no change is for stay, and each change is
      made exactly if there is no error for it. */
  lemma {:induction false} UpdateAllIs(columns: seq<Column>, rows: Rows, l: seq<Change>, n: nat)
    requires Wide(columns, l) && n <= |l| && DistinctChanges(l) && forall i :: 0 <= i < |l| ==> l[i].0 in rows
    ensures var u, errors := UpdateAll(columns, rows, l, n), UpdateErrors(columns, rows, l, n);
      && u.Keys == rows.Keys
      && (forall id :: id in rows && (forall i :: 0 <= i < n ==> l[i].0 != id) ==> u[id] == rows[id])
      && (forall i :: 0 <= i < n ==> Done(rows, u, l, errors, i))
      && Within(errors, n)
    decreases n
  {
    hide ChangeViolation, Refused, UpdateErrors, Within;
    if n == 0 {
      NoErrors(columns, rows, l);
    } else {
      UpdateAllIs(columns, rows, l, n - 1);
      var u, v := UpdateAll(columns, rows, l, n - 1), UpdateAll(columns, rows, l, n);
      var e, f := UpdateErrors(columns, rows, l, n - 1), UpdateErrors(columns, rows, l, n);
      ErrorsGrow(columns, rows, l, n);
      forall i | 0 <= i < n ensures Done(rows, v, l, f, i) {
        if i < n - 1 { assert Done(rows, u, l, e, i); }
      }
    }
  }

  /** Each change leaves an error or a track, and a track holds what its row was before them all. */
  lemma {:induction false} ErrorOrTrack(columns: seq<Column>, rows: Rows, l: seq<Change>, n: nat,
                                        stamps: seq<seq<byte>>)
    requires Wide(columns, l) && n <= |l| == |stamps| && DistinctChanges(l)
    requires forall i :: 0 <= i < |l| ==> l[i].0 in rows
    ensures var errors, tracks := UpdateErrors(columns, rows, l, n), UpdateTracks(columns, rows, l, n, stamps);
      && |errors| + |tracks| == n
      && forall k :: 0 <= k < |tracks| ==> tracks[k].id in rows && tracks[k].fields == rows[tracks[k].id]
    decreases n
  {
    hide ChangeViolation, Refused, Done, Within;
    if n > 0 {
      ErrorOrTrack(columns, rows, l, n - 1, stamps);
      UpdateAllIs(columns, rows, l, n - 1);
    }
  }

  lemma NoErrors(columns: seq<Column>, rows: Rows, l: seq<Change>)
    requires Wide(columns, l)
    ensures Within(UpdateErrors(columns, rows, l, 0), 0)
  {
  }

  lemma ErrorsGrow(columns: seq<Column>, rows: Rows, l: seq<Change>, n: nat)
    requires Wide(columns, l) && 0 < n <= |l| && Within(UpdateErrors(columns, rows, l, n - 1), n - 1)
    ensures var e, f := UpdateErrors(columns, rows, l, n - 1), UpdateErrors(columns, rows, l, n);
      && (forall i: nat :: i < n - 1 ==> (Refused(f, i) <==> Refused(e, i)))
      && (Refused(f, n - 1) <==> ChangeViolation(columns, UpdateAll(columns, rows, l, n - 1), l, n - 1).Some?)
      && Within(f, n)
  {
    hide ChangeViolation, UpdateAll;
    var e, f := UpdateErrors(columns, rows, l, n - 1), UpdateErrors(columns, rows, l, n);
    assert |f| > |e| ==> f[|e|].0 == n - 1;
    forall i: nat | i < n - 1 ensures Refused(f, i) <==> Refused(e, i) {
      if Refused(e, i) {
        var k :| 0 <= k < |e| && e[k].0 == i;
        assert f[k].0 == i;
      }
    }
  }
}
