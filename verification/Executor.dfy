/** Evaluating conditions on rows, and finding the matching rows by way of an index. */
module Executor {
  import opened Bytes
  import opened LeafRun
  import opened Values
  import opened Records
  import opened TableSpec
  import opened BatchSpec
  import opened Journal
  import T = Table
  import I = Interner
  import A = Ast

  type Text = I.Text

  // What a condition means, said without string ids.

  datatype Datum = DNull | DInt(number: int) | DText(text: Text)

  /** The bytes of a string of the statement. */
  function TextOf(s: string): Text {
    seq(|s|, i requires 0 <= i < |s| => (s[i] as int) % 256)
  }

  function DatumOf(v: Value, view: map<nat, Text>): Datum {
    match v
    case Null => DNull
    case Int(n) => DInt(n)
    case Str(id) => if id in view then DText(view[id]) else DNull
  }

  function RowOf(fields: seq<Value>, view: map<nat, Text>): (row: seq<Datum>)
    ensures |row| == |fields| && forall i :: 0 <= i < |fields| ==> row[i] == DatumOf(fields[i], view)
  {
    seq(|fields|, i requires 0 <= i < |fields| => DatumOf(fields[i], view))
  }

  /** An error or a truth value. */
  datatype Verdict = Error | Truth(value: SqlBool)

  function Both(a: Verdict, b: Verdict): Verdict {
    if a.Error? || b.Error? then Error else Truth(And(a.value, b.value))
  }

  function Either(a: Verdict, b: Verdict): Verdict {
    if a.Error? || b.Error? then Error else Truth(Or(a.value, b.value))
  }

  function LiteralMeaning(l: A.Literal): Option<Datum> {
    match l.kind
    case NullType => Some(DNull)
    case IntegerType => (var n := A.Stoi(l.value); if n.Some? then Some(DInt(n.value)) else None)
    case StringType => Some(DText(TextOf(l.value)))
  }

  function ExpressionMeaning(e: A.Expression, columns: seq<Column>, row: seq<Datum>): Option<Datum>
    requires |row| == |columns|
  {
    match e
    case LiteralExpr(l) => LiteralMeaning(l)
    case Identifier(name) => (var i := ColumnIndex(columns, name); if i.Some? then Some(row[i.value]) else None)
    case Aggregate(_, _) => None
  }

  /** What SET makes of a row: each assignment sees what those before it have stored. */
  function AssignMeaning(assignments: seq<(string, A.Expression)>, columns: seq<Column>,
                         row: seq<Datum>): (r: Option<seq<Datum>>)
    requires |row| == |columns|
    ensures r.Some? ==> |r.value| == |columns|
  {
    if assignments == [] then Some(row)
    else
      var (init, last) := (assignments[..|assignments| - 1], assignments[|assignments| - 1]);
      var before := AssignMeaning(init, columns, row);
      if before.None? then None
      else
        var (i, v) := (ColumnIndex(columns, last.0), ExpressionMeaning(last.1, columns, before.value));
        if i.None? || v.None? then None else Some(before.value[i.value := v.value])
  }

  function OrderMeaning(op: A.Operator, less: bool, equal: bool): SqlBool {
    match op
    case Equal => OfBool(equal)
    case NotEqual => OfBool(!equal)
    case Less => OfBool(less)
    case Greater => OfBool(!less && !equal)
    case LessEqual => OfBool(less || equal)
    case GreaterEqual => OfBool(!less)
  }

  function Compare(op: A.Operator, a: Datum, b: Datum): Verdict {
    if a.DNull? || b.DNull? then Truth(Unknown)
    else if a.DText? && b.DText? then Truth(OrderMeaning(op, LexLess(a.text, b.text), a.text == b.text))
    else if a.DInt? && b.DInt? then Truth(OrderMeaning(op, a.number < b.number, a.number == b.number))
    else Error
  }

  /** An order of texts. */
  type TextOrder = (Text, Text) -> bool

  /** One bound of BETWEEN. Texts are not compared as texts there, but by `order`: which of
      them has been interned first. */
  function Bound(op: A.Operator, a: Datum, b: Datum, order: TextOrder): Verdict {
    if a.DText? && b.DText? then Truth(OrderMeaning(op, order(a.text, b.text), a.text == b.text)) else Compare(op, a, b)
  }

  function Meaning(c: A.Condition, columns: seq<Column>, row: seq<Datum>, matches: (string, Text) -> Option<bool>,
                   order: TextOrder): Verdict
    requires |row| == |columns|
  {
    match c
    case Comparison(l, op, r) =>
      var (a, b) := (ExpressionMeaning(l, columns, row), ExpressionMeaning(r, columns, row));
      if a.None? || b.None? then Error else Compare(op, a.value, b.value)
    case Between(v, lo, hi) =>
      var x := ExpressionMeaning(v, columns, row);
      var (a, b) := (ExpressionMeaning(lo, columns, row), ExpressionMeaning(hi, columns, row));
      if x.None? || a.None? || b.None? then Error
      else Both(Bound(A.GreaterEqual, x.value, a.value, order), Bound(A.LessEqual, x.value, b.value, order))
    case Like(v, pattern) =>
      var x := ExpressionMeaning(v, columns, row);
      if x.None? then Error
      else if x.value.DNull? then Truth(Unknown)
      else if !x.value.DText? then Error
      else
        var m := matches(pattern, x.value.text);
        if m.Some? then Truth(OfBool(m.value)) else Error
    case And(a, b) => Both(Meaning(a, columns, row, matches, order), Meaning(b, columns, row, matches, order))
    case Or(a, b) => Either(Meaning(a, columns, row, matches, order), Meaning(b, columns, row, matches, order))
  }

  /** The string literals that evaluation may intern. */
  function LiteralTexts(l: A.Literal): set<Text> {
    if l.kind.StringType? then {TextOf(l.value)} else {}
  }

  function ExpressionTexts(e: A.Expression): set<Text> {
    if e.LiteralExpr? then LiteralTexts(e.literal) else {}
  }

  function Texts(c: A.Condition): set<Text> {
    match c
    case Comparison(l, _, r) => ExpressionTexts(l) + ExpressionTexts(r)
    case Between(v, lo, hi) => ExpressionTexts(v) + ExpressionTexts(lo) + ExpressionTexts(hi)
    case Like(v, _) => ExpressionTexts(v)
    case And(a, b) => Texts(a) + Texts(b)
    case Or(a, b) => Texts(a) + Texts(b)
  }

  /** Columns exist and integers are in range. */
  predicate ExpressionOk(e: A.Expression, columns: seq<Column>) {
    match e
    case LiteralExpr(l) => LiteralMeaning(l).Some?
    case Identifier(name) => ColumnIndex(columns, name).Some?
    case Aggregate(_, _) => false
  }

  predicate ConditionOk(c: A.Condition, columns: seq<Column>) {
    match c
    case Comparison(l, _, r) => ExpressionOk(l, columns) && ExpressionOk(r, columns)
    case Between(v, lo, hi) => ExpressionOk(v, columns) && ExpressionOk(lo, columns) && ExpressionOk(hi, columns)
    case Like(v, _) => ExpressionOk(v, columns)
    case And(a, b) => ConditionOk(a, columns) && ConditionOk(b, columns)
    case Or(a, b) => ConditionOk(a, columns) && ConditionOk(b, columns)
  }

  // Evaluation on stored values.

  function CompareTexts(a: Text, b: Text, op: A.Operator): SqlBool {
    OrderMeaning(op, LexLess(a, b), a == b)
  }

  function CompareValues(a: Value, b: Value, op: A.Operator): Option<SqlBool> {
    match op
    case Equal => Equals(a, b)
    case NotEqual => NotEquals(a, b)
    case Less => Less(a, b)
    case Greater => Greater(a, b)
    case LessEqual => LessOrEqual(a, b)
    case GreaterEqual => GreaterOrEqual(a, b)
  }

  /** Off strings, the operators on values mean what the reference says. */
  lemma ValuesCompareAsData(a: Value, b: Value, op: A.Operator, view: map<nat, Text>)
    requires Known(a, view.Keys) && Known(b, view.Keys) && !(a.Str? && b.Str?)
    ensures var r := CompareValues(a, b, op); var v := Compare(op, DatumOf(a, view), DatumOf(b, view));
      if r.Some? then v == Truth(r.value) else v == Error
  {
  }

  lemma DatumStays(v: Value, view: map<nat, Text>, more: map<nat, Text>)
    requires Known(v, view.Keys) && I.Extends(view, more)
    ensures Known(v, more.Keys) && DatumOf(v, more) == DatumOf(v, view)
  {
  }

  lemma RowStays(fields: seq<Value>, view: map<nat, Text>, more: map<nat, Text>)
    requires AllKnown(fields, view.Keys) && I.Extends(view, more)
    ensures AllKnown(fields, more.Keys) && RowOf(fields, more) == RowOf(fields, view)
  {
    forall i | 0 <= i < |fields|
      ensures DatumOf(fields[i], more) == DatumOf(fields[i], view) && Known(fields[i], more.Keys) {
      assert Known(fields[i], view.Keys);
      DatumStays(fields[i], view, more);
    }
  }

  /** What a condition is evaluated in: the columns, the texts of the ids, the engine, and the
      order of texts for BETWEEN. */
  datatype Context = Context(columns: seq<Column>, view: map<nat, Text>,
                             matches: (string, Text) -> Option<bool>, order: TextOrder)

  /** The same with another order. */
  function In(x: Context, order: TextOrder): Context { x.(order := order) }

  /** The order is that of the ids. */
  ghost predicate Ranks(order: TextOrder, view: map<nat, Text>) {
    forall i, j :: i in view && j in view ==> (order(view[i], view[j]) <==> i < j)
  }

  ghost function IdOrder(view: map<nat, Text>): TextOrder {
    (a: Text, b: Text) => exists i, j :: i in view && j in view && view[i] == a && view[j] == b && i < j
  }

  /** Every assignment of ids has such an order. */
  lemma IdOrderRanks(view: map<nat, Text>)
    requires forall i, j :: i in view && j in view && view[i] == view[j] ==> i == j
    ensures Ranks(IdOrder(view), view)
  {
    forall i, j | i in view && j in view ensures IdOrder(view)(view[i], view[j]) <==> i < j {
      if IdOrder(view)(view[i], view[j]) {
        var k, l :| k in view && l in view && view[k] == view[i] && view[l] == view[j] && k < l;
        assert k == i && l == j;
      }
    }
  }

  lemma RankedOnes(view: map<nat, Text>, more: map<nat, Text>)
    requires I.Extends(view, more)
    ensures forall order :: Ranks(order, more) ==> Ranks(order, view)
  {
  }

  ghost predicate Satisfies(x: Context, c: A.Condition, fields: seq<Value>) {
    |fields| == |x.columns| && Meaning(c, x.columns, RowOf(fields, x.view), x.matches, x.order) == Truth(True)
  }

  /** The condition has a truth value on the row. */
  ghost predicate Decided(x: Context, c: A.Condition, fields: seq<Value>) {
    |fields| == |x.columns| && Meaning(c, x.columns, RowOf(fields, x.view), x.matches, x.order).Truth?
  }

  ghost predicate AllDecided(x: Context, c: A.Condition, l: seq<(nat, seq<Value>)>) {
    forall i :: 0 <= i < |l| ==> Decided(x, c, l[i].1)
  }

  /** The rows of a list the condition is true of. */
  ghost function Filter(x: Context, l: seq<(nat, seq<Value>)>, c: A.Condition): (f: seq<(nat, seq<Value>)>) {
    if l == [] then [] else
      Filter(x, l[..|l| - 1], c) + if Satisfies(x, c, l[|l| - 1].1) then [l[|l| - 1]] else []
  }

  /** Every row the condition is true of is among `records`, which are live and no more than one. */
  ghost predicate Narrows(x: Context, rows: Rows, ids: map<nat, RecordAddress>, records: seq<T.Record>, c: A.Condition)
    requires rows.Keys == ids.Keys
  {
    && |records| <= 1
    && AllLive(records, rows, ids)
    && (forall id :: id in rows && Satisfies(x, c, rows[id]) ==> Has(records, id))
  }

  ghost predicate AllLive(records: seq<T.Record>, rows: Rows, ids: map<nat, RecordAddress>)
    requires rows.Keys == ids.Keys
  {
    forall i :: 0 <= i < |records| ==> T.Live(records[i], rows, ids)
  }

  ghost predicate Has(records: seq<T.Record>, id: nat) {
    exists i :: 0 <= i < |records| && records[i].id == id
  }

  ghost predicate RowsKnown(x: Context, rows: Rows) {
    forall id :: id in rows ==> |rows[id]| == |x.columns| && AllKnown(rows[id], x.view.Keys)
  }

  /** More texts change the meaning of no row. */
  lemma MeaningStays(x: Context, y: Context, c: A.Condition, fields: seq<Value>)
    requires y == x.(view := y.view) && I.Extends(x.view, y.view)
    requires |fields| == |x.columns| && AllKnown(fields, x.view.Keys)
    ensures Satisfies(x, c, fields) <==> Satisfies(y, c, fields)
    ensures Decided(x, c, fields) <==> Decided(y, c, fields)
  {
    RowStays(fields, x.view, y.view);
  }

  lemma AndNarrows(x: Context, rows: Rows, ids: map<nat, RecordAddress>, records: seq<T.Record>,
                   c: A.Condition, part: A.Condition)
    requires rows.Keys == ids.Keys && c.And? && (part == c.first || part == c.second)
    requires Narrows(x, rows, ids, records, part)
    ensures Narrows(x, rows, ids, records, c)
  {
    forall id | id in rows && Satisfies(x, c, rows[id]) ensures Satisfies(x, part, rows[id]) {
    }
  }

  /** Filtering a list in which only one row can qualify. */
  lemma {:induction false} FilterOfOne(x: Context, l: seq<(nat, seq<Value>)>, c: A.Condition,
                                       id: nat, fields: seq<Value>)
    requires forall i, j :: 0 <= i < j < |l| ==> l[i].0 != l[j].0
    requires forall i :: 0 <= i < |l| && (Satisfies(x, c, l[i].1) || l[i].0 == id) ==> l[i] == (id, fields)
    ensures Filter(x, l, c) == if (id, fields) in l && Satisfies(x, c, fields) then [(id, fields)] else []
    decreases |l|
  {
    hide Satisfies;
    if l != [] {
      var n := |l| - 1;
      FilterOfOne(x, l[..n], c, id, fields);
      assert l == l[..n] + [l[n]];
    }
  }

  lemma {:induction false} FilterOfNone(x: Context, l: seq<(nat, seq<Value>)>, c: A.Condition)
    requires forall i :: 0 <= i < |l| ==> !Satisfies(x, c, l[i].1)
    ensures Filter(x, l, c) == []
    decreases |l|
  {
    if l != [] { FilterOfNone(x, l[..|l| - 1], c); }
  }

  /** Filtering the narrowed records is filtering the whole listing. */
  lemma NarrowFilter(x: Context, rows: Rows, ids: map<nat, RecordAddress>,
                     records: seq<T.Record>, c: A.Condition, n: nat)
    requires rows.Keys == ids.Keys && Narrows(x, rows, ids, records, c) && forall id :: id in rows ==> id < n
    ensures Filter(x, T.PairsOf(records), c) == Filter(x, T.Listing(rows, n), c)
  {
    hide Satisfies;
    var l := T.Listing(rows, n);
    T.ListingIsComplete(rows, n);
    forall i | 0 <= i < |l| ensures l[i].0 in rows && rows[l[i].0] == l[i].1 {
      assert (l[i].0, l[i].1) in l;
    }
    if records == [] {
      FilterOfNone(x, l, c);
    } else {
      var r := records[0];
      assert T.Live(r, rows, ids);
      assert T.PairsOf(records) == [(r.id, r.fields)];
      FilterOfOne(x, l, c, r.id, r.fields);
      FilterOfOne(x, T.PairsOf(records), c, r.id, r.fields);
    }
  }

  lemma FilterStep(x: Context, l: seq<(nat, seq<Value>)>, i: nat, c: A.Condition)
    requires i < |l|
    ensures Filter(x, l[..i + 1], c) == Filter(x, l[..i], c) + if Satisfies(x, c, l[i].1) then [l[i]] else []
  {
    assert l[..i + 1][..i] == l[..i];
  }

  ghost predicate OneOf(r: T.Record, records: seq<T.Record>, i: nat)
    requires i <= |records|
  {
    exists j :: 0 <= j < i && r == records[j]
  }

  /** Every record of `result` is one of the first `i`. */
  ghost predicate From(result: seq<T.Record>, records: seq<T.Record>, i: nat)
    requires i <= |records|
  {
    forall k :: 0 <= k < |result| ==> OneOf(result[k], records, i)
  }

  lemma OneOfMore(r: T.Record, records: seq<T.Record>, i: nat)
    requires i < |records| && T.DistinctIds(records)
    ensures OneOf(r, records, i) ==> OneOf(r, records, i + 1) && r.id != records[i].id
    ensures OneOf(records[i], records, i + 1)
  {
    if OneOf(r, records, i) {
      var j :| 0 <= j < i && r == records[j];
      assert 0 <= j < i + 1 && r == records[j];
    }
    assert 0 <= i < i + 1 && records[i] == records[i];
  }

  lemma FromNext(result: seq<T.Record>, records: seq<T.Record>, i: nat)
    requires i < |records| && T.DistinctIds(records) && T.DistinctIds(result) && From(result, records, i)
    ensures From(result, records, i + 1)
    ensures From(result + [records[i]], records, i + 1) && T.DistinctIds(result + [records[i]])
  {
    hide OneOf;
    OneOfMore(records[i], records, i);
    forall k | 0 <= k < |result| ensures OneOf(result[k], records, i + 1) && result[k].id != records[i].id {
      OneOfMore(result[k], records, i);
    }
  }

  /** What has been chosen from the first `i` records. */
  ghost predicate Picked(result: seq<T.Record>, records: seq<T.Record>, i: nat, rows: Rows,
                         ids: map<nat, RecordAddress>)
    requires i <= |records| && rows.Keys == ids.Keys
  {
    AllLive(result, rows, ids) && |result| <= i && T.DistinctIds(result) && From(result, records, i)
  }

  ghost predicate Filtered(x: Context, c: A.Condition, result: seq<T.Record>, records: seq<T.Record>, i: nat)
    requires i <= |records|
  {
    AllDecided(x, c, T.PairsOf(records)) ==> T.PairsOf(result) == Filter(x, T.PairsOf(records)[..i], c)
  }

  /** The choice is that of the filter in every order the ids known by now follow. */
  ghost predicate SoFar(x: Context, now: map<nat, Text>, c: A.Condition, result: seq<T.Record>,
                        records: seq<T.Record>, i: nat)
    requires i <= |records|
  {
    forall order :: Ranks(order, now) ==> Filtered(In(x, order), c, result, records, i)
  }

  /** The verdict on a row is the reference's in every such order. */
  ghost predicate Tells(x: Context, now: map<nat, Text>, c: A.Condition, fields: seq<Value>, r: Option<SqlBool>) {
    forall order :: Ranks(order, now) && Decided(In(x, order), c, fields) ==>
      r.Some? && (r.value == True <==> Satisfies(In(x, order), c, fields))
  }

  /** The answer is the filtered listing in every such order. */
  ghost predicate Answers(x: Context, now: map<nat, Text>, c: A.Condition, l: seq<(nat, seq<Value>)>,
                          r: Option<seq<T.Record>>) {
    forall order :: Ranks(order, now) && AllDecided(In(x, order), c, l) ==>
      r.Some? && T.PairsOf(r.value) == Filter(In(x, order), l, c)
  }

  lemma NothingPicked(x: Context, now: map<nat, Text>, c: A.Condition, records: seq<T.Record>, rows: Rows,
                      ids: map<nat, RecordAddress>)
    requires rows.Keys == ids.Keys
    ensures Picked([], records, 0, rows, ids) && SoFar(x, now, c, [], records, 0)
  {
  }

  lemma PickedNext(result: seq<T.Record>, records: seq<T.Record>, i: nat, rows: Rows,
                   ids: map<nat, RecordAddress>, yes: bool)
    requires i < |records| && rows.Keys == ids.Keys && AllLive(records, rows, ids) && T.DistinctIds(records)
    requires Picked(result, records, i, rows, ids)
    ensures Picked(if yes then result + [records[i]] else result, records, i + 1, rows, ids)
  {
    hide T.DistinctIds, From, T.Live;
    FromNext(result, records, i);
  }

  lemma FilteredNext(x: Context, c: A.Condition, result: seq<T.Record>, records: seq<T.Record>, i: nat, yes: bool)
    requires i < |records| && Filtered(x, c, result, records, i)
    requires Decided(x, c, records[i].fields) ==> (yes <==> Satisfies(x, c, records[i].fields))
    ensures Filtered(x, c, if yes then result + [records[i]] else result, records, i + 1)
  {
    hide Decided, Satisfies, Filter;
    var l := T.PairsOf(records);
    FilterStep(x, l, i, c);
    assert l[i].1 == records[i].fields;
    assert T.PairsOf(result + [records[i]]) == T.PairsOf(result) + [l[i]];
  }

  lemma SoFarNext(x: Context, before: map<nat, Text>, now: map<nat, Text>, c: A.Condition, result: seq<T.Record>,
                  records: seq<T.Record>, i: nat, r: Option<SqlBool>)
    requires i < |records| && I.Extends(before, now) && r.Some?
    requires SoFar(x, before, c, result, records, i) && Tells(x, now, c, records[i].fields, r)
    ensures SoFar(x, now, c, if r.value == True then result + [records[i]] else result, records, i + 1)
  {
    hide Decided, Satisfies, Filtered, Ranks;
    RankedOnes(before, now);
    forall order | Ranks(order, now)
      ensures Filtered(In(x, order), c, if r.value == True then result + [records[i]] else result, records, i + 1)
    {
      FilteredNext(In(x, order), c, result, records, i, r.value == True);
    }
  }

  lemma AllPicked(x: Context, now: map<nat, Text>, c: A.Condition, result: seq<T.Record>, records: seq<T.Record>)
    requires SoFar(x, now, c, result, records, |records|)
    ensures Answers(x, now, c, T.PairsOf(records), Some(result))
  {
    hide AllDecided, Ranks, Filter;
    assert T.PairsOf(records)[..|records|] == T.PairsOf(records);
    forall order | Ranks(order, now) && AllDecided(In(x, order), c, T.PairsOf(records))
      ensures T.PairsOf(result) == Filter(In(x, order), T.PairsOf(records), c)
    {
      assert Filtered(In(x, order), c, result, records, |records|);
    }
  }

  lemma NoAnswer(x: Context, now: map<nat, Text>, c: A.Condition, records: seq<T.Record>, i: nat)
    requires i < |records| && Tells(x, now, c, records[i].fields, None)
    ensures Answers(x, now, c, T.PairsOf(records), None)
  {
    hide Decided, Ranks;
    forall order | Ranks(order, now) ensures !AllDecided(In(x, order), c, T.PairsOf(records)) {
      assert T.PairsOf(records)[i].1 == records[i].fields;
    }
  }

  lemma EachLive(records: seq<T.Record>, i: nat, rows: Rows, ids: map<nat, RecordAddress>)
    requires rows.Keys == ids.Keys && AllLive(records, rows, ids) && i < |records|
    ensures T.Live(records[i], rows, ids)
  {
  }

  ghost predicate ListKnown(x: Context, l: seq<(nat, seq<Value>)>) {
    forall i :: 0 <= i < |l| ==> |l[i].1| == |x.columns| && AllKnown(l[i].1, x.view.Keys)
  }

  lemma {:induction false} FilterStays(x: Context, y: Context, l: seq<(nat, seq<Value>)>, c: A.Condition)
    requires y == x.(view := y.view) && I.Extends(x.view, y.view) && ListKnown(x, l)
    ensures Filter(x, l, c) == Filter(y, l, c)
    ensures AllDecided(x, c, l) <==> AllDecided(y, c, l)
    decreases |l|
  {
    hide Satisfies, Decided;
    if l != [] {
      var n := |l| - 1;
      FilterStays(x, y, l[..n], c);
      MeaningStays(x, y, c, l[n].1);
      assert l == l[..n] + [l[n]];
    }
  }

  /** What the candidates of a query have to do with its answer. */
  lemma CandidatesSuffice(x: Context, y: Context, rows: Rows, ids: map<nat, RecordAddress>, records: seq<T.Record>,
                          c: A.Condition, n: nat)
    requires rows.Keys == ids.Keys && y == x.(view := y.view) && I.Extends(x.view, y.view) && RowsKnown(x, rows)
    requires AllLive(records, rows, ids) && forall id :: id in rows ==> id < n
    requires T.PairsOf(records) == T.Listing(rows, n) || Narrows(y, rows, ids, records, c)
    ensures Filter(y, T.PairsOf(records), c) == Filter(x, T.Listing(rows, n), c)
    ensures AllDecided(x, c, T.Listing(rows, n)) ==> AllDecided(y, c, T.PairsOf(records))
  {
    hide Satisfies, Decided, Filter, Narrows;
    var l := T.Listing(rows, n);
    T.ListingIsComplete(rows, n);
    forall i | 0 <= i < |l| ensures l[i].0 in rows && rows[l[i].0] == l[i].1 {
      assert (l[i].0, l[i].1) in l;
    }
    FilterStays(x, y, l, c);
    if T.PairsOf(records) != l { NarrowFilter(y, rows, ids, records, c, n); }
    forall i | 0 <= i < |records| && AllDecided(x, c, l) ensures Decided(y, c, records[i].fields) {
      assert T.Live(records[i], rows, ids);
      assert (records[i].id, records[i].fields) in l;
    }
  }

  /** So an answer for the candidates is one for the whole table. */
  lemma AnswersForAll(x: Context, y: Context, now: map<nat, Text>, rows: Rows,
                      ids: map<nat, RecordAddress>, records: seq<T.Record>,
                      c: A.Condition, n: nat, r: Option<seq<T.Record>>)
    requires rows.Keys == ids.Keys && y == x.(view := y.view) && I.Extends(x.view, y.view) && RowsKnown(x, rows)
    requires AllLive(records, rows, ids) && forall id :: id in rows ==> id < n
    requires T.PairsOf(records) == T.Listing(rows, n) || forall order :: Narrows(In(y, order), rows, ids, records, c)
    requires Answers(y, now, c, T.PairsOf(records), r)
    ensures Answers(x, now, c, T.Listing(rows, n), r)
  {
    hide AllDecided, Ranks, Filter, Narrows, AllLive, RowsKnown;
    forall order | Ranks(order, now) && AllDecided(In(x, order), c, T.Listing(rows, n))
      ensures r.Some? && T.PairsOf(r.value) == Filter(In(x, order), T.Listing(rows, n), c)
    {
      StillKnown(x, order, rows);
      CandidatesSuffice(In(x, order), In(y, order), rows, ids, records, c, n);
    }
  }

  lemma StillKnown(x: Context, order: TextOrder, rows: Rows)
    ensures RowsKnown(x, rows) ==> RowsKnown(In(x, order), rows)
  {
  }

  /** The ids left when the filtered rows are gone. */
  lemma FilterIds(x: Context, rows: Rows, records: seq<T.Record>, c: A.Condition, n: nat)
    requires forall id :: id in rows ==> id < n
    ensures T.PairsOf(records) == Filter(x, T.Listing(rows, n), c) ==>
      forall id :: id in rows ==> (id in T.IdSet(records) <==> Satisfies(x, c, rows[id]))
  {
    var l := T.Listing(rows, n);
    T.ListingIsComplete(rows, n);
    if T.PairsOf(records) == Filter(x, l, c) {
      forall id | id in rows ensures id in T.IdSet(records) <==> Satisfies(x, c, rows[id]) {
        FilterHas(x, l, c, (id, rows[id]));
        assert (id, rows[id]) in l;
        if id in T.IdSet(records) {
          var k :| 0 <= k < |records| && records[k].id == id;
          FilterHas(x, l, c, T.PairsOf(records)[k]);
          assert T.PairsOf(records)[k] in Filter(x, l, c);
        }
        if Satisfies(x, c, rows[id]) {
          var k :| 0 <= k < |T.PairsOf(records)| && T.PairsOf(records)[k] == (id, rows[id]);
          assert records[k].id == id;
        }
      }
    }
  }

  /** Exactly the rows the condition is not true of remain. */
  ghost predicate Remain(x: Context, c: A.Condition, rows: Rows, left: Rows) {
    forall id :: id in left <==> id in rows && !Satisfies(x, c, rows[id])
  }

  /** The ids of the matching records are those of the rows the condition is true of. */
  lemma TakenOut(x: Context, rows: Rows, condition: Option<A.Condition>, records: seq<T.Record>, n: nat)
    requires forall id :: id in rows ==> id < n
    requires condition.None? ==> T.PairsOf(records) == T.Listing(rows, n)
    ensures condition.None? ==> T.IdSet(records) == rows.Keys
    ensures condition.Some? ==> forall order ::
      T.PairsOf(records) == Filter(In(x, order), T.Listing(rows, n), condition.value) ==>
      forall id :: id in rows ==> (id in T.IdSet(records) <==> Satisfies(In(x, order), condition.value, rows[id]))
  {
    hide Satisfies, Filter;
    if condition.Some? {
      var c := condition.value;
      forall order ensures T.PairsOf(records) == Filter(In(x, order), T.Listing(rows, n), c) ==>
        forall id :: id in rows ==> (id in T.IdSet(records) <==> Satisfies(In(x, order), c, rows[id]))
      {
        FilterIds(In(x, order), rows, records, c, n);
      }
    } else {
      AllIds(rows, records, n);
    }
  }

  lemma AllIds(rows: Rows, records: seq<T.Record>, n: nat)
    requires (forall id :: id in rows ==> id < n) && T.PairsOf(records) == T.Listing(rows, n)
    ensures T.IdSet(records) == rows.Keys
  {
    var l := T.Listing(rows, n);
    T.ListingIsComplete(rows, n);
    forall id | id in rows ensures id in T.IdSet(records) {
      assert (id, rows[id]) in l;
      var k :| 0 <= k < |l| && l[k] == (id, rows[id]);
      assert records[k].id == id;
    }
    forall id | id in T.IdSet(records) ensures id in rows {
      var k :| 0 <= k < |records| && records[k].id == id;
      assert l[k] in l;
    }
  }

  lemma {:induction false} FilterHas(x: Context, l: seq<(nat, seq<Value>)>, c: A.Condition, p: (nat, seq<Value>))
    ensures p in Filter(x, l, c) <==> p in l && Satisfies(x, c, p.1)
    decreases |l|
  {
    hide Satisfies;
    if l != [] {
      FilterHas(x, l[..|l| - 1], c, p);
      assert l == l[..|l| - 1] + [l[|l| - 1]];
    }
  }

  // Changing rows.

  ghost predicate AssignmentsIn(assignments: seq<(string, A.Expression)>, t: set<Text>) {
    forall k :: 0 <= k < |assignments| ==> ExpressionTexts(assignments[k].1) <= t
  }

  /** The new fields of row `i` are what SET makes of its old ones. */
  ghost predicate IsAssigned(x: Context, assignments: seq<(string, A.Expression)>,
                             before: seq<Value>, after: seq<Value>,
                             now: map<nat, Text>)
  {
    |before| == |x.columns| && Some(RowOf(after, now)) == AssignMeaning(assignments, x.columns, RowOf(before, x.view))
  }

  ghost predicate Assigned(x: Context, assignments: seq<(string, A.Expression)>, l: seq<(nat, seq<Value>)>,
                           changed: seq<T.Record>, n: nat, now: map<nat, Text>)
    requires n <= |l|
  {
    && |changed| == n
    && forall i :: 0 <= i < n ==> changed[i].id == l[i].0 && IsAssigned(x, assignments, l[i].1, changed[i].fields, now)
  }

  ghost predicate Unassignable(x: Context, assignments: seq<(string, A.Expression)>, l: seq<(nat, seq<Value>)>) {
    exists i :: 0 <= i < |l| && |l[i].1| == |x.columns|
      && AssignMeaning(assignments, x.columns, RowOf(l[i].1, x.view)).None?
  }

  lemma AssignedStays(x: Context, assignments: seq<(string, A.Expression)>,
                      l: seq<(nat, seq<Value>)>, changed: seq<T.Record>,
                      now: map<nat, Text>, more: map<nat, Text>)
    requires |changed| <= |l| && Assigned(x, assignments, l, changed, |changed|, now) && I.Extends(now, more)
    requires AllUsable(changed, |x.columns|, now.Keys)
    ensures Assigned(x, assignments, l, changed, |changed|, more) && AllUsable(changed, |x.columns|, more.Keys)
  {
    hide AssignMeaning, RowOf, I.Extends;
    forall i | 0 <= i < |changed|
      ensures RowOf(changed[i].fields, more) == RowOf(changed[i].fields, now)
        && Usable(changed[i].fields, |x.columns|, more.Keys)
    {
      assert Usable(changed[i].fields, |x.columns|, now.Keys);
      RowStays(changed[i].fields, now, more);
    }
  }

  /** Fields that can be stored. */
  ghost predicate Usable(fields: seq<Value>, width: nat, known: set<nat>) {
    |fields| == width && AllFit(fields) && AllKnown(fields, known)
  }

  ghost predicate AllUsable(records: seq<T.Record>, width: nat, known: set<nat>) {
    forall i :: 0 <= i < |records| ==> Usable(records[i].fields, width, known)
  }

  ghost function SumOf(l: seq<(nat, seq<Value>)>, i: nat): int {
    if l == [] then 0 else
      var (v, rest) := (l[|l| - 1].1, SumOf(l[..|l| - 1], i));
      if i < |v| && v[i].Int? then rest + v[i].value else rest
  }

  ghost function CountOf(l: seq<(nat, seq<Value>)>, i: nat): nat {
    if l == [] then 0 else
      var (v, rest) := (l[|l| - 1].1, CountOf(l[..|l| - 1], i));
      if i < |v| && !v[i].Null? then rest + 1 else rest
  }

  /** `int64_t` arithmetic. */
  function Wrap64(n: int): int {
    (n + 0x8000_0000_0000_0000) % 0x1_0000_0000_0000_0000 - 0x8000_0000_0000_0000
  }

  lemma WrapSmall(n: int)
    ensures -0x8000_0000_0000_0000 <= n < 0x8000_0000_0000_0000 ==> Wrap64(n) == n
  {
  }

  lemma NothingToSum(i: nat)
    ensures SumOf([], i) == 0 && CountOf([], i) == 0
  {
  }

  lemma SumStep(l: seq<(nat, seq<Value>)>, k: nat, i: nat)
    requires k < |l| && i < |l[k].1|
    ensures SumOf(l[..k + 1], i) == SumOf(l[..k], i) + if l[k].1[i].Int? then l[k].1[i].value else 0
    ensures CountOf(l[..k + 1], i) == CountOf(l[..k], i) + if l[k].1[i].Null? then 0 else 1
  {
    assert l[..k + 1][..k] == l[..k];
  }

  class Executor {
    const table: T.Table
    /** The regular expression engine; nothing for a pattern it refuses. */
    const matches: (string, Text) -> Option<bool>

    constructor (table: T.Table, matches: (string, Text) -> Option<bool>)
      ensures this.table == table && this.matches == matches
    {
      this.table, this.matches := table, matches;
    }

    ghost function View(): map<nat, Text>
      reads table.interner
    {
      table.interner.idToView
    }

    ghost function Here(): Context
      reads table.interner
    {
      Context(table.columns, View(), matches, (a, b) => false)
    }

    /** `r` is the value of the condition, whatever order the ids known by now follow. */
    ghost predicate Evaluated(r: Option<SqlBool>, c: A.Condition, row: seq<Datum>)
      requires |row| == |table.columns|
      reads table.interner
    {
      forall order :: Ranks(order, View()) ==> Agrees(r, Meaning(c, table.columns, row, matches, order))
    }

    /** The texts of `t` that have no id yet can still get one. */
    ghost predicate Room(t: set<Text>)
      reads table.interner
    {
      && table.interner.nextId + |t - table.interner.stringToId.Keys| + 1 < U32_LIMIT
      && forall x :: x in t ==> |x| < I.U64_LIMIT
    }

    /** The number of ids given out once all texts of `t` have one. */
    ghost function Demand(t: set<Text>): nat
      reads table.interner
    {
      table.interner.nextId + |t - table.interner.stringToId.Keys|
    }

    method LiteralValue(l: A.Literal, ghost t: set<Text>) returns (r: Option<Value>)
      requires table.Valid() && Room(t) && LiteralTexts(l) <= t
      modifies table.interner
      ensures table.Valid() && table.Now() == old(table.Now()) && Room(t) && I.Extends(old(View()), View())
      ensures r.Some? <==> LiteralMeaning(l).Some?
      ensures r.Some? ==> Known(r.value, View().Keys) && Some(DatumOf(r.value, View())) == LiteralMeaning(l)
      ensures r.Some? ==> (r.value.Str? <==> l.kind.StringType?) && Fits(r.value)
      ensures Demand(t) == old(Demand(t))
    {
      hide T.Table.Valid, T.Table.Now;
      match l.kind
      case NullType => r := Some(Null);
      case IntegerType =>
        var n := A.Stoi(l.value);
        r := if n.Some? then Some(Int(n.value)) else None;
      case StringType =>
        var text := TextOf(l.value);
        ghost var before := table.interner.stringToId.Keys;
        var id := table.Intern(text);
        RoomKept(t, before, text);
        r := Some(Str(id));
    }

    method ExpressionValue(e: A.Expression, fields: seq<Value>, ghost t: set<Text>) returns (r: Option<Value>)
      requires table.Valid() && Room(t) && ExpressionTexts(e) <= t
      requires |fields| == |table.columns| && AllKnown(fields, View().Keys)
      modifies table.interner
      ensures table.Valid() && table.Now() == old(table.Now()) && Room(t) && I.Extends(old(View()), View())
      ensures var m := ExpressionMeaning(e, table.columns, RowOf(fields, old(View())));
        && (r.Some? <==> m.Some?)
        && (r.Some? ==> Known(r.value, View().Keys) && Some(DatumOf(r.value, View())) == m)
        && (r.Some? && AllFit(fields) ==> Fits(r.value))
    {
      hide T.Table.Valid, T.Table.Now, Room, Demand;
      match e
      case LiteralExpr(l) => r := LiteralValue(l, t);
      case Identifier(name) =>
        var i := ColumnIndex(table.columns, name);
        r := if i.Some? then Some(fields[i.value]) else None;
      case Aggregate(_, _) => r := None;
    }

    /** The value of a condition on a row; nothing when evaluation fails. */
    method EvaluateCondition(c: A.Condition, fields: seq<Value>, ghost t: set<Text>) returns (r: Option<SqlBool>)
      requires table.Valid() && Room(t) && Texts(c) <= t
      requires |fields| == |table.columns| && AllKnown(fields, View().Keys)
      modifies table.interner
      ensures table.Valid() && table.Now() == old(table.Now()) && Room(t) && I.Extends(old(View()), View())
      ensures AllKnown(fields, View().Keys) && RowOf(fields, View()) == RowOf(fields, old(View()))
      ensures Evaluated(r, c, RowOf(fields, old(View())))
      decreases c
    {
      hide T.Table.Valid, T.Table.Now, Room, RowOf, Compare, CompareValues, Bound, Ranks;
      ghost var view := View();
      match c
      case Comparison(_, _, _) => r := EvaluateComparison(c, fields, t);
      case Between(_, _, _) => r := EvaluateBetween(c, fields, t);
      case Like(_, _) => r := EvaluateLike(c, fields, t);
      case And(a, b) =>
        var x := EvaluateCondition(a, fields, t);
        ghost var mid := View();
        var y := EvaluateCondition(b, fields, t);
        RankedOnes(mid, View());
        r := if x.Some? && y.Some? then Some(And(x.value, y.value)) else None;
      case Or(a, b) =>
        var x := EvaluateCondition(a, fields, t);
        ghost var mid := View();
        var y := EvaluateCondition(b, fields, t);
        RankedOnes(mid, View());
        r := if x.Some? && y.Some? then Some(Or(x.value, y.value)) else None;
      RowStays(fields, view, View());
    }

    method EvaluateComparison(c: A.Condition, fields: seq<Value>, ghost t: set<Text>) returns (r: Option<SqlBool>)
      requires c.Comparison? && table.Valid() && Room(t) && Texts(c) <= t
      requires |fields| == |table.columns| && AllKnown(fields, View().Keys)
      modifies table.interner
      ensures table.Valid() && table.Now() == old(table.Now()) && Room(t) && I.Extends(old(View()), View())
      ensures Evaluated(r, c, RowOf(fields, old(View())))
    {
      hide T.Table.Valid, T.Table.Now, Room, RowOf, CompareValues;
      ghost var view := View();
      var left := ExpressionValue(c.left, fields, t);
      ghost var mid := View();
      RowStays(fields, view, mid);
      var right := ExpressionValue(c.right, fields, t);
      if left.None? || right.None? {
        return None;
      }
      DatumStays(left.value, mid, View());
      if left.value.Null? || right.value.Null? {
        return Some(Unknown);
      }
      if left.value.Str? && right.value.Str? {
        return Some(CompareTexts(table.interner.idToView[left.value.id],
                                 table.interner.idToView[right.value.id], c.op));
      }
      ValuesCompareAsData(left.value, right.value, c.op, View());
      r := CompareValues(left.value, right.value, c.op);
    }

    method EvaluateBetween(c: A.Condition, fields: seq<Value>, ghost t: set<Text>) returns (r: Option<SqlBool>)
      requires c.Between? && table.Valid() && Room(t) && Texts(c) <= t
      requires |fields| == |table.columns| && AllKnown(fields, View().Keys)
      modifies table.interner
      ensures table.Valid() && table.Now() == old(table.Now()) && Room(t) && I.Extends(old(View()), View())
      ensures Evaluated(r, c, RowOf(fields, old(View())))
    {
      hide T.Table.Valid, T.Table.Now, Room, RowOf, Compare, GreaterOrEqual, LessOrEqual, Ranks, Bound;
      ghost var view := View();
      var value := ExpressionValue(c.value, fields, t);
      if value.None? {
        return None;
      }
      ghost var v1 := View();
      RowStays(fields, view, v1);
      var lower := ExpressionValue(c.lower, fields, t);
      ghost var v2 := View();
      RowStays(fields, v1, v2);
      DatumStays(value.value, v1, v2);
      var upper := ExpressionValue(c.upper, fields, t);
      if lower.None? || upper.None? {
        return None;
      }
      DatumStays(value.value, v2, View());
      DatumStays(lower.value, v2, View());
      OneIdEach();
      forall order | Ranks(order, View())
        ensures Agrees(GreaterOrEqual(value.value, lower.value),
                       Bound(A.GreaterEqual, DatumOf(value.value, View()), DatumOf(lower.value, View()), order))
        ensures Agrees(LessOrEqual(value.value, upper.value),
                       Bound(A.LessEqual, DatumOf(value.value, View()), DatumOf(upper.value, View()), order))
      {
        BoundAgrees(value.value, lower.value, A.GreaterEqual, View(), order);
        BoundAgrees(value.value, upper.value, A.LessEqual, View(), order);
      }
      var low, high := GreaterOrEqual(value.value, lower.value), LessOrEqual(value.value, upper.value);
      r := if low.Some? && high.Some? then Some(And(low.value, high.value)) else None;
    }

    lemma OneIdEach()
      requires table.Valid()
      ensures forall i, j :: i in View() && j in View() && View()[i] == View()[j] ==> i == j
    {
      table.InternerIsValid();
      forall i, j | i in View() && j in View() && View()[i] == View()[j] ensures i == j {
        table.interner.Injective(i, j);
      }
    }

    method EvaluateLike(c: A.Condition, fields: seq<Value>, ghost t: set<Text>) returns (r: Option<SqlBool>)
      requires c.Like? && table.Valid() && Room(t) && Texts(c) <= t
      requires |fields| == |table.columns| && AllKnown(fields, View().Keys)
      modifies table.interner
      ensures table.Valid() && table.Now() == old(table.Now()) && Room(t) && I.Extends(old(View()), View())
      ensures Evaluated(r, c, RowOf(fields, old(View())))
    {
      hide T.Table.Valid, T.Table.Now, Room, RowOf;
      var value := ExpressionValue(c.value, fields, t);
      if value.None? {
        return None;
      }
      if value.value.Null? {
        return Some(Unknown);
      }
      if !value.value.Str? {
        return None;
      }
      var m := matches(c.pattern, table.interner.idToView[value.value.id]);
      r := if m.Some? then Some(OfBool(m.value)) else None;
    }

    // Finding records.

    ghost predicate Narrowed(records: seq<T.Record>, c: A.Condition)
      requires IdsOk(table.heap.cells, table.idToAddr)
      reads table, table.heap, table.interner
    {
      forall order :: Narrows(In(Here(), order), table.TableRows(), table.idToAddr, records, c)
    }

    /** `column == literal` by way of the index of the column. */
    method Lookup(column: A.Expression, value: A.Expression, ghost t: set<Text>)
      returns (failed: bool, r: Option<seq<T.Record>>)
      requires table.Valid() && Room(t) && ExpressionTexts(value) <= t
      modifies table.interner
      ensures table.Valid() && table.Now() == old(table.Now()) && Room(t) && I.Extends(old(View()), View())
      ensures failed ==> !ExpressionOk(column, table.columns) || !ExpressionOk(value, table.columns)
      ensures !failed && r.Some? ==>
        && Narrowed(r.value, A.Comparison(column, A.Equal, value))
        && Narrowed(r.value, A.Comparison(value, A.Equal, column))
    {
      hide T.Table.Valid, T.Table.Now, Room, RowOf, Meaning, Narrows, Narrowed, Demand, T.Finds, Fits;
      failed, r := false, None;
      if !column.Identifier? || !value.LiteralExpr? {
        return;
      }
      var v := LiteralValue(value.literal, t);
      var i := ColumnIndex(table.columns, column.name);
      if v.None? || i.None? {
        return true, None;
      }
      r := table.FindByIndex(i.value, v.value);
      if r.Some? { EqualityNarrows(r.value, column, value, i.value, v.value); }
    }

    lemma EqualityNarrows(records: seq<T.Record>, column: A.Expression, value: A.Expression, i: nat, v: Value)
      requires table.Valid() && column.Identifier? && value.LiteralExpr?
        && ColumnIndex(table.columns, column.name) == Some(i)
      requires LiteralMeaning(value.literal) == Some(DatumOf(v, View())) && Known(v, View().Keys)
      requires T.Finds(records, table.TableRows(), table.idToAddr, i, v)
      ensures Narrowed(records, A.Comparison(column, A.Equal, value))
        && Narrowed(records, A.Comparison(value, A.Equal, column))
    {
      hide T.Table.Agree, T.Table.Valid;
      table.ValidFacts();
      var rows, x := table.TableRows(), Here();
      forall k | 0 <= k < |records| ensures T.Live(records[k], rows, table.idToAddr) {
        assert records[k] in records;
      }
      forall order, id | id in rows && (Satisfies(In(x, order), A.Comparison(column, A.Equal, value), rows[id])
                                        || Satisfies(In(x, order), A.Comparison(value, A.Equal, column), rows[id]))
        ensures Has(records, id)
      {
        table.RowFacts(id);
        SameDatum(rows[id][i], v);
        assert T.Record(id, rows[id], table.idToAddr[id]) in records;
      }
    }

    /** Equal texts have equal ids. */
    lemma SameDatum(a: Value, b: Value)
      requires table.Valid() && Known(a, View().Keys) && Known(b, View().Keys)
      ensures !a.Null? && !b.Null? && DatumOf(a, View()) == DatumOf(b, View()) ==> a == b
    {
      hide T.Table.Valid, T.Table.Agree;
      table.ValidFacts();
      table.InternerIsValid();
      if a.Str? && b.Str? { table.interner.Injective(a.id, b.id); }
    }

    lemma PartNarrows(records: seq<T.Record>, c: A.Condition, part: A.Condition)
      requires IdsOk(table.heap.cells, table.idToAddr) && c.And? && (part == c.first || part == c.second)
      requires Narrowed(records, part)
      ensures Narrowed(records, c)
    {
      hide Narrows;
      var x, rows := Here(), table.TableRows();
      forall order ensures Narrows(In(x, order), rows, table.idToAddr, records, c) {
        assert Narrows(In(x, order), rows, table.idToAddr, records, part);
        AndNarrows(In(x, order), rows, table.idToAddr, records, c, part);
      }
    }

    /** Records by way of an index, when a comparison on the AND spine of the condition allows it. */
    method IndexedRecords(c: A.Condition, ghost t: set<Text>) returns (failed: bool, r: Option<seq<T.Record>>)
      requires table.Valid() && Room(t) && Texts(c) <= t
      modifies table.interner
      ensures table.Valid() && table.Now() == old(table.Now()) && Room(t) && I.Extends(old(View()), View())
      ensures failed ==> !ConditionOk(c, table.columns)
      ensures !failed && r.Some? ==> Narrowed(r.value, c)
      decreases c
    {
      hide T.Table.Valid, T.Table.Now, Room, Narrows;
      table.ValidFacts();
      if c.And? {
        failed, r := IndexedRecords(c.first, t);
        if failed || r.Some? {
          if !failed { PartNarrows(r.value, c, c.first); }
          return;
        }
        failed, r := IndexedRecords(c.second, t);
        if !failed && r.Some? { PartNarrows(r.value, c, c.second); }
        return;
      }
      if !c.Comparison? || c.op != A.Equal {
        return false, None;
      }
      failed, r := Lookup(c.left, c.right, t);
      if failed || r.Some? {
        return;
      }
      failed, r := Lookup(c.right, c.left, t);
    }

    method RecordsFor(condition: Option<A.Condition>, ghost t: set<Text>) returns (failed: bool, records: seq<T.Record>)
      requires table.Valid() && Room(t) && (condition.Some? ==> Texts(condition.value) <= t)
      modifies table.interner
      ensures table.Valid() && table.Now() == old(table.Now()) && Room(t) && I.Extends(old(View()), View())
      ensures failed ==> condition.Some? && !ConditionOk(condition.value, table.columns)
      ensures !failed ==> AllLive(records, table.TableRows(), table.idToAddr) && T.DistinctIds(records)
      ensures !failed ==> |records| <= table.recordIdCount + 1
      ensures !failed ==>
        || T.PairsOf(records) == T.Listing(table.TableRows(), table.recordIdCount)
        || (condition.Some? && Narrowed(records, condition.value))
    {
      hide T.Table.Valid, T.Table.Now, Room;
      failed := false;
      if condition.Some? {
        var failedLookup, found := IndexedRecords(condition.value, t);
        if failedLookup {
          return true, [];
        }
        if found.Some? {
          table.ValidFacts();
          assert Narrows(In(Here(), Here().order), table.TableRows(), table.idToAddr, found.value, condition.value);
          return false, found.value;
        }
      }
      records := AllRecords();
    }

    method AllRecords() returns (records: seq<T.Record>)
      requires table.Valid()
      ensures T.PairsOf(records) == T.Listing(table.TableRows(), table.recordIdCount)
      ensures AllLive(records, table.TableRows(), table.idToAddr) && T.DistinctIds(records)
        && |records| <= table.recordIdCount
    {
      hide T.Table.Valid, T.Table.Agree;
      table.ValidFacts();
      records := table.Records();
      ghost var rows, l := table.TableRows(), T.Listing(table.TableRows(), table.recordIdCount);
      T.ListingIsComplete(rows, table.recordIdCount);
      forall i | 0 <= i < |records| ensures T.Live(records[i], rows, table.idToAddr) {
        assert (l[i].0, l[i].1) in l;
      }
    }

    /** The records the condition is true of; nothing when evaluation fails on one of them. */
    method Keep(records: seq<T.Record>, c: A.Condition, ghost t: set<Text>) returns (r: Option<seq<T.Record>>)
      requires table.Valid() && Room(t) && Texts(c) <= t && AllLive(records, table.TableRows(), table.idToAddr)
      requires T.DistinctIds(records)
      modifies table.interner
      ensures table.Valid() && table.Now() == old(table.Now()) && Room(t) && I.Extends(old(View()), View())
      ensures Answers(old(Here()), View(), c, T.PairsOf(records), r)
      ensures r.Some? ==>
        AllLive(r.value, table.TableRows(), table.idToAddr) && T.DistinctIds(r.value) && |r.value| <= |records|
    {
      hide T.Table.Valid, T.Table.Now, Room, T.Live, T.DistinctIds, AllKnown, RowOf, AllLive, From,
        SoFar, Tells, Answers, Ranks;
      table.ValidFacts();
      ghost var x, rows := Here(), table.TableRows();
      LiveKnown(records);
      NothingPicked(x, View(), c, records, rows, table.idToAddr);
      var result: seq<T.Record> := [];
      for i := 0 to |records|
        invariant table.Valid() && table.Now() == old(table.Now()) && Room(t) && I.Extends(x.view, View())
        invariant Picked(result, records, i, rows, table.idToAddr) && SoFar(x, View(), c, result, records, i)
      {
        EachLive(records, i, rows, table.idToAddr);
        ghost var before := View();
        var verdict := Test(records[i], c, t, x);
        if verdict.None? {
          NoAnswer(x, View(), c, records, i);
          return None;
        }
        PickedNext(result, records, i, rows, table.idToAddr, verdict.value == True);
        SoFarNext(x, before, View(), c, result, records, i, verdict);
        if verdict.value == True {
          result := result + [records[i]];
        }
      }
      AllPicked(x, View(), c, result, records);
      r := Some(result);
    }

    lemma UsableRecords(records: seq<T.Record>)
      requires table.Valid() && AllLive(records, table.TableRows(), table.idToAddr)
      ensures AllUsable(records, |table.columns|, View().Keys)
    {
      hide T.Table.Valid;
      LiveKnown(records);
      LiveFit(records);
    }

    lemma LiveKnown(records: seq<T.Record>)
      requires table.Valid() && AllLive(records, table.TableRows(), table.idToAddr)
      ensures forall i :: 0 <= i < |records| ==> AllKnown(records[i].fields, View().Keys)
    {
      hide T.Table.Valid;
      table.ValidFacts();
      forall i | 0 <= i < |records| ensures AllKnown(records[i].fields, View().Keys) {
        assert T.Live(records[i], table.TableRows(), table.idToAddr);
        table.RowFacts(records[i].id);
      }
    }

    lemma AllRowsKnown()
      requires table.Valid()
      ensures RowsKnown(Here(), table.TableRows()) && forall id :: id in table.idToAddr ==> id < table.recordIdCount
    {
      hide T.Table.Valid;
      table.ValidFacts();
      forall id | id in table.idToAddr
        ensures id < table.recordIdCount && |table.TableRows()[id]| == |table.columns|
          && AllKnown(table.TableRows()[id], View().Keys)
      {
        table.RowFacts(id);
      }
    }

    method Test(record: T.Record, c: A.Condition, ghost t: set<Text>, ghost x: Context) returns (r: Option<SqlBool>)
      requires table.Valid() && Room(t) && Texts(c) <= t && T.Live(record, table.TableRows(), table.idToAddr)
      requires x == Here().(view := x.view) && I.Extends(x.view, View()) && AllKnown(record.fields, x.view.Keys)
      modifies table.interner
      ensures table.Valid() && table.Now() == old(table.Now()) && Room(t)
      ensures I.Extends(old(View()), View()) && I.Extends(x.view, View())
      ensures Tells(x, View(), c, record.fields, r)
    {
      hide T.Table.Valid, T.Table.Now, Room, Meaning, RowOf, T.Table.Agree, Ranks;
      table.ValidFacts();
      table.RowFacts(record.id);
      RowStays(record.fields, x.view, View());
      r := EvaluateCondition(c, record.fields, t);
    }

    /** The matching records; nothing when evaluation fails. Using an index gives what the
        full scan gives: whenever the condition has known columns and integers in range and
        can be decided on every row, the result is the listing of the table filtered by it. The
        order by which BETWEEN compares texts is any that the ids follow when the call is over. */
    method MatchingRecords(condition: Option<A.Condition>, ghost t: set<Text>) returns (r: Option<seq<T.Record>>)
      requires table.Valid() && Room(t) && (condition.Some? ==> Texts(condition.value) <= t)
      modifies table.interner
      ensures table.Valid() && table.Now() == old(table.Now()) && Room(t) && I.Extends(old(View()), View())
      ensures r.Some? ==> AllLive(r.value, table.TableRows(), table.idToAddr) && T.DistinctIds(r.value)
      ensures r.Some? ==> |r.value| <= table.recordIdCount + 1
      ensures condition.None? ==> r.Some? && T.PairsOf(r.value) == T.Listing(table.TableRows(), table.recordIdCount)
      ensures condition.Some? ==>
        var l, c := T.Listing(table.TableRows(), table.recordIdCount), condition.value;
        ConditionOk(c, table.columns) ==> Answers(old(Here()), View(), c, l, r)
    {
      hide T.Table.Valid, T.Table.Now, Room, Narrows, Answers, AllLive, RowsKnown;
      table.ValidFacts();
      ghost var x := Here();
      AllRowsKnown();
      var failed, records := RecordsFor(condition, t);
      if failed {
        return None;
      }
      if condition.None? {
        return Some(records);
      }
      ghost var y := Here();
      r := Keep(records, condition.value, t);
      AnswersForAll(x, y, View(), table.TableRows(), table.idToAddr, records, condition.value, table.recordIdCount, r);
    }

    // Aggregates and deletion.

    /** The sum and the count of a column of the given records, in 64-bit accumulators;
        nothing when a value to be added is not a number. */
    method Accumulate(records: seq<T.Record>, i: nat, function_: A.AggregateFunction) returns (r: Option<(int, int)>)
      requires table.Valid() && AllLive(records, table.TableRows(), table.idToAddr) && i < |table.columns|
      requires |records| <= table.recordIdCount + 1
      ensures r.None? <==>
        !function_.Count? && exists k :: 0 <= k < |records| && i < |records[k].fields| && records[k].fields[i].Str?
      ensures r.Some? && function_.Count? ==> r.value.1 == CountOf(T.PairsOf(records), i)
      ensures r.Some? && !function_.Count? ==> r.value == (SumOf(T.PairsOf(records), i), CountOf(T.PairsOf(records), i))
    {
      hide T.Table.Valid, T.Live, T.Table.Agree, SumOf, CountOf, Wrap64, AllLive;
      LiveFit(records);
      ghost var l := T.PairsOf(records);
      NothingToSum(i);
      var sum: int, count: int := 0, 0;
      for k := 0 to |records|
        invariant function_.Count? ==> count == CountOf(l[..k], i)
        invariant !function_.Count? ==> (sum, count) == (SumOf(l[..k], i), CountOf(l[..k], i))
        invariant !function_.Count? ==> forall j :: 0 <= j < k ==> !records[j].fields[i].Str?
        invariant 0 <= count <= k && -k * 0x8000_0000 <= sum <= k * 0x8000_0000
      {
        SumStep(l, k, i);
        var value := records[k].fields[i];
        if value.Int? { WrapSmall(sum + value.value); }
        WrapSmall(count + 1);
        WrapSmall(count);
        if function_.Count? {
          count := Wrap64(count + if value.Null? then 0 else 1);
        } else if !value.Null? {
          if !value.Int? {
            return None;
          }
          sum := Wrap64(sum + value.value);
          count := Wrap64(count + 1);
        }
      }
      assert l[..|records|] == l;
      r := Some((sum, count));
    }

    lemma LiveFit(records: seq<T.Record>)
      requires table.Valid() && AllLive(records, table.TableRows(), table.idToAddr)
      ensures forall k :: 0 <= k < |records| ==> |records[k].fields| == |table.columns| && AllFit(records[k].fields)
      ensures table.recordIdCount < U32_LIMIT
    {
      hide T.Table.Valid;
      table.ValidFacts();
      table.CounterFits();
      forall k | 0 <= k < |records| ensures |records[k].fields| == |table.columns| && AllFit(records[k].fields) {
        assert T.Live(records[k], table.TableRows(), table.idToAddr);
        table.RowFacts(records[k].id);
      }
    }

    /** DELETE takes out exactly the rows the condition is true of, or all without one, and
        reverting to the state before it is possible: that state is the next one in the table's
        past. `stamp` is the clock: what it shows at each deletion. */
    method DeleteWhere(condition: Option<A.Condition>, stamp: nat -> seq<byte>, ghost t: set<Text>)
      returns (count: Option<nat>)
      requires table.Valid() && Room(t) && (condition.Some? ==> Texts(condition.value) <= t)
      requires forall i: nat :: |stamp(i)| == TIME_LEN
      modifies table.interner, table`idToAddr, table`past, table.heap, table.indexes, table.journal
      ensures table.Valid() && table.recordIdCount == old(table.recordIdCount)
      ensures count.None? ==> table.Now() == old(table.Now())
      ensures condition.None? ==> count.Some? && table.TableRows() == map[]
      ensures condition.Some? ==>
        var x, rows, c := old(Here()), old(table.TableRows()), condition.value;
        ConditionOk(c, table.columns) ==> forall order ::
          Ranks(order, View()) && AllDecided(In(x, order), c, T.Listing(rows, table.recordIdCount)) ==>
            count.Some? && Remain(In(x, order), c, rows, table.TableRows())
      ensures forall id :: id in table.TableRows() ==>
        id in old(table.TableRows()) && table.TableRows()[id] == old(table.TableRows())[id]
      ensures count.Some? && count.value > 0 ==>
        |table.past| == |old(table.past)| + count.value && table.past[|old(table.past)|] == old(table.Now())
    {
      hide T.Table.Valid, Room, Satisfies, Decided, T.Table.Agree, RowsKnown, Filter, T.Live, T.DistinctIds;
      table.ValidFacts();
      ghost var x, rows := Here(), table.TableRows();
      AllRowsKnown();
      var records := MatchingRecords(condition, t);
      if records.None? {
        return None;
      }
      TakenOut(x, rows, condition, records.value, table.recordIdCount);
      var n := |records.value|;
      var stamps := Times(stamp, n);
      table.DeleteMultiple(records.value, stamps);
      count := Some(|records.value|);
    }

    // Changing rows.

    /** The new fields of a row; nothing when a column is unknown or a value has none. */
    method Assign(start: seq<Value>, assignments: seq<(string, A.Expression)>, ghost t: set<Text>)
      returns (r: Option<seq<Value>>)
      requires table.Valid() && Room(t) && AssignmentsIn(assignments, t) && Usable(start, |table.columns|, View().Keys)
      modifies table.interner
      ensures table.Valid() && table.Now() == old(table.Now()) && Room(t) && I.Extends(old(View()), View())
      ensures var m := AssignMeaning(assignments, table.columns, RowOf(start, old(View())));
        && (r.Some? <==> m.Some?)
        && (r.Some? ==> Usable(r.value, |table.columns|, View().Keys) && RowOf(r.value, View()) == m.value)
    {
      hide T.Table.Valid, T.Table.Now, Room, RowOf, ExpressionMeaning, AllFit, AllKnown, I.Extends;
      table.ValidFacts();
      var fields := start;
      ghost var row := RowOf(start, View());
      T.ExtendsItself(View());
      for k := 0 to |assignments|
        invariant table.Valid() && table.Now() == old(table.Now()) && Room(t) && I.Extends(old(View()), View())
        invariant Usable(fields, |table.columns|, View().Keys)
        invariant AssignMeaning(assignments[..k], table.columns, row) == Some(RowOf(fields, View()))
      {
        AssignStep(assignments, k, table.columns, row);
        var i := ColumnIndex(table.columns, assignments[k].0);
        if i.None? {
          AssignFails(assignments, k, table.columns, row);
          return None;
        }
        ghost var view := View();
        var v := ExpressionValue(assignments[k].1, fields, t);
        T.ExtendsOn(old(View()), view, View());
        if v.None? {
          AssignFails(assignments, k, table.columns, row);
          return None;
        }
        RowStays(fields, view, View());
        StoredOne(fields, i.value, v.value, View());
        fields := fields[i.value := v.value];
      }
      assert assignments[..|assignments|] == assignments;
      r := Some(fields);
    }

    /** The rows the condition is true of with their new fields, before any of them is stored. */
    method AssignAll(records: seq<T.Record>, assignments: seq<(string, A.Expression)>, ghost t: set<Text>)
        returns (r: Option<seq<T.Record>>)
      requires table.Valid() && Room(t) && AssignmentsIn(assignments, t)
      requires AllLive(records, table.TableRows(), table.idToAddr)
      modifies table.interner
      ensures table.Valid() && table.Now() == old(table.Now()) && Room(t) && I.Extends(old(View()), View())
      ensures r.None? <==> Unassignable(old(Here()), assignments, T.PairsOf(records))
      ensures r.Some? ==>
        && Assigned(old(Here()), assignments, T.PairsOf(records), r.value, |records|, View())
        && AllUsable(r.value, |table.columns|, View().Keys) && SamePlaces(r.value, records)
    {
      hide T.Table.Valid, T.Table.Now, Room, Usable, I.Extends, Assigned, Unassignable, AllLive, SamePlaces;
      hide AssignMeaning, RowOf, IsAssigned;
      table.ValidFacts();
      ghost var x, l := Here(), T.PairsOf(records);
      UsableRecords(records);
      T.ExtendsItself(View());
      var changed: seq<T.Record> := [];
      NothingAssigned(x, assignments, l, records);
      for i := 0 to |records|
        invariant table.Valid() && table.Now() == old(table.Now()) && Room(t) && I.Extends(x.view, View())
        invariant |changed| == i && Assigned(x, assignments, l, changed, i, View())
        invariant AllUsable(changed, |table.columns|, View().Keys) && SamePlaces(changed, records[..i])
      {
        ghost var view := View();
        var fields := AssignOne(records[i].fields, assignments, t, x);
        T.ExtendsOn(x.view, view, View());
        if fields.None? {
          CannotAssign(x, assignments, l, i);
          return None;
        }
        AssignedStays(x, assignments, l, changed, view, View());
        OneMoreAssigned(x, assignments, l, changed, records, fields.value, View());
        changed := changed + [T.Record(records[i].id, fields.value, records[i].address)];
      }
      assert records[..|records|] == records;
      AllAssigned(x, assignments, l, changed, View());
      r := Some(changed);
    }

    /** `Assign`, in terms of the texts known when the statement started. */
    method AssignOne(start: seq<Value>, assignments: seq<(string, A.Expression)>, ghost t: set<Text>, ghost x: Context)
        returns (r: Option<seq<Value>>)
      requires table.Valid() && Room(t) && AssignmentsIn(assignments, t) && x == Here().(view := x.view)
      requires I.Extends(x.view, View()) && Usable(start, |table.columns|, x.view.Keys)
      modifies table.interner
      ensures table.Valid() && table.Now() == old(table.Now()) && Room(t) && I.Extends(old(View()), View())
      ensures |start| == |x.columns|
      ensures r.None? ==> AssignMeaning(assignments, x.columns, RowOf(start, x.view)).None?
      ensures r.Some? ==>
        Usable(r.value, |table.columns|, View().Keys) && IsAssigned(x, assignments, start, r.value, View())
    {
      hide T.Table.Valid, T.Table.Now, Room, RowOf, AllFit, AllKnown, I.Extends, AssignMeaning;
      table.ValidFacts();
      UsableStays(start, |table.columns|, x.view, View());
      r := Assign(start, assignments, t);
    }

    /** UPDATE: the rows the condition is true of, or all without one, get what SET makes of
        them, one after the other. Nothing changes when that cannot be computed for one of
        them. A row whose new fields are forbidden stays as it is, and the others change. */
    method UpdateWhere(condition: Option<A.Condition>,
                       assignments: seq<(string, A.Expression)>, stamp: nat -> seq<byte>,
                       ghost t: set<Text>)
        returns (result: UpdateResult, ghost changed: seq<T.Record>)
      requires table.Valid() && Room(t) && (condition.Some? ==> Texts(condition.value) <= t)
        && AssignmentsIn(assignments, t)
      requires (forall i: nat :: |stamp(i)| == TIME_LEN) && |table.heap.pages| + table.recordIdCount + 1 <= U32_LIMIT
      modifies table.interner, table`idToAddr, table`past, table.heap, table.indexes, table.journal
      ensures Wide(table.columns, T.PairsOf(changed)) && (|table.columns| <= 814 ==> !result.RowLost?)
      ensures var from, l := old(T.Start(table.Now(), table.past, table.journal.tracks)), T.PairsOf(changed);
        match result
        case NotUpdated => table.Valid() && table.Now() == from.now
        case RowsUpdated(errors) => table.Valid() && table.HasMade(from, l, Times(stamp, |l|), |l|, errors)
        case RowLost(errors, k) => k < |l| && table.HasLost(from, l, Times(stamp, |l|), k, errors)
      ensures UpdatesFor(old(Here()), condition, assignments, old(T.Listing(table.TableRows(), table.recordIdCount)),
                         result, changed, View())
    {
      hide T.Table.Valid, T.Table.Now, Room, AllLive, Answers, Assigned, Unassignable, AllUsable, SamePlaces, Wide;
      hide T.Table.HasMade, T.Table.HasLost, T.Table.Agree, T.DistinctIds, T.AllAt, UpdatesFor, RowsKnown;
      table.ValidFacts();
      ghost var x, rows, l := Here(), table.TableRows(), T.Listing(table.TableRows(), table.recordIdCount);
      AllRowsKnown();
      NoChanges(table.columns);
      changed := [];
      result := NotUpdated;
      var records := MatchingRecords(condition, t);
      ghost var y := Here();
      if records.None? {
        NoneMatched(x, condition, assignments, l, View());
        return;
      }
      var r := AssignAll(records.value, assignments, t);
      ghost var now := View();
      if r.None? {
        SeenFrom(x, y, rows, table.idToAddr, assignments, records.value, [], now);
        Matched(x, y.view, now, condition, assignments, l, records.value, NotUpdated, []);
        return;
      }
      SeenFrom(x, y, rows, table.idToAddr, assignments, records.value, r.value, now);
      AllAssigned(y, assignments, T.PairsOf(records.value), r.value, now);
      ReadyToUpdate(table.columns, rows, table.idToAddr, records.value, r.value, now.Keys);
      changed := r.value;
      var n := |r.value|;
      var stamps := Times(stamp, n);
      var errors, lost := table.UpdateMultiple(r.value, stamps);
      result := if lost.None? then RowsUpdated(errors) else RowLost(errors, lost.value);
      Matched(x, y.view, now, condition, assignments, l, records.value, result, changed);
    }

    /** The values of a row of literals; nothing when an integer is out of range. */
    method LiteralValues(row: seq<A.Literal>, ghost t: set<Text>) returns (r: Option<seq<Value>>)
      requires table.Valid() && Room(t) && RowTextsIn(row, t)
      modifies table.interner
      ensures table.Valid() && table.Now() == old(table.Now()) && Room(t) && I.Extends(old(View()), View())
      ensures Demand(t) == old(Demand(t)) && (r.None? <==> OutOfRange(row))
      ensures r.Some? ==> StoredAs(row, r.value, View()) && Usable(r.value, |row|, View().Keys)
    {
      hide T.Table.Valid, T.Table.Now, Room, Demand, StoredAs, Usable, I.Extends, DatumOf, LiteralMeaning;
      table.ValidFacts();
      ghost var view0 := View();
      T.ExtendsItself(view0);
      var values: seq<Value> := [];
      NothingStored(row, view0);
      for k := 0 to |row|
        invariant table.Valid() && table.Now() == old(table.Now()) && Room(t) && I.Extends(view0, View())
        invariant Demand(t) == old(Demand(t)) && |values| == k && forall j :: 0 <= j < k ==>
          LiteralMeaning(row[j]).Some?
        invariant StoredAs(row[..k], values, View()) && Usable(values, k, View().Keys)
      {
        ghost var view := View();
        var v := LiteralValue(row[k], t);
        T.ExtendsOn(view0, view, View());
        if v.None? {
          return None;
        }
        StoredStays(row[..k], values, view, View());
        StoredMore(row, k, values, v.value, View());
        values := values + [v.value];
      }
      assert row[..|row|] == row;
      r := Some(values);
    }

    /** The values of all rows, before any of them is inserted. */
    method RowValues(source: seq<seq<A.Literal>>, ghost t: set<Text>) returns (r: Option<seq<seq<Value>>>)
      requires table.Valid() && Room(t) && forall i :: 0 <= i < |source| ==> RowTextsIn(source[i], t)
      modifies table.interner
      ensures table.Valid() && table.Now() == old(table.Now()) && Room(t) && I.Extends(old(View()), View())
      ensures Demand(t) == old(Demand(t)) && (r.None? <==> exists i :: 0 <= i < |source| && OutOfRange(source[i]))
      ensures r.Some? ==> AllStoredAs(source, r.value, |source|, View())
    {
      hide T.Table.Valid, T.Table.Now, Room, Demand, StoredAs, Usable, I.Extends, OutOfRange, RowTextsIn, AllStoredAs;
      NoRowsStored(source, View());
      table.ValidFacts();
      ghost var view0 := View();
      T.ExtendsItself(view0);
      var rows: seq<seq<Value>> := [];
      for i := 0 to |source|
        invariant table.Valid() && table.Now() == old(table.Now()) && Room(t) && I.Extends(view0, View())
        invariant Demand(t) == old(Demand(t)) && AllStoredAs(source, rows, i, View())
        invariant forall j :: 0 <= j < i ==> !OutOfRange(source[j])
      {
        ghost var view := View();
        var row := LiteralValues(source[i], t);
        T.ExtendsOn(view0, view, View());
        if row.None? {
          return None;
        }
        AllStoredStays(source, rows, i, view, View());
        OneMoreStored(source, rows, i, row.value, View());
        rows := rows + [row.value];
      }
      r := Some(rows);
    }

    lemma ReadyToInsert(source: seq<seq<A.Literal>>, values: seq<seq<Value>>, t: set<Text>)
      requires AllStoredAs(source, values, |source|, View())
      ensures |values| == |source| && table.interner.nextId <= Demand(t) && View() == table.interner.idToView
      ensures forall i :: 0 <= i < |values| ==> AllFit(values[i]) && AllKnown(values[i], table.KnownIds())
    {
      RowsUsable(source, values, View());
    }

    lemma StillStored(source: seq<seq<A.Literal>>, values: seq<seq<Value>>, view: map<nat, Text>)
      requires AllStoredAs(source, values, |source|, view) && I.Extends(view, table.interner.idToView)
      ensures AllStoredAs(source, values, |source|, View())
    {
      AllStoredStays(source, values, |source|, view, View());
    }

    /** INSERT: nothing is inserted when an integer is out of range; otherwise the rows are
        made and inserted one after the other, up to the first that fails. */
    method InsertRows(source: seq<seq<A.Literal>>, names: seq<string>, stamps: seq<seq<byte>>, ghost t: set<Text>)
        returns (inserted: Option<(seq<T.Record>, Option<T.InsertOutcome>)>, ghost rows: seq<seq<Value>>,
                 ghost made: seq<seq<Value>>)
      requires table.Valid() && Room(t) && forall i :: 0 <= i < |source| ==> RowTextsIn(source[i], t)
      requires |stamps| == |source| && T.Stamps(stamps)
      requires Demand(t) + (|source| + 1) * |table.columns| + 1 < U32_LIMIT
      requires table.recordIdCount + |source| < U32_LIMIT && |table.heap.pages| + |source| <= U32_LIMIT
      modifies table.interner, table`recordIdCount, table`idToAddr, table`past, table.heap, table.indexes, table.journal
      ensures inserted.None? <==> exists i :: 0 <= i < |source| && OutOfRange(source[i])
      ensures inserted.None? ==> table.Valid() && table.Now() == old(table.Now())
      ensures inserted.Some? ==>
        && AllStoredAs(source, rows, |source|, View())
        && table.InsertEnded(old(T.Start(table.Now(), table.past, table.journal.tracks)), names, rows, stamps,
                             inserted.value.0, inserted.value.1, made)
    {
      hide *;
      table.ValidFacts();
      rows, made := [], [];
      var r := RowValues(source, t);
      if r.None? {
        return None, [], [];
      }
      rows := r.value;
      ReadyToInsert(source, rows, t);
      ghost var view := View();
      var result, failure;
      result, failure, made := table.InsertMultiple(r.value, names, stamps);
      StillStored(source, rows, view);
      inserted := Some((result, failure));
    }
  }

  /** The result of an UPDATE is right for its condition. */
  ghost predicate UpdatesFor(x: Context, condition: Option<A.Condition>, assignments: seq<(string, A.Expression)>,
                             l: seq<(nat, seq<Value>)>, result: UpdateResult,
                             changed: seq<T.Record>, now: map<nat, Text>)
  {
    && (condition.None? ==> IsUpdate(x, assignments, l, result, changed, now))
    && (condition.Some? && ConditionOk(condition.value, x.columns) ==>
      forall order :: Ranks(order, now) && AllDecided(In(x, order), condition.value, l) ==>
        IsUpdate(x, assignments, Filter(In(x, order), l, condition.value), result, changed, now))
  }

  lemma NoChanges(columns: seq<Column>)
    ensures Wide(columns, T.PairsOf([]))
  {
  }

  lemma NoneMatched(x: Context, condition: Option<A.Condition>, assignments: seq<(string, A.Expression)>,
                    l: seq<(nat, seq<Value>)>, now: map<nat, Text>)
    requires condition.Some? && (ConditionOk(condition.value, x.columns) ==> Answers(x, now, condition.value, l, None))
    ensures UpdatesFor(x, condition, assignments, l, NotUpdated, [], now)
  {
    hide IsUpdate, AllDecided, Filter, Ranks;
  }

  lemma Matched(x: Context, view: map<nat, Text>, now: map<nat, Text>, condition: Option<A.Condition>,
                assignments: seq<(string, A.Expression)>, l: seq<(nat, seq<Value>)>, records: seq<T.Record>,
                result: UpdateResult, changed: seq<T.Record>)
    requires I.Extends(view, now) && IsUpdate(x, assignments, T.PairsOf(records), result, changed, now)
    requires condition.None? ==> T.PairsOf(records) == l
    requires condition.Some? && ConditionOk(condition.value, x.columns) ==>
      Answers(x, view, condition.value, l, Some(records))
    ensures UpdatesFor(x, condition, assignments, l, result, changed, now)
  {
    RankedOnes(view, now);
    hide IsUpdate, AllDecided, Filter, Ranks, I.Extends;
  }

  /** The rows have their meaning whether the texts known now or those known at the start are used. */
  lemma SeenFrom(x: Context, y: Context, rows: Rows, ids: map<nat, RecordAddress>,
                 assignments: seq<(string, A.Expression)>,
                 records: seq<T.Record>, changed: seq<T.Record>, now: map<nat, Text>)
    requires rows.Keys == ids.Keys && RowsKnown(x, rows) && AllLive(records, rows, ids)
    requires y == x.(view := y.view) && I.Extends(x.view, y.view)
    ensures var l := T.PairsOf(records);
      && (Unassignable(x, assignments, l) <==> Unassignable(y, assignments, l))
      && (Assigned(x, assignments, l, changed, |l|, now) <==> Assigned(y, assignments, l, changed, |l|, now))
  {
    hide AssignMeaning, RowOf, AllKnown, I.Extends;
    var l := T.PairsOf(records);
    forall i | 0 <= i < |l| ensures RowOf(l[i].1, x.view) == RowOf(l[i].1, y.view) {
      assert T.Live(records[i], rows, ids);
      RowStays(records[i].fields, x.view, y.view);
    }
  }

  lemma ReadyToUpdate(columns: seq<Column>, rows: Rows, ids: map<nat, RecordAddress>, records: seq<T.Record>,
                      changed: seq<T.Record>, known: set<nat>)
    requires rows.Keys == ids.Keys && AllLive(records, rows, ids) && T.DistinctIds(records)
    requires SamePlaces(changed, records) && AllUsable(changed, |columns|, known)
    ensures |changed| == |records| && T.DistinctIds(changed) && T.AllAt(changed, 0, ids)
      && Wide(columns, T.PairsOf(changed))
    ensures forall i :: 0 <= i < |changed| ==> AllFit(changed[i].fields) && AllKnown(changed[i].fields, known)
  {
    hide AllFit, AllKnown;
    forall i | 0 <= i < |changed| ensures Usable(changed[i].fields, |columns|, known) { }
    forall i | 0 <= i < |changed| ensures changed[i].id in ids && ids[changed[i].id] == changed[i].address {
      assert T.Live(records[i], rows, ids);
    }
  }

  lemma RowsUsable(rows: seq<seq<A.Literal>>, values: seq<seq<Value>>, view: map<nat, Text>)
    requires AllStoredAs(rows, values, |rows|, view)
    ensures |values| == |rows| && forall i :: 0 <= i < |values| ==> AllFit(values[i]) && AllKnown(values[i], view.Keys)
  {
    hide StoredAs, AllFit, AllKnown;
    forall i | 0 <= i < |values| ensures Usable(values[i], |rows[i]|, view.Keys) { }
  }

  lemma NoRowsStored(rows: seq<seq<A.Literal>>, view: map<nat, Text>)
    ensures AllStoredAs(rows, [], 0, view)
  {
  }

  lemma OneMoreStored(rows: seq<seq<A.Literal>>, values: seq<seq<Value>>, n: nat, row: seq<Value>, view: map<nat, Text>)
    requires n < |rows| && AllStoredAs(rows, values, n, view)
    requires StoredAs(rows[n], row, view) && Usable(row, |rows[n]|, view.Keys)
    ensures AllStoredAs(rows, values + [row], n + 1, view)
  {
    hide StoredAs, Usable;
  }

  lemma NothingStored(row: seq<A.Literal>, view: map<nat, Text>)
    ensures StoredAs(row[..0], [], view) && Usable([], 0, view.Keys)
  {
  }


  /** What a row of literals is stored as. */
  ghost predicate StoredAs(row: seq<A.Literal>, values: seq<Value>, view: map<nat, Text>) {
    |values| == |row| && forall k :: 0 <= k < |row| ==> Some(DatumOf(values[k], view)) == LiteralMeaning(row[k])
  }

  ghost predicate AllStoredAs(rows: seq<seq<A.Literal>>, values: seq<seq<Value>>, n: nat, view: map<nat, Text>)
    requires n <= |rows|
  {
    && |values| == n
    && forall i :: 0 <= i < n ==> StoredAs(rows[i], values[i], view) && Usable(values[i], |rows[i]|, view.Keys)
  }

  /** An integer of the row is out of range. */
  ghost predicate OutOfRange(row: seq<A.Literal>) {
    exists k :: 0 <= k < |row| && LiteralMeaning(row[k]).None?
  }

  ghost predicate RowTextsIn(row: seq<A.Literal>, t: set<Text>) {
    forall k :: 0 <= k < |row| ==> LiteralTexts(row[k]) <= t
  }

  lemma StoredStays(row: seq<A.Literal>, values: seq<Value>, view: map<nat, Text>, more: map<nat, Text>)
    requires StoredAs(row, values, view) && Usable(values, |row|, view.Keys) && I.Extends(view, more)
    ensures StoredAs(row, values, more) && Usable(values, |row|, more.Keys)
  {
    hide I.Extends, LiteralMeaning;
    RowStays(values, view, more);
    forall k | 0 <= k < |row| ensures DatumOf(values[k], more) == DatumOf(values[k], view) {
      assert RowOf(values, more)[k] == RowOf(values, view)[k];
    }
  }

  lemma AllStoredStays(rows: seq<seq<A.Literal>>, values: seq<seq<Value>>, n: nat,
                       view: map<nat, Text>, more: map<nat, Text>)
    requires n <= |rows| && AllStoredAs(rows, values, n, view) && I.Extends(view, more)
    ensures AllStoredAs(rows, values, n, more)
  {
    hide StoredAs, Usable, I.Extends;
    forall i | 0 <= i < n ensures StoredAs(rows[i], values[i], more) && Usable(values[i], |rows[i]|, more.Keys) {
      StoredStays(rows[i], values[i], view, more);
    }
  }

  lemma StoredMore(row: seq<A.Literal>, k: nat, values: seq<Value>, v: Value, view: map<nat, Text>)
    requires k < |row| && StoredAs(row[..k], values, view) && Usable(values, k, view.Keys)
    requires Some(DatumOf(v, view)) == LiteralMeaning(row[k]) && Fits(v) && Known(v, view.Keys)
    ensures StoredAs(row[..k + 1], values + [v], view) && Usable(values + [v], k + 1, view.Keys)
  {
    hide LiteralMeaning, DatumOf;
    var s := row[..k + 1];
    forall j | 0 <= j < k + 1 ensures Some(DatumOf((values + [v])[j], view)) == LiteralMeaning(s[j]) {
      if j < k { assert s[j] == row[..k][j]; }
    }
  }

  /** Forbidden changes are listed with their places among the matching rows. */
  function Times(stamp: nat -> seq<byte>, n: nat): (r: seq<seq<byte>>)
    ensures |r| == n && forall i :: 0 <= i < n ==> r[i] == stamp(i)
  {
    seq(n, i requires 0 <= i < n => stamp(i))
  }

  datatype UpdateResult =
    | NotUpdated
    | RowsUpdated(errors: seq<(nat, Violation)>)
    | RowLost(errors: seq<(nat, Violation)>, at: nat)

  /** The result of an UPDATE of the rows `l`. */
  ghost predicate IsUpdate(x: Context, assignments: seq<(string, A.Expression)>,
                           l: seq<(nat, seq<Value>)>, result: UpdateResult,
                           changed: seq<T.Record>, now: map<nat, Text>)
  {
    && (result.NotUpdated? <==> Unassignable(x, assignments, l))
    && (!result.NotUpdated? ==> Assigned(x, assignments, l, changed, |l|, now))
  }


  lemma NothingAssigned(x: Context, assignments: seq<(string, A.Expression)>,
                        l: seq<(nat, seq<Value>)>, records: seq<T.Record>)
    ensures Assigned(x, assignments, l, [], 0, x.view) && SamePlaces([], records[..0])
  {
  }

  lemma CannotAssign(x: Context, assignments: seq<(string, A.Expression)>, l: seq<(nat, seq<Value>)>, i: nat)
    requires i < |l| && |l[i].1| == |x.columns| && AssignMeaning(assignments, x.columns, RowOf(l[i].1, x.view)).None?
    ensures Unassignable(x, assignments, l)
  {
  }

  lemma AllAssigned(x: Context, assignments: seq<(string, A.Expression)>,
                    l: seq<(nat, seq<Value>)>, changed: seq<T.Record>,
                    now: map<nat, Text>)
    requires Assigned(x, assignments, l, changed, |l|, now)
    ensures !Unassignable(x, assignments, l)
  {
    hide AssignMeaning, RowOf;
    forall i | 0 <= i < |l| ensures IsAssigned(x, assignments, l[i].1, changed[i].fields, now) { }
  }

  lemma OneMoreAssigned(x: Context, assignments: seq<(string, A.Expression)>,
                        l: seq<(nat, seq<Value>)>, changed: seq<T.Record>,
                        records: seq<T.Record>, fields: seq<Value>, now: map<nat, Text>)
    requires l == T.PairsOf(records) && |changed| < |records| && Assigned(x, assignments, l, changed, |changed|, now)
    requires SamePlaces(changed, records[..|changed|]) && AllUsable(changed, |x.columns|, now.Keys)
    requires var i := |changed|;
      IsAssigned(x, assignments, records[i].fields, fields, now) && Usable(fields, |x.columns|, now.Keys)
    ensures var (i, r) := (|changed|, records[|changed|]); var more := changed + [T.Record(r.id, fields, r.address)];
      && Assigned(x, assignments, l, more, i + 1, now) && AllUsable(more, |x.columns|, now.Keys)
      && SamePlaces(more, records[..i + 1])
  {
    hide IsAssigned, Usable;
  }

  lemma AssignStep(assignments: seq<(string, A.Expression)>, k: nat, columns: seq<Column>, row: seq<Datum>)
    requires k < |assignments| && |row| == |columns|
    ensures AssignMeaning(assignments[..k + 1], columns, row) ==
      var before := AssignMeaning(assignments[..k], columns, row);
      if before.None? then None
      else
        var (i, v) := (ColumnIndex(columns, assignments[k].0),
                       ExpressionMeaning(assignments[k].1, columns, before.value));
        if i.None? || v.None? then None else Some(before.value[i.value := v.value])
  {
    assert assignments[..k + 1][..k] == assignments[..k];
  }

  /** Once an assignment fails, all do. */
  lemma {:induction false} AssignFails(assignments: seq<(string, A.Expression)>, k: nat,
                                       columns: seq<Column>, row: seq<Datum>)
    requires k < |assignments| && |row| == |columns| && AssignMeaning(assignments[..k + 1], columns, row).None?
    ensures AssignMeaning(assignments, columns, row).None?
    decreases |assignments|
  {
    if k + 1 < |assignments| {
      var init := assignments[..|assignments| - 1];
      assert init[..k + 1] == assignments[..k + 1];
      AssignFails(init, k, columns, row);
    } else {
      assert assignments[..k + 1] == assignments;
    }
  }

  lemma StoredOne(fields: seq<Value>, i: nat, v: Value, view: map<nat, Text>)
    requires i < |fields| && AllFit(fields) && AllKnown(fields, view.Keys) && Fits(v) && Known(v, view.Keys)
    ensures AllFit(fields[i := v]) && AllKnown(fields[i := v], view.Keys)
    ensures RowOf(fields[i := v], view) == RowOf(fields, view)[i := DatumOf(v, view)]
  {
  }

  lemma UsableStays(fields: seq<Value>, width: nat, view: map<nat, Text>, more: map<nat, Text>)
    requires Usable(fields, width, view.Keys) && I.Extends(view, more)
    ensures Usable(fields, width, more.Keys) && RowOf(fields, more) == RowOf(fields, view)
  {
    RowStays(fields, view, more);
  }

  /** The same ids at the same addresses. */
  ghost predicate SamePlaces(a: seq<T.Record>, b: seq<T.Record>) {
    |a| == |b| && forall i :: 0 <= i < |a| ==> a[i].id == b[i].id && a[i].address == b[i].address
  }

  /** A computed truth value is the reference's, and evaluation fails exactly where the
      reference does. */
  predicate Agrees(r: Option<SqlBool>, m: Verdict) {
    r == if m.Error? then None else Some(m.value)
  }

  lemma BoundAgrees(a: Value, b: Value, op: A.Operator, view: map<nat, Text>, order: TextOrder)
    requires Known(a, view.Keys) && Known(b, view.Keys) && Ranks(order, view)
    requires forall i, j :: i in view && j in view && view[i] == view[j] ==> i == j
    ensures Agrees(CompareValues(a, b, op), Bound(op, DatumOf(a, view), DatumOf(b, view), order))
  {
    if !(a.Str? && b.Str?) {
      ValuesCompareAsData(a, b, op, view);
    } else {
      assert order(view[a.id], view[b.id]) <==> a.id < b.id;
    }
  }

  lemma RoomKept(t: set<Text>, known: set<Text>, text: Text)
    requires text in t
    ensures |t - (known + {text})| + (if text in known then 0 else 1) == |t - known|
  {
    if text in known {
      assert known + {text} == known;
    } else {
      assert t - known == (t - (known + {text})) + {text};
    }
  }
}
