/** The binary form of a record's fields. */
module Records {
  import opened Bytes
  import opened Values

  const STORED_NULL: byte := 0
  const STORED_INT: byte := 1
  const STORED_STRING: byte := 2

  ghost predicate AllFit(fields: seq<Value>) {
    forall i :: 0 <= i < |fields| ==> Fits(fields[i])
  }

  ghost predicate AllKnown(fields: seq<Value>, known: set<nat>) {
    forall i :: 0 <= i < |fields| ==> Known(fields[i], known)
  }

  function ValueBytes(v: Value): (b: seq<byte>)
    requires Fits(v)
    ensures |b| == ValueSize(v)
  {
    match v
    case Null => [STORED_NULL]
    case Int(n) => [STORED_INT] + I32Bytes(n)
    case Str(id) => [STORED_STRING] + U32Bytes(id)
  }

  function ValueSize(v: Value): nat {
    if v.Null? then 1 else 5
  }

  function SizeOf(fields: seq<Value>): nat {
    if fields == [] then 0 else SizeOf(fields[..|fields| - 1]) + ValueSize(fields[|fields| - 1])
  }

  ghost function RecordBytes(fields: seq<Value>): (b: seq<byte>)
    requires AllFit(fields)
    ensures |b| == SizeOf(fields)
  {
    if fields == [] then [] else
      var n := |fields| - 1;
      RecordBytes(fields[..n]) + ValueBytes(fields[n])
  }

  /** A record takes between one and five bytes a column. */
  lemma {:induction false} SizeBounds(fields: seq<Value>)
    ensures |fields| <= SizeOf(fields) <= 5 * |fields|
    decreases |fields|
  {
    if fields != [] { SizeBounds(fields[..|fields| - 1]); }
  }

  method Serialize(fields: seq<Value>) returns (buffer: seq<byte>)
    requires AllFit(fields)
    ensures buffer == RecordBytes(fields)
  {
    buffer := [];
    for i := 0 to |fields|
      invariant buffer == RecordBytes(fields[..i])
    {
      assert fields[..i + 1][..i] == fields[..i];
      buffer := buffer + ValueBytes(fields[i]);
    }
    assert fields[..|fields|] == fields;
  }

  /** One value from position `pos` on, with the position behind it. Nothing when the bytes
      run out, the type is unknown or the string id was never issued. */
  function ReadValue(data: seq<byte>, pos: nat, known: set<nat>): (r: Option<(Value, nat)>)
    requires pos <= |data|
    ensures r.Some? ==> pos < r.value.1 <= |data| && Fits(r.value.0) && Known(r.value.0, known)
    ensures r.Some? ==> data[pos..r.value.1] == ValueBytes(r.value.0)
  {
    if pos == |data| then None
    else if data[pos] == STORED_NULL then Some((Null, pos + 1))
    else if pos + 5 > |data| then None
    else
      var word := data[pos + 1..pos + 5];
      assert data[pos..pos + 5] == [data[pos]] + word;
      if data[pos] == STORED_INT then I32Bijection(I32(word), word); Some((Int(I32(word)), pos + 5))
      else if data[pos] == STORED_STRING && U32(word) in known
        then U32Bijection(U32(word), word); Some((Str(U32(word)), pos + 5))
      else None
  }

  lemma ReadBack(data: seq<byte>, pos: nat, v: Value, known: set<nat>)
    requires Fits(v) && Known(v, known) && pos + ValueSize(v) <= |data|
    requires data[pos..pos + ValueSize(v)] == ValueBytes(v)
    ensures ReadValue(data, pos, known) == Some((v, pos + ValueSize(v)))
  {
    var b := data[pos..pos + ValueSize(v)];
    assert b[0] == data[pos];
    if !v.Null? {
      var word := data[pos + 1..pos + 5];
      assert word == b[1..];
      if v.Int? { I32Bijection(v.value, word); } else { U32Bijection(v.id, word); }
    }
  }

  ghost predicate NothingReads(data: seq<byte>, width: nat, known: set<nat>) {
    forall fields :: |fields| == width && AllFit(fields) && AllKnown(fields, known) ==> RecordBytes(fields) != data
  }

  /** Reading `width` values that must use up all of `data`: it succeeds exactly on the
      binary form of some fields, and gives those fields back. */
  method FromBinary(data: seq<byte>, width: nat, known: set<nat>) returns (r: Option<seq<Value>>)
    ensures r.Some? ==>
      |r.value| == width && AllFit(r.value) && AllKnown(r.value, known) && RecordBytes(r.value) == data
    ensures r.None? ==> NothingReads(data, width, known)
  {
    var values: seq<Value>, pos: nat := [], 0;
    for i := 0 to width
      invariant |values| == i && pos <= |data| && AllFit(values) && AllKnown(values, known)
      invariant RecordBytes(values) == data[..pos]
    {
      var one := ReadValue(data, pos, known);
      if one.None? {
        NoOtherReading(data, width, known, values, pos);
        return None;
      }
      assert (values + [one.value.0])[..i] == values;
      assert data[..one.value.1] == data[..pos] + data[pos..one.value.1];
      values, pos := values + [one.value.0], one.value.1;
    }
    if pos != |data| {
      NoOtherReading(data, width, known, values, pos);
      return None;
    }
    return Some(values);
  }

  lemma PartsFit(fields: seq<Value>, n: nat, known: set<nat>)
    requires n <= |fields| && AllFit(fields) && AllKnown(fields, known)
    ensures AllFit(fields[..n]) && AllKnown(fields[..n], known)
  {
  }

  lemma Slices(fields: seq<Value>, n: nat)
    requires n < |fields|
    ensures fields[..n + 1][..n] == fields[..n] && fields[..n + 1][n] == fields[n]
  {
  }

  /** Whatever fields `data` is the binary form of, their values are the ones read so far. */
  lemma TheReading(data: seq<byte>, known: set<nat>, values: seq<Value>, fields: seq<Value>)
    requires AllFit(values) && AllKnown(values, known) && RecordBytes(values) <= data && |values| <= |fields|
    requires AllFit(fields) && AllKnown(fields, known) && RecordBytes(fields) == data
    ensures var pos := SizeOf(values);
      if |values| == |fields| then pos == |data|
      else pos <= |data| && ReadValue(data, pos, known) == Some((fields[|values|], pos + ValueSize(fields[|values|])))
  {
    hide RecordBytes, ReadValue, ValueSize, SizeOf, AllFit, AllKnown;
    var n := |values|;
    PartsFit(fields, n, known);
    PrefixBytes(fields, n);
    SameValues(fields[..n], values, data, known);
    if n < |fields| {
      PartsFit(fields, n + 1, known);
      PrefixBytes(fields, n + 1);
      Slices(fields, n);
      ReadsLast(fields[..n + 1], data, known);
    } else {
      assert fields[..n] == fields;
    }
  }

  lemma NoOtherReading(data: seq<byte>, width: nat, known: set<nat>, values: seq<Value>, pos: nat)
    requires pos <= |data| && AllFit(values) && AllKnown(values, known)
      && RecordBytes(values) == data[..pos] && |values| <= width
    requires if |values| == width then pos != |data| else ReadValue(data, pos, known).None?
    ensures NothingReads(data, width, known)
  {
    hide RecordBytes, ReadValue;
    forall fields | |fields| == width && AllFit(fields) && AllKnown(fields, known) ensures RecordBytes(fields) != data {
      if RecordBytes(fields) == data { TheReading(data, known, values, fields); }
    }
  }

  lemma {:induction false} PrefixBytes(fields: seq<Value>, n: nat)
    requires n <= |fields| && AllFit(fields)
    ensures RecordBytes(fields[..n]) <= RecordBytes(fields)
    decreases |fields|
  {
    if n < |fields| {
      var init := fields[..|fields| - 1];
      assert init[..n] == fields[..n];
      PrefixBytes(init, n);
    } else {
      assert fields[..n] == fields;
    }
  }

  /** Two records whose binary forms both begin `data` have the same values. */
  lemma {:induction false} SameValues(a: seq<Value>, b: seq<Value>, data: seq<byte>, known: set<nat>)
    requires |a| == |b| && AllFit(a) && AllKnown(a, known) && AllFit(b) && AllKnown(b, known)
    requires RecordBytes(a) <= data && RecordBytes(b) <= data
    ensures a == b
    decreases |a|
  {
    hide RecordBytes, ReadValue, ValueSize;
    if a != [] {
      var n := |a| - 1;
      PrefixBytes(a, n);
      PrefixBytes(b, n);
      SameValues(a[..n], b[..n], data, known);
      ReadsLast(a, data, known);
      ReadsLast(b, data, known);
      assert a == a[..n] + [a[n]] && b == b[..n] + [b[n]];
    }
  }

  lemma ReadsLast(fields: seq<Value>, data: seq<byte>, known: set<nat>)
    requires fields != [] && AllFit(fields) && AllKnown(fields, known) && RecordBytes(fields) <= data
    ensures var n := |fields| - 1; var pos := SizeOf(fields[..n]);
      && pos <= |data|
      && ReadValue(data, pos, known) == Some((fields[n], pos + ValueSize(fields[n])))
  {
    hide ReadValue, ValueBytes, ValueSize, SizeOf, RecordBytes, AllFit, AllKnown;
    var n := |fields| - 1;
    LastOfRecord(fields, known);
    SliceBehind(data, RecordBytes(fields[..n]), ValueBytes(fields[n]));
    ReadBack(data, |RecordBytes(fields[..n])|, fields[n], known);
  }

  lemma LastOfRecord(fields: seq<Value>, known: set<nat>)
    requires fields != [] && AllFit(fields) && AllKnown(fields, known)
    ensures var n := |fields| - 1;
      && AllFit(fields[..n]) && Fits(fields[n]) && Known(fields[n], known)
      && RecordBytes(fields) == RecordBytes(fields[..n]) + ValueBytes(fields[n])
  {
  }

  lemma SliceBehind(data: seq<byte>, init: seq<byte>, last: seq<byte>)
    requires init + last <= data
    ensures |init| + |last| <= |data| && data[|init|..|init| + |last|] == last
  {
    assert data[..|init + last|] == init + last;
  }

  ghost function IdsOf(fields: seq<Value>): (ids: set<nat>)
    ensures AllKnown(fields, ids)
  {
    set i | 0 <= i < |fields| && fields[i].Str? :: fields[i].id
  }

  /** A record read back is the record written: the binary form determines the fields. */
  lemma RoundTrip(a: seq<Value>, b: seq<Value>)
    requires AllFit(a) && AllFit(b) && |a| == |b| && RecordBytes(a) == RecordBytes(b)
    ensures a == b
  {
    SameValues(a, b, RecordBytes(a), IdsOf(a) + IdsOf(b));
  }
}
