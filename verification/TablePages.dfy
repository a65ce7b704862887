/** Heap pages: raw bytes that act as a directory of slots. */
module TablePages {
  import opened Bytes
  import opened Values
  import opened Records

  const PAGE_SIZE := 4096
  const HEADER_SIZE := 12
  const CELL_SIZE := 12
  const MAX_RECORD_SIZE := PAGE_SIZE - HEADER_SIZE - CELL_SIZE

  datatype Slot = Slot(id: nat, data: seq<byte>, deleted: bool)

  /** Where cell `k` starts. */
  ghost function OffsetOf(slots: seq<Slot>, k: nat): (o: nat)
    requires k <= |slots|
    ensures o >= HEADER_SIZE
  {
    if k == 0 then HEADER_SIZE else OffsetOf(slots, k - 1) + CELL_SIZE + |slots[k - 1].data|
  }

  ghost function Word(b: seq<byte>, at: nat): nat
    requires at + 4 <= |b|
  {
    U32(b[at..at + 4])
  }

  ghost predicate SlotAt(b: seq<byte>, off: nat, s: Slot) {
    && off + CELL_SIZE + |s.data| <= |b|
    && Word(b, off) == s.id && Word(b, off + 4) == |s.data|
    && b[off + 8] == (if s.deleted then 1 else 0)
    && b[off + CELL_SIZE..off + CELL_SIZE + |s.data|] == s.data
  }

  ghost predicate CellHolds(b: seq<byte>, slots: seq<Slot>, k: nat)
    requires k < |slots|
  {
    SlotAt(b, OffsetOf(slots, k), slots[k])
  }

  /** The bytes of page `id` are a header and the cells of `slots`, one behind the other. */
  ghost predicate PageHolds(b: seq<byte>, id: nat, slots: seq<Slot>) {
    && |b| == PAGE_SIZE
    && Word(b, 0) == id && Word(b, 4) == |slots| && Word(b, 8) == OffsetOf(slots, |slots|) <= PAGE_SIZE
    && forall k :: 0 <= k < |slots| ==> CellHolds(b, slots, k)
  }

  /** Earlier cells stay where they are, whatever is appended or marked deleted. */
  ghost predicate SameSizes(a: seq<Slot>, b: seq<Slot>) {
    |a| <= |b| && forall i :: 0 <= i < |a| ==> |a[i].data| == |b[i].data|
  }

  lemma {:induction false} OffsetsStay(a: seq<Slot>, b: seq<Slot>, k: nat)
    requires k <= |a| && SameSizes(a, b)
    ensures OffsetOf(a, k) == OffsetOf(b, k)
    decreases k
  {
    if k > 0 { OffsetsStay(a, b, k - 1); }
  }

  lemma {:induction false} OffsetsGrow(slots: seq<Slot>, j: nat, k: nat)
    requires j < k <= |slots|
    ensures OffsetOf(slots, j) + CELL_SIZE + |slots[j].data| <= OffsetOf(slots, k)
    decreases k
  {
    if j < k - 1 { OffsetsGrow(slots, j, k - 1); }
  }

  /** `c` is `b` outside the `n` bytes from `at` on. */
  ghost predicate Agree(b: seq<byte>, c: seq<byte>, at: nat, n: nat) {
    |b| == |c| && forall i :: 0 <= i < |b| && !(at <= i < at + n) ==> c[i] == b[i]
  }

  lemma WordKept(b: seq<byte>, c: seq<byte>, at: nat, n: nat, w: nat)
    requires Agree(b, c, at, n) && w + 4 <= |b| && (w + 4 <= at || at + n <= w)
    ensures Word(c, w) == Word(b, w)
  {
    assert c[w..w + 4] == b[w..w + 4];
  }

  lemma SlotKept(b: seq<byte>, c: seq<byte>, at: nat, n: nat, off: nat, s: Slot)
    requires Agree(b, c, at, n) && SlotAt(b, off, s) && (off + CELL_SIZE + |s.data| <= at || at + n <= off)
    ensures SlotAt(c, off, s)
  {
    WordKept(b, c, at, n, off);
    WordKept(b, c, at, n, off + 4);
    assert c[off + CELL_SIZE..off + CELL_SIZE + |s.data|] == b[off + CELL_SIZE..off + CELL_SIZE + |s.data|];
  }

  /** Writing to the header or behind the last cell leaves the cells alone. */
  lemma CellsKept(b: seq<byte>, c: seq<byte>, at: nat, n: nat, slots: seq<Slot>)
    requires Agree(b, c, at, n) && (at + n <= HEADER_SIZE || OffsetOf(slots, |slots|) <= at)
    requires forall k :: 0 <= k < |slots| ==> CellHolds(b, slots, k)
    ensures forall k :: 0 <= k < |slots| ==> CellHolds(c, slots, k)
  {
    forall k | 0 <= k < |slots| ensures CellHolds(c, slots, k) {
      OffsetsGrow(slots, k, |slots|);
      assert CellHolds(b, slots, k);
      SlotKept(b, c, at, n, OffsetOf(slots, k), slots[k]);
    }
  }

  /** A new cell behind the last one, with the two header words brought up to date. */
  lemma AppendHolds(c: seq<byte>, id: nat, slots: seq<Slot>, s: Slot)
    requires |c| == PAGE_SIZE && forall k :: 0 <= k < |slots| ==> CellHolds(c, slots, k)
    requires var end := OffsetOf(slots, |slots|);
      && SlotAt(c, end, s) && Word(c, 0) == id && Word(c, 4) == |slots| + 1 && Word(c, 8) == end + CELL_SIZE + |s.data|
    ensures PageHolds(c, id, slots + [s])
  {
    hide SlotAt;
    var u := slots + [s];
    OffsetsStay(slots, u, |slots|);
    forall k | 0 <= k < |u| ensures CellHolds(c, u, k) {
      OffsetsStay(slots, u, if k < |slots| then k else |slots|);
      assert k < |slots| ==> CellHolds(c, slots, k);
    }
    SlotEnds(c, OffsetOf(slots, |slots|), s);
  }

  lemma SlotEnds(c: seq<byte>, off: nat, s: Slot)
    requires SlotAt(c, off, s)
    ensures off + CELL_SIZE + |s.data| <= |c|
  {
  }

  /** Setting the deleted byte of cell `k`. */
  lemma DeleteHolds(b: seq<byte>, c: seq<byte>, id: nat, slots: seq<Slot>, k: nat)
    requires PageHolds(b, id, slots) && k < |slots|
    requires var off := OffsetOf(slots, k); off + 8 < |b| && c == b[off + 8 := 1]
    ensures PageHolds(c, id, slots[k := slots[k].(deleted := true)])
  {
    var off, u := OffsetOf(slots, k), slots[k := slots[k].(deleted := true)];
    assert CellHolds(b, slots, k);
    assert Agree(b, c, off + 8, 1);
    WordKept(b, c, off + 8, 1, 0);
    WordKept(b, c, off + 8, 1, 4);
    WordKept(b, c, off + 8, 1, 8);
    OffsetsStay(slots, u, |slots|);
    forall j | 0 <= j < |u| ensures CellHolds(c, u, j) {
      OffsetsStay(slots, u, j);
      assert CellHolds(b, slots, j);
      if j < k {
        OffsetsGrow(slots, j, k);
        SlotKept(b, c, off + 8, 1, OffsetOf(slots, j), slots[j]);
      } else if j > k {
        OffsetsGrow(slots, k, j);
        SlotKept(b, c, off + 8, 1, OffsetOf(slots, j), slots[j]);
      } else {
        WordKept(b, c, off + 8, 1, off);
        WordKept(b, c, off + 8, 1, off + 4);
        var s := slots[k];
        assert c[off + CELL_SIZE..off + CELL_SIZE + |s.data|] == b[off + CELL_SIZE..off + CELL_SIZE + |s.data|];
      }
    }
  }

  datatype Reading = Absent | Corrupt | Found(id: nat, fields: seq<Value>)

  /** A page in memory. */
  class TablePage {
    const raw: array<byte>
    ghost var id: nat
    ghost var slots: seq<Slot>

    ghost predicate Valid()
      reads this, raw
    {
      PageHolds(raw[..], id, slots)
    }

    /** The page as read from the file. */
    constructor (b: seq<byte>, ghost id: nat, ghost slots: seq<Slot>)
      requires PageHolds(b, id, slots)
      ensures Valid() && this.id == id && this.slots == slots && fresh(raw)
    {
      raw := new byte[|b|](i requires 0 <= i < |b| => b[i]);
      this.id, this.slots := id, slots;
      new;
      assert raw[..] == b;
    }

    function WordAt(at: nat): (n: nat)
      requires at + 4 <= raw.Length
      reads raw
      ensures n == Word(raw[..], at)
    {
      assert raw[at..at + 4] == raw[..][at..at + 4];
      U32(raw[at..at + 4])
    }

    function Id(): (n: nat)
      requires Valid()
      reads this, raw
      ensures n == id
    {
      WordAt(0)
    }

    method PutWord(at: nat, n: nat)
      requires at + 4 <= raw.Length && n < U32_LIMIT
      modifies raw
      ensures Agree(old(raw[..]), raw[..], at, 4) && Word(raw[..], at) == n
    {
      var b := U32Bytes(n);
      raw[at], raw[at + 1], raw[at + 2], raw[at + 3] := b[0], b[1], b[2], b[3];
      assert raw[..][at..at + 4] == b;
      U32Bijection(n, b);
    }

    function IsRecordFit(size: nat): (r: bool)
      requires Valid()
      reads this, raw
      ensures r <==> OffsetOf(slots, |slots|) + CELL_SIZE + size <= PAGE_SIZE
    {
      size + CELL_SIZE <= PAGE_SIZE - WordAt(8)
    }

    /** The walk over the cells: slot `idx` is reached at its own offset. */
    method CellAt(idx: nat) returns (offset: nat)
      requires Valid() && idx < |slots|
      ensures offset == OffsetOf(slots, idx) && SlotAt(raw[..], offset, slots[idx])
    {
      offset := HEADER_SIZE;
      for i := 0 to idx
        invariant offset == OffsetOf(slots, i)
      {
        assert CellHolds(raw[..], slots, i);
        offset := offset + CELL_SIZE + WordAt(offset + 4);
      }
      assert CellHolds(raw[..], slots, idx);
    }

    /** The fields of a new cell and the bytes behind it. */
    method WriteCell(offset: nat, recordId: nat, data: seq<byte>)
      requires raw.Length == PAGE_SIZE && offset + CELL_SIZE + |data| <= PAGE_SIZE && recordId < U32_LIMIT
      modifies raw
      ensures SlotAt(raw[..], offset, Slot(recordId, data, false))
      ensures Agree(old(raw[..]), raw[..], offset, CELL_SIZE + |data|)
    {
      PutWord(offset, recordId);
      ghost var b := raw[..];
      PutWord(offset + 4, |data|);
      WordKept(b, raw[..], offset + 4, 4, offset);
      b := raw[..];
      raw[offset + 8] := 0;
      for i := 0 to |data|
        invariant Agree(old(raw[..]), raw[..], offset, CELL_SIZE + |data|)
        invariant raw[offset + 8] == 0 && forall j :: offset <= j < offset + 8 ==> raw[j] == b[j]
        invariant forall j :: 0 <= j < i ==> raw[offset + CELL_SIZE + j] == data[j]
      {
        raw[offset + CELL_SIZE + i] := data[i];
      }
      assert raw[..][offset..offset + 4] == b[offset..offset + 4];
      assert raw[..][offset + 4..offset + 8] == b[offset + 4..offset + 8];
      assert raw[..][offset + CELL_SIZE..offset + CELL_SIZE + |data|] == data;
    }

    /** The slot of the new record, or -1 when the page has no room. */
    method InsertRecord(recordId: nat, data: seq<byte>) returns (slotIdx: int)
      requires Valid() && recordId < U32_LIMIT
      modifies this, raw
      ensures Valid() && id == old(id)
      ensures old(IsRecordFit(|data|)) ==>
        slotIdx == |old(slots)| && slots == old(slots) + [Slot(recordId, data, false)]
      ensures !old(IsRecordFit(|data|)) ==> slotIdx == -1 && slots == old(slots) && raw[..] == old(raw[..])
    {
      ghost var b, s := raw[..], Slot(recordId, data, false);
      var neededSize := CELL_SIZE + |data|;
      if PAGE_SIZE - WordAt(8) < neededSize {
        return -1;
      }
      var offset, count := WordAt(8), WordAt(4);
      SlotCount(slots);
      WriteCell(offset, recordId, data);
      ghost var c := raw[..];
      CellsKept(b, c, offset, neededSize, slots);
      WordKept(b, c, offset, neededSize, 0);
      PutWord(4, count + 1);
      ghost var d := raw[..];
      CellsKept(c, d, 4, 4, slots);
      WordKept(c, d, 4, 4, 0);
      SlotKept(c, d, 4, 4, offset, s);
      PutWord(8, offset + neededSize);
      CellsKept(d, raw[..], 8, 4, slots);
      WordKept(d, raw[..], 8, 4, 0);
      SlotKept(d, raw[..], 8, 4, offset, s);
      WordKept(d, raw[..], 8, 4, 4);
      AppendHolds(raw[..], id, slots, s);
      slots := slots + [s];
      slotIdx := count;
    }

    /** False when there is no such slot. */
    method DeleteRecord(slotIdx: nat) returns (ok: bool)
      requires Valid()
      modifies this, raw
      ensures Valid() && id == old(id) && ok == (slotIdx < |old(slots)|)
      ensures slots == if ok then old(slots)[slotIdx := old(slots)[slotIdx].(deleted := true)] else old(slots)
    {
      ok := slotIdx < WordAt(4);
      if ok {
        ghost var b := raw[..];
        var offset := CellAt(slotIdx);
        if raw[offset + 8] == 0 {
          raw[offset + 8] := 1;
          assert raw[..] == b[offset + 8 := 1];
          DeleteHolds(b, raw[..], id, slots, slotIdx);
        } else {
          assert slots == slots[slotIdx := slots[slotIdx].(deleted := true)];
        }
        slots := slots[slotIdx := slots[slotIdx].(deleted := true)];
      }
    }

    /** The record of a slot that exists and is not deleted. */
    method ReadRecord(slotIdx: nat, width: nat, known: set<nat>) returns (r: Reading)
      requires Valid()
      ensures r.Absent? <==> slotIdx >= |slots| || slots[slotIdx].deleted
      ensures r.Found? ==>
        && r.id == slots[slotIdx].id && |r.fields| == width && AllFit(r.fields) && AllKnown(r.fields, known)
        && RecordBytes(r.fields) == slots[slotIdx].data
      ensures r.Corrupt? ==> NothingReads(slots[slotIdx].data, width, known)
    {
      if slotIdx >= WordAt(4) {
        return Absent;
      }
      var offset := CellAt(slotIdx);
      if raw[offset + 8] != 0 {
        return Absent;
      }
      var size := WordAt(offset + 4);
      var payload := raw[offset + CELL_SIZE..offset + CELL_SIZE + size];
      assert payload == raw[..][offset + CELL_SIZE..offset + CELL_SIZE + size];
      var fields := FromBinary(payload, width, known);
      r := if fields.Some? then Found(WordAt(offset), fields.value) else Corrupt;
    }
  }

  /** A page holds at most as many slots as its bytes allow. */
  lemma {:induction false} SlotCount(slots: seq<Slot>)
    ensures HEADER_SIZE + CELL_SIZE * |slots| <= OffsetOf(slots, |slots|)
    decreases |slots|
  {
    if slots != [] {
      var init := slots[..|slots| - 1];
      SlotCount(init);
      OffsetsStay(init, slots, |init|);
    }
  }
}
