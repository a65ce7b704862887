/** The record heap of a table: pages of slots that records are appended to. */
module Heap {
  import opened Bytes
  import opened LeafRun
  import opened Values
  import opened Records
  import opened TablePages

  const DATA_PAGE_WITH := 1

  datatype Cell = Cell(id: nat, fields: seq<Value>, deleted: bool)

  ghost predicate CellFits(c: Cell) {
    c.id < U32_LIMIT && AllFit(c.fields)
  }

  ghost function SlotOf(c: Cell): Slot
    requires CellFits(c)
  {
    Slot(c.id, RecordBytes(c.fields), c.deleted)
  }

  function EmptyPage(id: nat): (b: seq<byte>)
    requires id < U32_LIMIT
    ensures PageHolds(b, id, [])
  {
    var head := U32Bytes(id) + U32Bytes(0) + U32Bytes(HEADER_SIZE);
    var b := head + seq(PAGE_SIZE - HEADER_SIZE, _ => 0);
    assert b[0..4] == U32Bytes(id) && b[4..8] == U32Bytes(0) && b[8..12] == U32Bytes(HEADER_SIZE);
    U32Bijection(id, b[0..4]);
    U32Bijection(0, b[4..8]);
    U32Bijection(HEADER_SIZE, b[8..12]);
    b
  }

  class Heap {
    var pages: seq<seq<byte>>
    ghost var slots: seq<seq<Slot>>
    /** Every record ever written, by its address. */
    ghost var cells: map<RecordAddress, Cell>

    ghost predicate Valid()
      reads this
    {
      && |pages| == |slots| >= 1
      && (forall p :: 1 <= p < |pages| ==> PageOk(p))
      && (forall a :: a in cells <==> HasSlot(a))
      && (forall a :: a in cells ==> CellAt(a))
    }

    ghost predicate PageOk(p: nat)
      requires p < |pages| == |slots|
      reads this
    {
      PageHolds(pages[p], p, slots[p])
    }

    ghost predicate HasSlot(a: RecordAddress)
      reads this
    {
      1 <= a.pageIndex < |slots| && a.slotIdx < |slots[a.pageIndex]|
    }

    ghost predicate CellAt(a: RecordAddress)
      requires a in cells
      reads this
    {
      HasSlot(a) && CellFits(cells[a]) && slots[a.pageIndex][a.slotIdx] == SlotOf(cells[a])
    }

    constructor (metadata: seq<byte>)
      ensures Valid() && cells == map[]
    {
      pages, slots, cells := [metadata], [[]], map[];
    }

    /** Whether page `p` has room for a record of this size. */
    ghost predicate HasRoom(p: nat, size: nat)
      requires p < |slots|
      reads this
    {
      OffsetOf(slots[p], |slots[p]|) + CELL_SIZE + size <= PAGE_SIZE
    }

    /** A page with room for the record: the preferred one, or else the first that has room,
        or else a new one; nothing when no page could hold it. */
    method FindEnoughFreePage(size: nat, preferPageId: nat) returns (page: TablePage?)
      requires Valid() && |pages| < U32_LIMIT
      modifies this
      ensures Valid() && cells == old(cells) && |pages| <= |old(pages)| + 1
      ensures page == null <==> size > MAX_RECORD_SIZE
      ensures page == null ==> pages == old(pages)
      ensures page != null ==> fresh(page) && fresh(page.raw) && Loaded(page) && page.IsRecordFit(size)
      ensures page != null ==>
        var n, preferred := |old(pages)|, 0 < preferPageId < |old(pages)| && old(HasRoom(preferPageId, size));
        && (slots == if page.id == n then old(slots) + [[]] else old(slots))
        && (if preferred then page.id == preferPageId
            else page.id <= n && forall p :: 1 <= p < page.id ==> !old(HasRoom(p, size)))
    {
      if size > MAX_RECORD_SIZE {
        return null;
      }
      var totalPages := |pages|;
      if preferPageId > 0 && preferPageId < totalPages {
        page := LoadPage(preferPageId);
        if page.IsRecordFit(size) {
          return;
        }
      }
      for i := DATA_PAGE_WITH to totalPages
        invariant Valid() && pages == old(pages) && slots == old(slots) && cells == old(cells)
        invariant forall p :: 1 <= p < i ==> !old(HasRoom(p, size))
      {
        page := LoadPage(i);
        if page.IsRecordFit(size) {
          return;
        }
      }
      AppendPage();
      page := LoadPage(totalPages);
    }

    /** A copy of one of the data pages. */
    ghost predicate Loaded(page: TablePage)
      reads this, page, page.raw
    {
      page.Valid() && 1 <= page.id < |pages| == |slots| && page.slots == slots[page.id]
    }

    method LoadPage(id: nat) returns (page: TablePage)
      requires Valid() && 1 <= id < |pages|
      ensures fresh(page) && fresh(page.raw) && Loaded(page) && page.id == id
    {
      assert PageOk(id);
      page := new TablePage(pages[id], id, slots[id]);
    }

    method AppendPage()
      requires Valid() && |pages| < U32_LIMIT
      modifies this
      ensures Valid() && cells == old(cells)
      ensures |pages| == |old(pages)| + 1 && slots == old(slots) + [[]]
    {
      label before:
      ghost var s := slots;
      pages, slots := pages + [EmptyPage(|pages|)], slots + [[]];
      forall p | 1 <= p < |pages| ensures PageOk(p) {
        assert p < |s| ==> old@before(PageOk(p));
      }
      forall a ensures a in cells <==> HasSlot(a) {
        assert a in cells <==> old@before(HasSlot(a));
      }
      forall a | a in cells ensures CellAt(a) {
        assert old@before(CellAt(a));
      }
    }

    /** The record goes to a slot never used before; nothing happens when it is too large. */
    method WriteRecord(id: nat, fields: seq<Value>, preferPageId: nat) returns (address: Option<RecordAddress>)
      requires Valid() && AllFit(fields) && id < U32_LIMIT && |pages| < U32_LIMIT
      modifies this
      ensures Valid() && |pages| <= |old(pages)| + 1
      ensures address.None? <==> SizeOf(fields) > MAX_RECORD_SIZE
      ensures address.None? ==> cells == old(cells) && pages == old(pages)
      ensures address.Some? ==>
        address.value !in old(cells) && cells == old(cells)[address.value := Cell(id, fields, false)]
    {
      var data := Serialize(fields);
      var page := FindEnoughFreePage(|data|, preferPageId);
      if page == null {
        return None;
      }
      var pageId := page.Id();
      assert PageOk(pageId);
      ghost var a := RecordAddress(pageId, |page.slots|);
      assert a in cells <==> HasSlot(a);
      var slotIdx := page.InsertRecord(id, data);
      assert slotIdx != -1;
      address := Some(RecordAddress(pageId, slotIdx));
      StoreAppended(page, address.value, Cell(id, fields, false));
    }

    /** The page with its new last slot is written back. */
    method StoreAppended(page: TablePage, a: RecordAddress, ghost c: Cell)
      requires Valid() && page.Valid() && 1 <= a.pageIndex < |pages| && page.id == a.pageIndex && CellFits(c)
      requires a.slotIdx == |slots[a.pageIndex]| && page.slots == slots[a.pageIndex] + [SlotOf(c)]
      modifies this
      ensures Valid() && |pages| == |old(pages)| && a !in old(cells) && cells == old(cells)[a := c]
    {
      label before:
      ghost var s := slots;
      assert a in cells <==> HasSlot(a);
      pages, slots, cells := pages[a.pageIndex := page.raw[..]], slots[a.pageIndex := page.slots], cells[a := c];
      forall p | 1 <= p < |pages| ensures PageOk(p) {
        assert p != a.pageIndex ==> old@before(PageOk(p));
      }
      forall x ensures x in cells <==> HasSlot(x) {
        assert x in old(cells) <==> old@before(HasSlot(x));
      }
      forall x | x in cells ensures CellAt(x) {
        assert x != a ==> old@before(CellAt(x));
      }
    }

    method DeleteRecord(a: RecordAddress)
      requires Valid() && a in cells
      modifies this
      ensures Valid() && |pages| == |old(pages)| && cells == old(cells)[a := old(cells)[a].(deleted := true)]
    {
      assert HasSlot(a) && CellAt(a);
      var page := LoadPage(a.pageIndex);
      var ok := page.DeleteRecord(a.slotIdx);
      StoreDeleted(page, a);
    }

    method StoreDeleted(page: TablePage, a: RecordAddress)
      requires Valid() && a in cells && HasSlot(a) && page.Valid() && page.id == a.pageIndex
      requires page.slots == slots[a.pageIndex][a.slotIdx := slots[a.pageIndex][a.slotIdx].(deleted := true)]
      modifies this
      ensures Valid() && |pages| == |old(pages)| && cells == old(cells)[a := old(cells)[a].(deleted := true)]
    {
      label before:
      assert CellAt(a);
      pages, slots, cells := pages[a.pageIndex := page.raw[..]], slots[a.pageIndex := page.slots],
        cells[a := cells[a].(deleted := true)];
      forall p | 1 <= p < |pages| ensures PageOk(p) {
        assert p != a.pageIndex ==> old@before(PageOk(p));
      }
      forall x ensures x in cells <==> HasSlot(x) {
        assert x in old(cells) <==> old@before(HasSlot(x));
      }
      forall x | x in cells ensures CellAt(x) {
        assert old@before(CellAt(x));
      }
    }

    /** The record written to an address, unless it has been deleted. */
    method ReadRecord(a: RecordAddress, width: nat, known: set<nat>) returns (r: Reading)
      requires Valid() && a.pageIndex >= DATA_PAGE_WITH
      ensures a !in cells || cells[a].deleted ==> r == Absent
      ensures a in cells && !cells[a].deleted && |cells[a].fields| == width && AllKnown(cells[a].fields, known) ==>
        r == Found(cells[a].id, cells[a].fields)
    {
      assert a in cells <==> HasSlot(a);
      if a.pageIndex >= |pages| {
        return Absent;
      }
      var page := LoadPage(a.pageIndex);
      r := page.ReadRecord(a.slotIdx, width, known);
      if a in cells {
        assert CellAt(a);
        var c := cells[a];
        if !c.deleted && |c.fields| == width && AllKnown(c.fields, known) {
          if r.Found? { RoundTrip(r.fields, c.fields); }
        }
      }
    }
  }

  /** Rows of at most 814 columns always fit a page, and some row of 815 does not. */
  lemma RowsFit(fields: seq<Value>)
    ensures |fields| <= 814 ==> SizeOf(fields) <= MAX_RECORD_SIZE
    ensures |fields| == 815 && (forall i :: 0 <= i < |fields| ==> !fields[i].Null?) ==> SizeOf(fields) > MAX_RECORD_SIZE
  {
    SizeBounds(fields);
    if forall i :: 0 <= i < |fields| ==> !fields[i].Null? { FullSize(fields); }
  }

  lemma {:induction false} FullSize(fields: seq<Value>)
    requires forall i :: 0 <= i < |fields| ==> !fields[i].Null?
    ensures SizeOf(fields) == 5 * |fields|
    decreases |fields|
  {
    if fields != [] { FullSize(fields[..|fields| - 1]); }
  }
}
