/** In-memory copies of node pages: fixed arrays that are shifted in place and written back. */
module Node {
  import opened LeafRun
  import opened TreeSpec
  import opened Pages

  /** `std::move_backward`: `a[first..last]` ends up just before `dest`. */
  method MoveBackward<T>(a: array<T>, first: nat, last: nat, dest: nat)
    requires first <= last <= dest <= a.Length
    modifies a
    ensures a[dest - (last - first)..dest] == old(a[first..last])
    ensures a[..dest - (last - first)] == old(a[..dest - (last - first)])
    ensures a[dest..] == old(a[dest..])
  {
    var n := last;
    while n > first
      invariant first <= n <= last
      invariant forall i :: 0 <= i < n + (dest - last) ==> a[i] == old(a[i])
      invariant forall i :: n + (dest - last) <= i < dest ==> a[i] == old(a[i - (dest - last)])
      invariant forall i :: dest <= i < a.Length ==> a[i] == old(a[i])
    {
      n := n - 1;
      a[n + (dest - last)] := a[n];
    }
  }

  /** `std::move` within one array: `a[first..last]` ends up from `dest` on. */
  method MoveForward<T>(a: array<T>, first: nat, last: nat, dest: nat)
    requires dest <= first <= last <= a.Length
    modifies a
    ensures a[..dest] == old(a[..dest])
    ensures a[dest..dest + (last - first)] == old(a[first..last])
  {
    var n := first;
    while n < last
      invariant first <= n <= last
      invariant forall i :: 0 <= i < dest ==> a[i] == old(a[i])
      invariant forall i :: dest <= i < n - (first - dest) ==> a[i] == old(a[i + (first - dest)])
      invariant forall i :: n - (first - dest) <= i < a.Length ==> a[i] == old(a[i])
    {
      a[n - (first - dest)] := a[n];
      n := n + 1;
    }
  }

  /** `std::move` between two arrays. */
  method MoveAcross<T>(src: array<T>, first: nat, last: nat, dst: array<T>, dest: nat)
    requires src != dst && first <= last <= src.Length && dest + (last - first) <= dst.Length
    modifies dst
    ensures dst[..dest] == old(dst[..dest])
    ensures dst[dest..dest + (last - first)] == src[first..last]
    ensures dst[dest + (last - first)..] == old(dst[dest + (last - first)..])
  {
    var n := first;
    while n < last
      invariant first <= n <= last
      invariant forall i :: 0 <= i < dest ==> dst[i] == old(dst[i])
      invariant forall i :: dest <= i < dest + (n - first) ==> dst[i] == src[first + (i - dest)]
      invariant forall i :: dest + (n - first) <= i < dst.Length ==> dst[i] == old(dst[i])
    {
      dst[dest + (n - first)] := src[n];
      n := n + 1;
    }
  }

  /** Room for one element is made at `index` and filled. */
  method PutAt<T>(a: array<T>, size: nat, index: nat, x: T)
    requires index <= size < a.Length
    modifies a
    ensures a[..size + 1] == old(a[..size])[..index] + [x] + old(a[..size])[index..]
  {
    ghost var live := a[..size];
    MoveBackward(a, index, size, size + 1);
    assert a[index + 1..size + 1] == live[index..];
    a[index] := x;
    assert a[..index] == live[..index] && a[index + 1..size + 1] == live[index..];
  }

  /** The element at `index` is shifted over. */
  method CloseGap<T>(a: array<T>, size: nat, index: nat)
    requires index < size <= a.Length
    modifies a
    ensures a[..size - 1] == old(a[..size])[..index] + old(a[..size])[index + 1..]
  {
    ghost var live := a[..size];
    MoveForward(a, index + 1, size, index);
    assert a[..index] == live[..index] && a[index..size - 1] == live[index + 1..];
    assert a[..size - 1] == a[..index] + a[index..size - 1];
  }

  /** The room already made at the front of `dst` is filled from the end of `src`. */
  method FillFront<T>(src: array<T>, live: nat, count: nat, dst: array<T>, size: nat)
    requires src != dst && count <= live <= src.Length && count <= size <= dst.Length
    modifies dst
    ensures dst[..size] == src[..live][live - count..] + old(dst[count..size])
  {
    MoveAcross(src, live - count, live, dst, 0);
    assert dst[..count] == src[..live][live - count..];
    assert dst[..size] == dst[..count] + dst[count..size];
  }

  /** What follows the live part of `dst` is filled from the front of `src`. */
  method FillBack<T>(src: array<T>, live: nat, count: nat, dst: array<T>, size: nat)
    requires src != dst && count <= live <= src.Length && size + count <= dst.Length
    modifies dst
    ensures dst[..size + count] == old(dst[..size]) + src[..live][..count]
  {
    MoveAcross(src, 0, count, dst, size);
    assert dst[size..size + count] == src[..live][..count];
    assert dst[..size + count] == dst[..size] + dst[size..size + count];
  }

  /** One page in memory. Whether it is a leaf, and which page it is, never changes. The
      ghost fields are the live part of its arrays. */
  class Node {
    const caps: Caps
    const pager: Pager
    const isLeaf: bool
    const nodeId: int
    var keysSize: int
    var deleted: bool
    var nextLeaf: int
    const keys: array<int>
    const values: array<RecordAddress>
    const children: array<int>
    ghost var run: Run
    ghost var seps: seq<int>
    ghost var kids: seq<int>

    ghost predicate Valid()
      reads this, keys, values, children
    {
      && keys != children && 0 <= keysSize <= keys.Length
      && (isLeaf ==> keys.Length == caps.phys && values.Length == caps.phys && keysSize == Size(run))
      && (!isLeaf ==>
          keys.Length == caps.physInner && children.Length == caps.physInner + 1 &&
          keysSize == |seps| && |kids| == keysSize + 1)
      && Mirrors()
    }

    ghost predicate Mirrors()
      requires 0 <= keysSize <= keys.Length
      requires if isLeaf then keysSize <= values.Length else keysSize < children.Length
      reads this, keys, values, children
    {
      if isLeaf then run.keys == keys[..keysSize] && run.vals == values[..keysSize]
      else seps == keys[..keysSize] && kids == children[..keysSize + 1]
    }

    function Snapshot(): Page
      reads this, keys, values, children
    {
      if isLeaf then LeafPage(nodeId, keysSize, deleted, nextLeaf, keys[..], values[..])
      else InnerPage(nodeId, keysSize, deleted, keys[..], children[..])
    }

    /** The page of this node holds what the copy holds. */
    ghost predicate Saved()
      reads this, pager
    {
      if isLeaf then HoldsLeaf(caps, pager.pages, nodeId, run, nextLeaf)
      else HoldsInner(caps, pager.pages, nodeId, seps, kids)
    }

    /** A valid copy of a page in use. */
    ghost predicate Live()
      reads this, keys, values, children, pager
    {
      Valid() && !deleted && Saved()
    }

    predicate CanLend(oneOfTwoRootChildren: bool)
      reads this
    {
      if oneOfTwoRootChildren then keysSize > (if isLeaf then caps.HalfMax() else caps.MaxInner() / 2)
      else keysSize > (if isLeaf then caps.Min() else (2 * caps.physInner - 1) / 3)
    }

    predicate CanTake()
      reads this
    {
      keysSize < if isLeaf then caps.Max() else caps.MaxInner()
    }

    predicate Underflow()
      reads this
    {
      keysSize < if isLeaf then caps.Min() else (2 * caps.physInner - 1) / 3
    }

    predicate Overflow()
      reads this
    {
      keysSize > if isLeaf then caps.Max() else caps.MaxInner()
    }

    /** A new node takes the first deleted page, or a fresh one when none is deleted. Its
        arrays start with whatever the page held. */
    constructor Create(leaf: bool, c: Caps, pager: Pager)
      requires |pager.pages| > 0
      requires forall i :: 1 <= i < |pager.pages| ==> NodePageAt(c, pager.pages[i], i)
      modifies pager
      ensures fresh(keys) && fresh(values) && fresh(children) && this.pager == pager && caps == c
      ensures Live() && isLeaf == leaf && keysSize == 0 && (leaf ==> nextLeaf == -1)
      ensures 1 <= nodeId <= |old(pager.pages)|
      ensures SameBut(old(pager.pages), pager.pages, {nodeId})
      ensures nodeId < |old(pager.pages)| ==> IsDeleted(old(pager.pages)[nodeId])
      ensures forall i :: 1 <= i < nodeId ==> !IsDeleted(old(pager.pages)[i])
    {
      var i := 1;
      var deletedFound := false;
      while i < |pager.pages| && !deletedFound
        invariant 1 <= i <= |pager.pages|
        invariant pager.pages == old(pager.pages)
        invariant deletedFound ==> i < |pager.pages| && IsDeleted(pager.pages[i])
        invariant forall j :: 1 <= j < i ==> !IsDeleted(pager.pages[j])
        decreases |pager.pages| - i, if deletedFound then 0 else 1
      {
        var page := pager.ReadPage(i);
        if IsDeleted(page) {
          deletedFound := true;
        } else {
          i := i + 1;
        }
      }
      var id := i;
      if !deletedFound {
        id := pager.AppendNewPage();
      }
      this.caps := c;
      this.pager := pager;
      nodeId := id;
      isLeaf := leaf;
      keysSize := 0;
      deleted := false;
      nextLeaf := -1;
      keys := new int[if leaf then c.phys else c.physInner];
      values := new RecordAddress[if leaf then c.phys else 0];
      children := new int[if leaf then 0 else c.physInner + 1];
      new;
      run, seps, kids := RawRun([], []), [], children[..if isLeaf then 0 else 1];
      SaveToDisk();
    }

    /** Reading an existing node; the checks on the header, the id and the deleted flag are
        the precondition. */
    constructor Load(id: int, c: Caps, pager: Pager)
      requires 0 <= id < |pager.pages| && NodePageAt(c, pager.pages[id], id) && !pager.pages[id].deleted
      ensures fresh(keys) && fresh(values) && fresh(children) && this.pager == pager && caps == c
      ensures Live() && nodeId == id && isLeaf == pager.pages[id].LeafPage?
    {
      var page := pager.ReadPage(id);
      this.caps := c;
      this.pager := pager;
      nodeId := page.nodeId;
      isLeaf := page.LeafPage?;
      keysSize := page.keysSize;
      deleted := page.deleted;
      nextLeaf := if page.LeafPage? then page.nextLeaf else -1;
      keys := new int[|page.keys|](k requires 0 <= k < |page.keys| => page.keys[k]);
      var vals := if page.LeafPage? then page.values else [];
      values := new RecordAddress[|vals|](k requires 0 <= k < |vals| => vals[k]);
      var chs := if page.LeafPage? then [] else page.children;
      children := new int[|chs|](k requires 0 <= k < |chs| => chs[k]);
      run := if page.LeafPage? then RawRun(page.keys[..page.keysSize], vals[..page.keysSize]) else RawRun([], []);
      seps := page.keys[..page.keysSize];
      kids := if page.LeafPage? then [] else chs[..page.keysSize + 1];
      new;
      assert keys[..] == page.keys && values[..] == vals && children[..] == chs;
      assert keys[..keysSize] == keys[..][..keysSize];
      assert isLeaf ==> values[..keysSize] == values[..][..keysSize];
      assert !isLeaf ==> children[..keysSize + 1] == children[..][..keysSize + 1];
    }

    method SaveToDisk()
      requires Valid() && !deleted && 0 <= nodeId < |pager.pages|
      modifies pager
      ensures Wrote(old(pager.pages), pager.pages, {nodeId}) && Saved()
    {
      pager.WritePage(nodeId, Snapshot());
      assert keys[..keysSize] == keys[..][..keysSize];
      assert isLeaf ==> values[..keysSize] == values[..][..keysSize];
      assert !isLeaf ==> children[..keysSize + 1] == children[..][..keysSize + 1];
    }

    method SetNext(next: int)
      requires Live() && isLeaf
      modifies this, pager
      ensures Live() && nextLeaf == next && run == old(run) && keysSize == old(keysSize)
      ensures Wrote(old(pager.pages), pager.pages, {nodeId})
    {
      nextLeaf := next;
      SaveToDisk();
    }

    method MarkDeleted()
      requires Valid() && 0 <= nodeId < |pager.pages|
      modifies `deleted, pager
      ensures deleted && Valid() && Wrote(old(pager.pages), pager.pages, {nodeId})
      ensures NodePageAt(caps, pager.pages[nodeId], nodeId) && IsDeleted(pager.pages[nodeId])
    {
      deleted := true;
      pager.WritePage(nodeId, Snapshot());
    }

    // Leaves.

    method MoveRightLeaf(count: nat)
      requires Valid() && isLeaf && keysSize + count <= caps.Max()
      modifies `keysSize, keys, values
      ensures keysSize == old(keysSize) + count
      ensures keys[count..keysSize] == run.keys && values[count..keysSize] == run.vals
    {
      MoveBackward(keys, 0, keysSize, keysSize + count);
      MoveBackward(values, 0, keysSize, keysSize + count);
      keysSize := keysSize + count;
    }

    /** The returned key is the one at position `count` of the old array, which is the first
        remaining key only when something remains. */
    method MoveLeftLeaf(count: nat) returns (newMidKey: int)
      requires Valid() && isLeaf && count <= keysSize && count < caps.phys
      modifies `keysSize, keys, values, `run
      ensures Valid() && run == Drop(old(run), count)
      ensures count < old(keysSize) ==> newMidKey == First(run)
    {
      newMidKey := keys[count];
      if count == 0 {
        assert Drop(run, 0) == run;
        return;
      }
      MoveForward(keys, count, keysSize, 0);
      MoveForward(values, count, keysSize, 0);
      keysSize := keysSize - count;
      run := Drop(run, count);
    }

    /** The half of a transfer to the right that changes the receiving node. */
    method PrependFrom(left: Node, count: nat)
      requires Valid() && isLeaf && left.Valid() && left.isLeaf && Apart(left, this)
      requires count <= left.keysSize && keysSize + count <= caps.Max()
      modifies `keysSize, keys, values, `run
      ensures Valid() && run == Cat(Drop(left.run, left.keysSize - count), old(run))
    {
      hide Cat, Drop;
      ghost var sent := Drop(left.run, left.keysSize - count);
      DropParts(left.run, left.keysSize - count);
      MoveRightLeaf(count);
      FillFront(left.keys, left.keysSize, count, keys, keysSize);
      assert keys[..keysSize] == sent.keys + run.keys;
      FillFront(left.values, left.keysSize, count, values, keysSize);
      assert values[..keysSize] == sent.vals + run.vals;
      CatParts(sent, run);
      run := Cat(sent, run);
    }

    lemma DropParts(r: Run, n: nat)
      requires n <= Size(r)
      ensures Drop(r, n).keys == r.keys[n..] && Drop(r, n).vals == r.vals[n..]
    {
    }

    lemma CatParts(a: Run, b: Run)
      ensures Cat(a, b).keys == a.keys + b.keys && Cat(a, b).vals == a.vals + b.vals
    {
    }

    method AppendFrom(right: Node, count: nat)
      requires Valid() && isLeaf && right.Valid() && right.isLeaf && Apart(this, right)
      requires count <= right.keysSize && keysSize + count <= caps.Max()
      modifies `keysSize, keys, values, `run
      ensures Valid() && run == Cat(old(run), Take(right.run, count))
    {
      FillBack(right.keys, right.keysSize, count, keys, keysSize);
      FillBack(right.values, right.keysSize, count, values, keysSize);
      keysSize := keysSize + count;
      run := Cat(run, Take(right.run, count));
    }

    method DropTail(count: nat)
      requires Valid() && isLeaf && count <= keysSize
      modifies `keysSize, `run
      ensures Valid() && run == Take(old(run), old(keysSize) - count)
    {
      run := Take(run, keysSize - count);
      keysSize := keysSize - count;
    }

    method SendToRightLeaf(right: Node, count: nat) returns (midKey: int)
      requires Live() && right.Live() && isLeaf && right.isLeaf && Apart(this, right)
      requires right.pager == pager && right.caps == caps && caps.phys > 0
      requires count <= keysSize && right.keysSize + count <= caps.Max()
      modifies this, right, right.keys, right.values, pager
      ensures nextLeaf == old(nextLeaf) && right.nextLeaf == old(right.nextLeaf)
      ensures Live() && right.Live() && Wrote(old(pager.pages), pager.pages, {nodeId, right.nodeId})
      ensures run == Take(old(run), old(keysSize) - count)
      ensures right.run == Cat(Drop(old(run), old(keysSize) - count), old(right.run))
      ensures right.keysSize > 0 ==> midKey == First(right.run)
    {
      hide Cat, Take, Drop, Mirrors, HoldsLeaf, HoldsInner, First;
      OnPage();
      right.OnPage();
      right.PrependFrom(this, count);
      DropTail(count);
      SaveBoth(right);
      right.FirstKey();
      midKey := right.keys[0];
    }

    /** Both nodes are written, the right one first. */
    method SaveBoth(right: Node)
      requires Valid() && !deleted && isLeaf && 0 <= nodeId < |pager.pages|
      requires right.Valid() && !right.deleted && right.isLeaf && 0 <= right.nodeId < |pager.pages|
      requires Apart(this, right) && right.pager == pager && right.caps == caps
      modifies pager
      ensures Live() && right.Live() && Wrote(old(pager.pages), pager.pages, {nodeId, right.nodeId})
    {
      hide Mirrors, HoldsLeaf, HoldsInner;
      right.SaveToDisk();
      ghost var p := pager.pages;
      SaveToDisk();
      LeafKept(caps, p, pager.pages, {nodeId}, right.nodeId, right.run, right.nextLeaf);
    }

    lemma OnPage()
      requires Saved()
      ensures 0 <= nodeId < |pager.pages|
    {
    }

    lemma FirstKey()
      requires Valid() && isLeaf && keys.Length > 0
      ensures keysSize > 0 ==> keys[0] == First(run)
    {
    }

    method TakeFromRightLeaf(right: Node, count: nat) returns (newMidKey: int)
      requires Live() && right.Live() && isLeaf && right.isLeaf && Apart(this, right)
      requires right.pager == pager && right.caps == caps
      requires count <= right.keysSize && count < caps.phys && keysSize + count <= caps.Max()
      modifies this, keys, values, right, right.keys, right.values, pager
      ensures nextLeaf == old(nextLeaf) && right.nextLeaf == old(right.nextLeaf)
      ensures Live() && right.Live() && Wrote(old(pager.pages), pager.pages, {nodeId, right.nodeId})
      ensures run == Cat(old(run), Take(old(right.run), count))
      ensures right.run == Drop(old(right.run), count)
      ensures count < old(right.keysSize) ==> newMidKey == First(right.run)
    {
      hide Cat, Take, Drop, Mirrors, HoldsLeaf, HoldsInner, First;
      OnPage();
      right.OnPage();
      AppendFrom(right, count);
      newMidKey := right.MoveLeftLeaf(count);
      SaveBoth(right);
    }

    method InsertInLeaf(key: int, value: RecordAddress)
      requires Live() && isLeaf && keysSize < caps.phys
      modifies this, keys, values, pager
      ensures nextLeaf == old(nextLeaf)
      ensures Live() && run == Inserted(old(run), key, value) && Wrote(old(pager.pages), pager.pages, {nodeId})
    {
      hide HoldsLeaf, HoldsInner, InsertAt;
      OnPage();
      var index := LowerBound(keys[..keysSize], key);
      PutPair(index, key, value);
      SaveToDisk();
    }

    method PutPair(index: nat, key: int, value: RecordAddress)
      requires Valid() && isLeaf && index <= keysSize < caps.phys
      modifies `keysSize, `run, keys, values
      ensures Valid() && run == InsertAt(old(run), index, key, value)
    {
      PutAt(keys, keysSize, index, key);
      PutAt(values, keysSize, index, value);
      keysSize := keysSize + 1;
      run := InsertAt(run, index, key, value);
    }

    method RemoveFromLeaf(key: int) returns (removed: bool)
      requires Live() && isLeaf
      modifies this, keys, values, pager
      ensures nextLeaf == old(nextLeaf)
      ensures Live() && run == Without(old(run), key) && Wrote(old(pager.pages), pager.pages, {nodeId})
      ensures removed <==> run != old(run)
      ensures removed ==> keysSize == old(keysSize) - 1
      ensures !removed ==> pager.pages == old(pager.pages)
    {
      var index := LowerBound(keys[..keysSize], key);
      if index >= keysSize || keys[index] != key {
        return false;
      }
      RemoveFromLeafByIdx(index);
      return true;
    }

    method RemoveFromLeafByIdx(idx: nat)
      requires Live() && isLeaf && idx < keysSize
      modifies this, keys, values, pager
      ensures nextLeaf == old(nextLeaf)
      ensures Live() && run == RemoveAt(old(run), idx) && keysSize == old(keysSize) - 1
      ensures Wrote(old(pager.pages), pager.pages, {nodeId})
    {
      hide HoldsLeaf, HoldsInner, RemoveAt;
      OnPage();
      CutPair(idx);
      SaveToDisk();
    }

    method CutPair(idx: nat)
      requires Valid() && isLeaf && idx < keysSize
      modifies `keysSize, `run, keys, values
      ensures Valid() && run == RemoveAt(old(run), idx) && keysSize == old(keysSize) - 1
    {
      CloseGap(keys, keysSize, idx);
      CloseGap(values, keysSize, idx);
      keysSize := keysSize - 1;
      run := RemoveAt(run, idx);
    }

    method UpdateValue(key: int, value: RecordAddress) returns (updated: bool)
      requires Live() && isLeaf
      modifies this, values, pager
      ensures nextLeaf == old(nextLeaf)
      ensures Live() && run == Revised(old(run), key, value) && Wrote(old(pager.pages), pager.pages, {nodeId})
      ensures updated <==> HasAt(old(run), key)
    {
      var index := LowerBound(keys[..keysSize], key);
      if index >= keysSize || keys[index] != key {
        return false;
      }
      UpdateValueByIdx(index, value);
      return true;
    }

    method UpdateValueByIdx(idx: nat, value: RecordAddress)
      requires Live() && isLeaf && idx < keysSize
      modifies this, values, pager
      ensures nextLeaf == old(nextLeaf)
      ensures Live() && run == RawRun(old(run).keys, old(run).vals[idx := value])
      ensures Wrote(old(pager.pages), pager.pages, {nodeId})
    {
      values[idx] := value;
      run := RawRun(run.keys, run.vals[idx := value]);
      SaveToDisk();
    }

    // Inner nodes.

    method SetKey(key: int, idx: nat)
      requires Live() && !isLeaf && idx < keysSize
      modifies this, keys, pager
      ensures kids == old(kids) && keysSize == old(keysSize)
      ensures Live() && seps == old(seps)[idx := key] && Wrote(old(pager.pages), pager.pages, {nodeId})
    {
      keys[idx] := key;
      seps := seps[idx := key];
      SaveToDisk();
    }

    method PushBackToInternal(childId: int)
      requires Live() && !isLeaf && keysSize == 0
      modifies this, children, pager
      ensures keysSize == 0
      ensures Live() && kids == [childId] && Wrote(old(pager.pages), pager.pages, {nodeId})
    {
      children[0] := childId;
      kids := [childId];
      SaveToDisk();
    }

    method InsertInInternal(key: int, rightChildId: int)
      requires Live() && !isLeaf && keysSize < caps.physInner
      modifies this, keys, children, pager
      ensures Live() && Wrote(old(pager.pages), pager.pages, {nodeId})
      ensures var i := LowerBound(old(seps), key);
        && seps == old(seps)[..i] + [key] + old(seps)[i..]
        && kids == old(kids)[..i + 1] + [rightChildId] + old(kids)[i + 1..]
    {
      var index := LowerBound(keys[..keysSize], key);
      PutSeparator(index, key, rightChildId);
      SaveToDisk();
    }

    method PutSeparator(index: nat, key: int, rightChildId: int)
      requires Valid() && !isLeaf && index <= keysSize < caps.physInner
      modifies `keysSize, `seps, `kids, keys, children
      ensures Valid()
      ensures seps == old(seps)[..index] + [key] + old(seps)[index..]
      ensures kids == old(kids)[..index + 1] + [rightChildId] + old(kids)[index + 1..]
    {
      PutAt(keys, keysSize, index, key);
      PutAt(children, keysSize + 1, index + 1, rightChildId);
      keysSize := keysSize + 1;
      seps := seps[..index] + [key] + seps[index..];
      kids := kids[..index + 1] + [rightChildId] + kids[index + 1..];
    }

    method RemoveFromInternal(keyIdx: nat)
      requires Live() && !isLeaf && keyIdx < keysSize
      modifies this, keys, children, pager
      ensures Live() && Wrote(old(pager.pages), pager.pages, {nodeId})
      ensures seps == old(seps)[..keyIdx] + old(seps)[keyIdx + 1..]
      ensures kids == old(kids)[..keyIdx + 1] + old(kids)[keyIdx + 2..]
    {
      hide HoldsLeaf, HoldsInner;
      OnPage();
      CutSeparator(keyIdx);
      SaveToDisk();
    }

    method CutSeparator(keyIdx: nat)
      requires Valid() && !isLeaf && keyIdx < keysSize
      modifies `keysSize, `seps, `kids, keys, children
      ensures Valid()
      ensures seps == old(seps)[..keyIdx] + old(seps)[keyIdx + 1..]
      ensures kids == old(kids)[..keyIdx + 1] + old(kids)[keyIdx + 2..]
    {
      CloseGap(keys, keysSize, keyIdx);
      CloseGap(children, keysSize + 1, keyIdx + 1);
      keysSize := keysSize - 1;
      seps := seps[..keyIdx] + seps[keyIdx + 1..];
      kids := kids[..keyIdx + 1] + kids[keyIdx + 2..];
    }
  }

  /** Two copies of different pages that share no memory. */
  ghost predicate Apart(a: Node, b: Node) {
    && a != b && a.nodeId != b.nodeId
    && a.keys != b.keys && a.values != b.values && a.children != b.children
    && a.keys != b.children && a.children != b.keys
  }
}
