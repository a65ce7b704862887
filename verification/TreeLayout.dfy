/** Page-level effect of each rebalancing step: if the pages of a window and the root hold
    the step's result and all other pages are untouched, the file stores the new tree. */
module TreeLayout {
  import opened Bytes
  import opened LeafRun
  import opened TreeSpec
  import opened TreeProofs
  import opened Pages
  import opened TreePages

  /** The pages of the window from `at` on hold the leaves of `u`, chained as in `order`. */
  ghost predicate WindowHolds(c: Caps, q: seq<Page>, u: Tree, order: seq<int>, at: nat, k: nat)
    requires at + k <= |order| == |u.leaves|
  {
    forall j :: at <= j < at + k ==> LeafAt(c, q, u.leaves, order, j)
  }

  /** Page ids of a stored tree are not the metadata page, and leaves are not the root. */
  lemma IdsOf(c: Caps, p: seq<Page>, rootId: int, firstId: int, t: Tree, order: seq<int>, i: nat)
    requires Stored(c, p, rootId, firstId, t, order) && i < |order|
    ensures 1 <= order[i] < |p| && order[i] in order
    ensures |order| >= 2 ==> order[i] != rootId && 1 <= rootId < |p|
  {
    assert LeafAt(c, p, t.leaves, order, i);
  }

  /** Rewriting pages in use leaves every page accounted for. */
  lemma ConservedSameOrder(c: Caps, p: seq<Page>, q: seq<Page>, rootId: int, u: Tree,
                           order: seq<int>, touched: set<int>)
    requires PagesConserved(c, p, rootId, order) && SameBut(p, q, touched) && |p| == |q|
    requires ChainStored(c, q, u.leaves, order)
    requires forall x :: x in touched ==> x in order || (x == rootId && HoldsInner(c, q, rootId, u.seps, order))
    ensures PagesConserved(c, q, rootId, order)
  {
    forall x | 1 <= x < |q| ensures ConservedAt(c, q, rootId, order, x) {
      assert ConservedAt(c, p, rootId, order, x);
      if x in touched && x in order {
        var i :| 0 <= i < |order| && order[i] == x;
        assert LeafAt(c, q, u.leaves, order, i);
      }
    }
  }

  /** Replacing the leaves of a window one for one. */
  lemma SameOrderStored(c: Caps, p: seq<Page>, q: seq<Page>, rootId: int, firstId: int, t: Tree, u: Tree,
                        order: seq<int>, at: nat, m: nat, touched: set<int>)
    requires Stored(c, p, rootId, firstId, t, order) && 0 < m && at + m <= |order| == |u.leaves|
    requires forall i :: 0 <= i < |order| && !(at <= i < at + m) ==> u.leaves[i] == t.leaves[i]
    requires WindowHolds(c, q, u, order, at, m)
    requires SameBut(p, q, touched) && |p| == |q|
    requires forall x :: x in touched ==> x == rootId || exists i :: at <= i < at + m && x == order[i]
    requires |order| == 1 ==> u.seps == t.seps
    requires |order| >= 2 ==> HoldsInner(c, q, rootId, u.seps, order)
    ensures Stored(c, q, rootId, firstId, u, order)
  {
    forall i | 0 <= i < |order| && !(at <= i < at + m)
      ensures 0 <= order[i] < |p| && order[i] < |q| && q[order[i]] == p[order[i]]
    {
      IdsOf(c, p, rootId, firstId, t, order, i);
      assert order[i] !in touched;
    }
    ChainWindow(c, p, q, t.leaves, order, u.leaves, order, at, m, u.leaves[at..at + m], order[at..at + m]);
    IdsOf(c, p, rootId, firstId, t, order, at);
    forall x | x in touched ensures x >= 1 && (x in order || (x == rootId && HoldsInner(c, q, rootId, u.seps, order))) {
      if x != rootId {
        var i :| at <= i < at + m && x == order[i];
        IdsOf(c, p, rootId, firstId, t, order, i);
      }
    }
    ConservedSameOrder(c, p, q, rootId, u, order, touched);
    assert 0 !in touched;
  }

  lemma EvenStored(c: Caps, p: seq<Page>, q: seq<Page>, rootId: int, firstId: int, t: Tree,
                   order: seq<int>, at: nat, s1: nat)
    requires Stored(c, p, rootId, firstId, t, order) && at + 1 < |order|
    requires SameBut(p, q, {order[at], order[at + 1], rootId}) && |p| == |q|
    requires IsHalf(Size(t.leaves[at]) + Size(t.leaves[at + 1]), s1)
    requires var all := Cat(t.leaves[at], t.leaves[at + 1]);
      && HoldsLeaf(c, q, order[at], Take(all, s1), NextId(order, at))
      && HoldsLeaf(c, q, order[at + 1], Drop(all, s1), NextId(order, at + 1))
      && HoldsInner(c, q, rootId, if Size(t.leaves[at]) == s1 then t.seps
                    else t.seps[at := First(Drop(all, s1))], order)
    ensures Stored(c, q, rootId, firstId, Even2(t, at), order)
  {
    hide Even2, HoldsLeaf, HoldsInner, Take, Drop, NextId, First;
    var u := Even2(t, at);
    Even2Entries(t, at);
    assert LeafAt(c, q, u.leaves, order, at) && LeafAt(c, q, u.leaves, order, at + 1);
    assert s1 == Size(Cat(t.leaves[at], t.leaves[at + 1])) / 2;
    SameOrderStored(c, p, q, rootId, firstId, t, u, order, at, 2, {order[at], order[at + 1], rootId});
  }

  lemma Even2Entries(t: Tree, at: nat)
    requires at + 1 < |t.leaves|
    ensures var all := Cat(t.leaves[at], t.leaves[at + 1]); var s1 := Size(all) / 2; var u := Even2(t, at);
      && |u.leaves| == |t.leaves|
      && u.leaves[at] == Take(all, s1) && u.leaves[at + 1] == Drop(all, s1)
      && (forall i :: 0 <= i < |t.leaves| && i != at && i != at + 1 ==> u.leaves[i] == t.leaves[i])
      && u.seps == if Size(t.leaves[at]) == s1 then t.seps else t.seps[at := First(Drop(all, s1))]
  {
    JoinedSizes(t, at, 2);
  }

  /** Accounting for pages whose use changes. */
  lemma ConservedAfter(c: Caps, p: seq<Page>, q: seq<Page>, rootId: int, rootId': int,
                       order: seq<int>, order': seq<int>, touched: set<int>)
    requires PagesConserved(c, p, rootId, order) && SameBut(p, q, touched) && Distinct(order')
    requires forall x :: 1 <= x < |q| && x in touched ==> ConservedAt(c, q, rootId', order', x)
    requires forall x :: 1 <= x < |p| && x !in touched ==>
      ((x == rootId || x in order) <==> (x == rootId' || x in order'))
    ensures PagesConserved(c, q, rootId', order')
  {
    forall x | 1 <= x < |q| ensures ConservedAt(c, q, rootId', order', x) {
      if x !in touched { assert ConservedAt(c, p, rootId, order, x); }
    }
  }

  /** Leaves outside the window are on pages the step does not touch. */
  lemma OutsideUntouched(c: Caps, p: seq<Page>, q: seq<Page>, rootId: int, firstId: int, t: Tree, order: seq<int>,
                         at: nat, m: nat, touched: set<int>)
    requires Stored(c, p, rootId, firstId, t, order) && at + m <= |order|
    requires SameBut(p, q, touched)
    requires forall i :: 0 <= i < |order| && !(at <= i < at + m) ==> order[i] !in touched
    ensures forall i :: 0 <= i < |order| && !(at <= i < at + m) ==>
      0 <= order[i] < |p| && order[i] < |q| && q[order[i]] == p[order[i]]
  {
    forall i | 0 <= i < |order| && !(at <= i < at + m)
      ensures 0 <= order[i] < |p| && order[i] < |q| && q[order[i]] == p[order[i]]
    {
      IdsOf(c, p, rootId, firstId, t, order, i);
    }
  }

  // Shapes of the recut trees.

  lemma RecutSpliced(t: Tree, at: nat, m: nat, pieces: seq<Run>)
    requires 0 < m && at + m <= |t.leaves| && 0 < |pieces|
    ensures Spliced(Recut(t, at, m, pieces).leaves, t.leaves, at, m, pieces)
  {
    SpliceIs(t.leaves, at, m, pieces);
  }

  lemma RecutSeps3(t: Tree, at: nat, m: nat, a: Run, b: Run, d: Run)
    requires 0 < m && at + m <= |t.leaves|
    ensures Recut(t, at, m, [a, b, d]).seps == t.seps[..at] + [First(b), First(d)] + t.seps[at + m - 1..]
  {
    assert [a, b, d][1..] == [b, d];
    assert FirstKeys([b, d]) == [First(b), First(d)];
  }

  lemma RecutSeps2(t: Tree, at: nat, m: nat, a: Run, b: Run)
    requires 0 < m && at + m <= |t.leaves|
    ensures Recut(t, at, m, [a, b]).seps == t.seps[..at] + [First(b)] + t.seps[at + m - 1..]
  {
    assert [a, b][1..] == [b];
    assert FirstKeys([b]) == [First(b)];
  }

  lemma TwoUpdates(s: seq<int>, at: nat, x: int, y: int)
    requires at + 1 < |s|
    ensures s[..at] + [x, y] + s[at + 2..] == s[at := x][at + 1 := y]
  {
  }

  /** The three leaves a `Thirds` step makes. */
  function Third(all: Run, j: nat): Run
    requires j < 3
  {
    var s1 := Size(all) / 3;
    Cut3(all, s1, (Size(all) - s1) / 2)[j]
  }

  lemma ThirdIs(all: Run, s1: nat, s2: nat)
    requires s1 == Size(all) / 3 && s2 == (Size(all) - s1) / 2
    ensures Third(all, 0) == Take(all, s1)
    ensures Third(all, 1) == Take(Drop(all, s1), s2)
    ensures Third(all, 2) == Drop(Drop(all, s1), s2)
  {
  }

  lemma ThirdsEntries(t: Tree, at: nat, m: nat)
    requires 2 <= m <= 3 && at + m <= |t.leaves|
    ensures var all := Joined(t, at, m); var u := Thirds(t, at, m);
      && |u.leaves| == |t.leaves| + 3 - m
      && u.leaves[at] == Third(all, 0) && u.leaves[at + 1] == Third(all, 1) && u.leaves[at + 2] == Third(all, 2)
      && Spliced(u.leaves, t.leaves, at, m, [Third(all, 0), Third(all, 1), Third(all, 2)])
      && u.seps == t.seps[..at] + [First(Third(all, 1)), First(Third(all, 2))] + t.seps[at + m - 1..]
  {
    var all := Joined(t, at, m);
    var a, b, d := Third(all, 0), Third(all, 1), Third(all, 2);
    assert Thirds(t, at, m) == Recut(t, at, m, [a, b, d]);
    RecutSpliced(t, at, m, [a, b, d]);
    RecutSeps3(t, at, m, a, b, d);
    var u := Thirds(t, at, m);
    assert u.leaves[at + 0] == [a, b, d][0] && u.leaves[at + 1] == [a, b, d][1] && u.leaves[at + 2] == [a, b, d][2];
  }

  lemma HalvesEntries(t: Tree, at: nat, m: nat)
    requires 0 < m && at + m <= |t.leaves|
    ensures var all := Joined(t, at, m); var s1 := Size(all) / 2; var u := Halves(t, at, m);
      && |u.leaves| == |t.leaves| + 2 - m
      && u.leaves[at] == Take(all, s1) && u.leaves[at + 1] == Drop(all, s1)
      && Spliced(u.leaves, t.leaves, at, m, [Take(all, s1), Drop(all, s1)])
      && u.seps == t.seps[..at] + [First(Drop(all, s1))] + t.seps[at + m - 1..]
  {
    var all := Joined(t, at, m);
    var a, b := Take(all, Size(all) / 2), Drop(all, Size(all) / 2);
    assert Halves(t, at, m) == Recut(t, at, m, [a, b]);
    RecutSpliced(t, at, m, [a, b]);
    RecutSeps2(t, at, m, a, b);
    var u := Halves(t, at, m);
    assert u.leaves[at + 0] == [a, b][0] && u.leaves[at + 1] == [a, b][1];
  }

  /** Moving pairs right, first from `b` to `d` and then from `a` to `b`, is cutting the
      concatenation in three. */
  lemma CutBySending(a: Run, b: Run, d: Run, s1: nat, kept: nat)
    requires s1 <= Size(a) && kept <= Size(b)
    ensures var all := Cat(Cat(a, b), d); var s2 := Size(a) - s1 + kept;
      && Take(a, s1) == Take(all, s1)
      && Cat(Drop(a, s1), Take(b, kept)) == Take(Drop(all, s1), s2)
      && Cat(Drop(b, kept), d) == Drop(Drop(all, s1), s2)
  {
    assert Drop(Cat(Cat(a, b), d), s1) == Cat(Cat(Drop(a, s1), b), d);
  }

  /** And so is moving pairs left, first `x` of them from `b` to `a`, then `y` from `d` to `b`. */
  lemma CutByTaking(a: Run, b: Run, d: Run, x: nat, y: nat)
    requires x <= Size(b) && y <= Size(d)
    ensures var all := Cat(Cat(a, b), d); var s1 := Size(a) + x; var s2 := Size(b) - x + y;
      && Cat(a, Take(b, x)) == Take(all, s1)
      && Cat(Drop(b, x), Take(d, y)) == Take(Drop(all, s1), s2)
      && Drop(d, y) == Drop(Drop(all, s1), s2)
  {
    assert Drop(Cat(Cat(a, b), d), Size(a) + x) == Cat(Drop(b, x), d);
  }

  // 3 -> 3.

  lemma StoredLengths(c: Caps, p: seq<Page>, rootId: int, firstId: int, t: Tree, order: seq<int>)
    requires Stored(c, p, rootId, firstId, t, order)
    ensures |order| == |t.leaves|
  {
  }

  lemma Thirds3Stored(c: Caps, p: seq<Page>, q: seq<Page>, rootId: int, firstId: int, t: Tree, order: seq<int>,
                      at: nat, s1: nat, s2: nat)
    requires Stored(c, p, rootId, firstId, t, order) && at + 2 < |order|
    requires SameBut(p, q, {order[at], order[at + 1], order[at + 2], rootId}) && |p| == |q|
    requires var all := Cat(Cat(t.leaves[at], t.leaves[at + 1]), t.leaves[at + 2]);
      && IsThird(Size(all), s1) && IsHalf(Size(all) - s1, s2)
      && HoldsLeaf(c, q, order[at], Take(all, s1), order[at + 1])
      && HoldsLeaf(c, q, order[at + 1], Take(Drop(all, s1), s2), order[at + 2])
      && HoldsLeaf(c, q, order[at + 2], Drop(Drop(all, s1), s2), NextId(order, at + 2))
      && HoldsInner(c, q, rootId,
                    t.seps[at := First(Take(Drop(all, s1), s2))][at + 1 := First(Drop(Drop(all, s1), s2))], order)
    ensures Stored(c, q, rootId, firstId, Thirds(t, at, 3), order)
  {
    hide Stored, Thirds, Joined, HoldsLeaf, HoldsInner, Cat, Take, Drop, First, WindowHolds;
    StoredLengths(c, p, rootId, firstId, t, order);
    var all := Cat(Cat(t.leaves[at], t.leaves[at + 1]), t.leaves[at + 2]);
    JoinedSizes(t, at, 3);
    ThirdIs(all, s1, s2);
    var u := Thirds(t, at, 3);
    Thirds3Outside(t, at);
    ThreeWindow(c, q, order, u, at);
    var touched := {order[at], order[at + 1], order[at + 2], rootId};
    Touched3(order, at, rootId, touched);
    SameOrderStored(c, p, q, rootId, firstId, t, u, order, at, 3, touched);
  }

  lemma Touched3(order: seq<int>, at: nat, rootId: int, touched: set<int>)
    requires at + 2 < |order| && touched == {order[at], order[at + 1], order[at + 2], rootId}
    ensures forall x :: x in touched ==> x == rootId || exists i :: at <= i < at + 3 && x == order[i]
  {
  }

  lemma ThreeWindow(c: Caps, q: seq<Page>, order: seq<int>, u: Tree, at: nat)
    requires at + 2 < |order| == |u.leaves|
    requires HoldsLeaf(c, q, order[at], u.leaves[at], order[at + 1])
    requires HoldsLeaf(c, q, order[at + 1], u.leaves[at + 1], order[at + 2])
    requires HoldsLeaf(c, q, order[at + 2], u.leaves[at + 2], NextId(order, at + 2))
    ensures WindowHolds(c, q, u, order, at, 3)
  {
    assert LeafAt(c, q, u.leaves, order, at) && LeafAt(c, q, u.leaves, order, at + 1)
      && LeafAt(c, q, u.leaves, order, at + 2);
  }

  lemma Thirds3Outside(t: Tree, at: nat)
    requires at + 2 < |t.leaves|
    ensures var u := Thirds(t, at, 3); var all := Joined(t, at, 3);
      && |u.leaves| == |t.leaves|
      && (forall i :: 0 <= i < |t.leaves| && !(at <= i < at + 3) ==> u.leaves[i] == t.leaves[i])
      && u.leaves[at] == Third(all, 0) && u.leaves[at + 1] == Third(all, 1) && u.leaves[at + 2] == Third(all, 2)
      && u.seps == t.seps[at := First(Third(all, 1))][at + 1 := First(Third(all, 2))]
  {
    ThirdsEntries(t, at, 3);
    var all := Joined(t, at, 3);
    TwoUpdates(t.seps, at, First(Third(all, 1)), First(Third(all, 2)));
  }

  // 2 -> 3.

  function WithNew(order: seq<int>, at: nat, id: int): seq<int>
    requires at <= |order|
  {
    order[..at] + [id] + order[at..]
  }

  lemma WithNewFacts(order: seq<int>, at: nat, id: int)
    requires at <= |order|
    ensures forall x :: x in WithNew(order, at, id) <==> x == id || x in order
  {
    assert order == order[..at] + order[at..];
  }

  lemma WithNewDistinct(order: seq<int>, at: nat, id: int)
    requires at <= |order| && Distinct(order) && id !in order
    ensures Distinct(WithNew(order, at, id))
  {
    var o := WithNew(order, at, id);
    forall i, j | 0 <= i < j < |o| ensures o[i] != o[j] {
      assert i < at ==> o[i] == order[i];
      assert i > at ==> o[i] == order[i - 1];
      assert j < at ==> o[j] == order[j];
      assert j > at ==> o[j] == order[j - 1];
    }
  }

  /** A page is available to a new node: deleted in the file, or just past its end. */
  ghost predicate Available(p: seq<Page>, id: int) {
    id >= 1 && (id < |p| ==> IsDeleted(p[id])) && id <= |p|
  }

  lemma AvailableUnused(c: Caps, p: seq<Page>, rootId: int, firstId: int, t: Tree, order: seq<int>, id: int)
    requires Stored(c, p, rootId, firstId, t, order) && Available(p, id)
    ensures id !in order && (|order| >= 1 ==> id != rootId)
  {
    if id < |p| { assert ConservedAt(c, p, rootId, order, id); }
    if |order| >= 1 { IdsOf(c, p, rootId, firstId, t, order, 0); }
    if id in order {
      var i :| 0 <= i < |order| && order[i] == id;
      IdsOf(c, p, rootId, firstId, t, order, i);
    }
  }

  lemma WithNewSpliced(order: seq<int>, at: nat, id: int)
    requires at + 2 <= |order|
    ensures Spliced(WithNew(order, at + 2, id), order, at, 2, [order[at], order[at + 1], id])
  {
  }

  /** The chain after a step, for a window replaced by `pieces` on the pages `ids`. */
  lemma WindowChain(c: Caps, p: seq<Page>, q: seq<Page>, rootId: int, firstId: int, t: Tree, order: seq<int>,
                    leaves': seq<Run>, order': seq<int>, at: nat, m: nat, pieces: seq<Run>,
                    ids: seq<int>, touched: set<int>)
    requires Stored(c, p, rootId, firstId, t, order) && 0 < m && at + m <= |order|
    requires SameBut(p, q, touched) && 0 < |ids| == |pieces| && ids[0] == order[at]
    requires Spliced(leaves', t.leaves, at, m, pieces) && Spliced(order', order, at, m, ids)
    requires forall x :: x in touched && x in order && x != rootId ==> exists i :: at <= i < at + m && x == order[i]
    requires |order| >= 2
    requires forall j :: at <= j < at + |ids| ==> LeafAt(c, q, leaves', order', j)
    ensures ChainStored(c, q, leaves', order')
  {
    forall i | 0 <= i < |order| && !(at <= i < at + m) ensures order[i] !in touched {
      IdsOf(c, p, rootId, firstId, t, order, i);
    }
    OutsideUntouched(c, p, q, rootId, firstId, t, order, at, m, touched);
    ChainWindow(c, p, q, t.leaves, order, leaves', order', at, m, pieces, ids);
  }

  /** A new page after the second page of the window, holding the third piece. */
  lemma SplitStored(c: Caps, p: seq<Page>, q: seq<Page>, rootId: int, firstId: int, t: Tree, order: seq<int>,
                    u: Tree, at: nat, pieces: seq<Run>, id: int)
    requires Stored(c, p, rootId, firstId, t, order) && at + 1 < |order| && Available(p, id)
    requires SameBut(p, q, {order[at], order[at + 1], id, rootId})
    requires |pieces| == 3 && Spliced(u.leaves, t.leaves, at, 2, pieces)
    requires WindowHolds(c, q, u, WithNew(order, at + 2, id), at, 3)
    requires HoldsInner(c, q, rootId, u.seps, WithNew(order, at + 2, id))
    ensures Stored(c, q, rootId, firstId, u, WithNew(order, at + 2, id))
  {
    var order' := WithNew(order, at + 2, id);
    AvailableUnused(c, p, rootId, firstId, t, order, id);
    IdsOf(c, p, rootId, firstId, t, order, at);
    IdsOf(c, p, rootId, firstId, t, order, at + 1);
    WithNewSpliced(order, at, id);
    WindowChain(c, p, q, rootId, firstId, t, order, u.leaves, order', at, 2, pieces, [order[at], order[at + 1], id],
                {order[at], order[at + 1], id, rootId});
    SplitConserved(c, p, q, rootId, u, order, at, id);
    WithNewFacts(order, at + 2, id);
  }

  /** The separators of the root after a split: the two first keys in place of the old one. */
  function SplitSeps(seps: seq<int>, at: nat, mid1: int, mid2: int): seq<int>
    requires at < |seps|
  {
    seps[..at] + [mid1, mid2] + seps[at + 1..]
  }

  lemma Thirds2Stored(c: Caps, p: seq<Page>, q: seq<Page>, rootId: int, firstId: int, t: Tree, order: seq<int>,
                      at: nat, id: int, s1: nat, s2: nat)
    requires Stored(c, p, rootId, firstId, t, order) && at + 1 < |order| && Available(p, id)
    requires SameBut(p, q, {order[at], order[at + 1], id, rootId})
    requires var all := Cat(t.leaves[at], t.leaves[at + 1]);
      && IsThird(Size(all), s1) && IsHalf(Size(all) - s1, s2)
      && HoldsLeaf(c, q, order[at], Take(all, s1), order[at + 1])
      && HoldsLeaf(c, q, order[at + 1], Take(Drop(all, s1), s2), id)
      && HoldsLeaf(c, q, id, Drop(Drop(all, s1), s2), NextId(order, at + 1))
      && HoldsInner(c, q, rootId, SplitSeps(t.seps, at, First(Take(Drop(all, s1), s2)), First(Drop(Drop(all, s1), s2))),
                    WithNew(order, at + 2, id))
    ensures Stored(c, q, rootId, firstId, Thirds(t, at, 2), WithNew(order, at + 2, id))
  {
    var all := Cat(t.leaves[at], t.leaves[at + 1]);
    JoinedSizes(t, at, 2);
    ThirdIs(all, s1, s2);
    ThirdsEntries(t, at, 2);
    SplitWindow(c, q, order, Thirds(t, at, 2), at, id);
    SplitStored(c, p, q, rootId, firstId, t, order, Thirds(t, at, 2), at,
                [Third(all, 0), Third(all, 1), Third(all, 2)], id);
  }

  lemma SplitWindow(c: Caps, q: seq<Page>, order: seq<int>, u: Tree, at: nat, id: int)
    requires at + 1 < |order| == |u.leaves| - 1
    requires HoldsLeaf(c, q, order[at], u.leaves[at], order[at + 1])
    requires HoldsLeaf(c, q, order[at + 1], u.leaves[at + 1], id)
    requires HoldsLeaf(c, q, id, u.leaves[at + 2], NextId(order, at + 1))
    ensures WindowHolds(c, q, u, WithNew(order, at + 2, id), at, 3)
  {
    var o := WithNew(order, at + 2, id);
    assert o[at] == order[at] && o[at + 1] == order[at + 1] && o[at + 2] == id;
    assert at + 2 < |order| ==> o[at + 3] == order[at + 2];
    assert LeafAt(c, q, u.leaves, o, at) && LeafAt(c, q, u.leaves, o, at + 1) && LeafAt(c, q, u.leaves, o, at + 2);
  }

  lemma SplitConserved(c: Caps, p: seq<Page>, q: seq<Page>, rootId: int, u: Tree, order: seq<int>, at: nat, id: int)
    requires PagesConserved(c, p, rootId, order) && at + 1 < |order| && id !in order && rootId !in order && id != rootId
    requires SameBut(p, q, {order[at], order[at + 1], id, rootId})
    requires |u.leaves| == |order| + 1 && WindowHolds(c, q, u, WithNew(order, at + 2, id), at, 3)
    requires HoldsInner(c, q, rootId, u.seps, WithNew(order, at + 2, id))
    ensures PagesConserved(c, q, rootId, WithNew(order, at + 2, id))
  {
    var order' := WithNew(order, at + 2, id);
    WithNewFacts(order, at + 2, id);
    WithNewDistinct(order, at + 2, id);
    assert order'[at] == order[at] && order'[at + 1] == order[at + 1] && order'[at + 2] == id;
    assert LeafAt(c, q, u.leaves, order', at) && LeafAt(c, q, u.leaves, order', at + 1)
      && LeafAt(c, q, u.leaves, order', at + 2);
    ConservedAfter(c, p, q, rootId, rootId, order, order', {order[at], order[at + 1], id, rootId});
  }

  // 3 -> 2.

  function WithoutAt(order: seq<int>, at: nat): seq<int>
    requires at < |order|
  {
    order[..at] + order[at + 1..]
  }

  lemma WithoutAtFacts(order: seq<int>, at: nat)
    requires at < |order| && Distinct(order)
    ensures Distinct(WithoutAt(order, at))
    ensures forall x :: x in WithoutAt(order, at) <==> x in order && x != order[at]
  {
    var o := WithoutAt(order, at);
    forall x | x in order && x != order[at] ensures x in o {
      var i :| 0 <= i < |order| && order[i] == x;
      assert o[if i < at then i else i - 1] == x;
    }
    forall i | 0 <= i < |o| ensures o[i] == order[if i < at then i else i + 1] { }
  }

  lemma WithoutAtSpliced(order: seq<int>, at: nat)
    requires at + 2 < |order|
    ensures Spliced(WithoutAt(order, at + 2), order, at, 3, [order[at], order[at + 1]])
  {
  }

  /** The third page of the window is given back, the first two hold the pieces. */
  lemma MergeStored(c: Caps, p: seq<Page>, q: seq<Page>, rootId: int, firstId: int, t: Tree, order: seq<int>,
                    u: Tree, at: nat, pieces: seq<Run>)
    requires Stored(c, p, rootId, firstId, t, order) && at + 2 < |order| && |p| == |q|
    requires SameBut(p, q, {order[at], order[at + 1], order[at + 2], rootId})
    requires |pieces| == 2 && Spliced(u.leaves, t.leaves, at, 3, pieces)
    requires WindowHolds(c, q, u, WithoutAt(order, at + 2), at, 2)
    requires 0 <= order[at + 2] < |q| && NodePageAt(c, q[order[at + 2]], order[at + 2]) && IsDeleted(q[order[at + 2]])
    requires HoldsInner(c, q, rootId, u.seps, WithoutAt(order, at + 2))
    ensures Stored(c, q, rootId, firstId, u, WithoutAt(order, at + 2))
  {
    IdsOf(c, p, rootId, firstId, t, order, at);
    IdsOf(c, p, rootId, firstId, t, order, at + 1);
    IdsOf(c, p, rootId, firstId, t, order, at + 2);
    WithoutAtSpliced(order, at);
    WindowChain(c, p, q, rootId, firstId, t, order, u.leaves, WithoutAt(order, at + 2), at, 3, pieces,
                [order[at], order[at + 1]], {order[at], order[at + 1], order[at + 2], rootId});
    MergeConserved(c, p, q, rootId, u, order, at);
    WithoutAtFacts(order, at + 2);
  }

  lemma WithoutNext(s: seq<int>, at: nat, x: int)
    requires at + 1 < |s|
    ensures WithoutAt(s[at := x], at + 1) == s[..at] + [x] + s[at + 2..]
  {
  }

  lemma HalvesStored(c: Caps, p: seq<Page>, q: seq<Page>, rootId: int, firstId: int, t: Tree, order: seq<int>,
                     at: nat, s1: nat)
    requires Stored(c, p, rootId, firstId, t, order) && at + 2 < |order| && |p| == |q|
    requires SameBut(p, q, {order[at], order[at + 1], order[at + 2], rootId})
    requires 0 <= order[at + 2] < |q| && NodePageAt(c, q[order[at + 2]], order[at + 2]) && IsDeleted(q[order[at + 2]])
    requires var all := Cat(Cat(t.leaves[at], t.leaves[at + 1]), t.leaves[at + 2]);
      && IsHalf(Size(all), s1)
      && HoldsLeaf(c, q, order[at], Take(all, s1), order[at + 1])
      && HoldsLeaf(c, q, order[at + 1], Drop(all, s1), NextId(order, at + 2))
      && HoldsInner(c, q, rootId, WithoutAt(t.seps[at := First(Drop(all, s1))], at + 1), WithoutAt(order, at + 2))
    ensures Stored(c, q, rootId, firstId, Halves(t, at, 3), WithoutAt(order, at + 2))
  {
    var all := Cat(Cat(t.leaves[at], t.leaves[at + 1]), t.leaves[at + 2]);
    hide Halves, HoldsLeaf, HoldsInner, WithoutAt, Take, Drop, NextId, First;
    assert s1 == Size(all) / 2;
    JoinedSizes(t, at, 3);
    HalvesEntries(t, at, 3);
    var u := Halves(t, at, 3);
    WithoutNext(t.seps, at, First(Drop(all, s1)));
    MergeWindow(c, q, order, u, at);
    MergeStored(c, p, q, rootId, firstId, t, order, u, at, [Take(all, s1), Drop(all, s1)]);
  }

  lemma MergeWindow(c: Caps, q: seq<Page>, order: seq<int>, u: Tree, at: nat)
    requires at + 2 < |order| == |u.leaves| + 1
    requires HoldsLeaf(c, q, order[at], u.leaves[at], order[at + 1])
    requires HoldsLeaf(c, q, order[at + 1], u.leaves[at + 1], NextId(order, at + 2))
    ensures WindowHolds(c, q, u, WithoutAt(order, at + 2), at, 2)
  {
    var o := WithoutAt(order, at + 2);
    assert o[at] == order[at] && o[at + 1] == order[at + 1];
    assert at + 3 < |order| ==> o[at + 2] == order[at + 3];
    assert LeafAt(c, q, u.leaves, o, at) && LeafAt(c, q, u.leaves, o, at + 1);
  }

  lemma MergeConserved(c: Caps, p: seq<Page>, q: seq<Page>, rootId: int, u: Tree, order: seq<int>, at: nat)
    requires PagesConserved(c, p, rootId, order) && at + 2 < |order| == |u.leaves| + 1 && |p| == |q| && rootId !in order
    requires SameBut(p, q, {order[at], order[at + 1], order[at + 2], rootId})
    requires WindowHolds(c, q, u, WithoutAt(order, at + 2), at, 2)
    requires 0 <= order[at + 2] < |q| && NodePageAt(c, q[order[at + 2]], order[at + 2]) && IsDeleted(q[order[at + 2]])
    requires HoldsInner(c, q, rootId, u.seps, WithoutAt(order, at + 2))
    ensures PagesConserved(c, q, rootId, WithoutAt(order, at + 2))
  {
    var order' := WithoutAt(order, at + 2);
    WithoutAtFacts(order, at + 2);
    assert order'[at] == order[at] && order'[at + 1] == order[at + 1];
    assert LeafAt(c, q, u.leaves, order', at) && LeafAt(c, q, u.leaves, order', at + 1);
    ConservedAfter(c, p, q, rootId, rootId, order, order', {order[at], order[at + 1], order[at + 2], rootId});
  }

  // 2 -> 1.

  lemma MergedRootStored(c: Caps, p: seq<Page>, q: seq<Page>, rootId: int, firstId: int, t: Tree, order: seq<int>)
    requires Stored(c, p, rootId, firstId, t, order) && |order| == 2 && |p| == |q|
    requires SameBut(p, q, {0, order[0], order[1], rootId})
    requires q[0] == Meta(order[0], firstId)
    requires HoldsLeaf(c, q, order[0], Cat(t.leaves[0], t.leaves[1]), -1)
    requires 0 <= order[1] < |q| && NodePageAt(c, q[order[1]], order[1]) && IsDeleted(q[order[1]])
    requires 0 <= rootId < |q| && NodePageAt(c, q[rootId], rootId) && IsDeleted(q[rootId])
    ensures Stored(c, q, order[0], firstId, Recut(t, 0, 2, [Joined(t, 0, 2)]), [order[0]])
  {
    var u := Recut(t, 0, 2, [Joined(t, 0, 2)]);
    JoinedSizes(t, 0, 2);
    RecutSpliced(t, 0, 2, [Joined(t, 0, 2)]);
    assert u.leaves[0 + 0] == [Joined(t, 0, 2)][0];
    IdsOf(c, p, rootId, firstId, t, order, 0);
    IdsOf(c, p, rootId, firstId, t, order, 1);
    assert LeafAt(c, q, u.leaves, [order[0]], 0);
    ConservedAfter(c, p, q, rootId, order[0], order, [order[0]], {0, order[0], order[1], rootId});
  }

  // 1 -> 2.

  lemma NewRootStored(c: Caps, p: seq<Page>, q: seq<Page>, id: int, t: Tree, rootId: int, rightId: int, s1: nat)
    requires Stored(c, p, id, id, t, [id])
    requires rootId != rightId && Unused(c, p, q, rootId) && Unused(c, p, q, rightId)
    requires SameBut(p, q, {0, id, rootId, rightId})
    requires |q| > 0 && q[0] == Meta(rootId, id) && IsHalf(Size(t.leaves[0]), s1)
    requires HoldsLeaf(c, q, id, Take(t.leaves[0], s1), rightId)
    requires HoldsLeaf(c, q, rightId, Drop(t.leaves[0], s1), -1)
    requires HoldsInner(c, q, rootId, [First(Drop(t.leaves[0], s1))], [id, rightId])
    ensures Stored(c, q, rootId, id, Halves(t, 0, 1), [id, rightId])
  {
    var u := Halves(t, 0, 1);
    var order' := [id, rightId];
    IdsOf(c, p, id, id, t, [id], 0);
    assert ConservedAt(c, p, id, [id], id);
    assert id != rootId && id != rightId;
    NewRootChain(c, q, id, t, rightId, s1);
    assert LeafAt(c, q, u.leaves, order', 0) && LeafAt(c, q, u.leaves, order', 1);
    assert order'[0] == id && order'[1] == rightId;
    forall x | 1 <= x < |q| && x in {0, id, rootId, rightId} ensures ConservedAt(c, q, rootId, order', x) { }
    ConservedAfter(c, p, q, id, rootId, [id], order', {0, id, rootId, rightId});
  }

  lemma NewRootChain(c: Caps, q: seq<Page>, id: int, t: Tree, rightId: int, s1: nat)
    requires |t.leaves| == 1 && IsHalf(Size(t.leaves[0]), s1)
    requires HoldsLeaf(c, q, id, Take(t.leaves[0], s1), rightId)
    requires HoldsLeaf(c, q, rightId, Drop(t.leaves[0], s1), -1)
    ensures ChainStored(c, q, Halves(t, 0, 1).leaves, [id, rightId])
    ensures Halves(t, 0, 1).seps == [First(Drop(t.leaves[0], s1))]
  {
    hide Halves, Joined;
    HalvesOfOne(t, s1);
    var u, o := Halves(t, 0, 1), [id, rightId];
    assert NextId(o, 0) == rightId && NextId(o, 1) == -1;
    assert LeafAt(c, q, u.leaves, o, 0) && LeafAt(c, q, u.leaves, o, 1);
  }

  lemma HalvesOfOne(t: Tree, s1: nat)
    requires |t.leaves| == 1 && IsHalf(Size(t.leaves[0]), s1)
    ensures Halves(t, 0, 1).leaves == [Take(t.leaves[0], s1), Drop(t.leaves[0], s1)]
    ensures Halves(t, 0, 1).seps == [First(Drop(t.leaves[0], s1))]
  {
    hide Halves, Take, Drop;
    JoinedSizes(t, 0, 1);
    HalvesEntries(t, 0, 1);
  }

  /** A page of `q` that held no live node in `p`. */
  ghost predicate Unused(c: Caps, p: seq<Page>, q: seq<Page>, id: int) {
    1 <= id < |q| && (id < |p| ==> IsDeleted(p[id]))
  }

  // A root leaf appears and disappears.

  lemma RootLeafStored(c: Caps, p: seq<Page>, q: seq<Page>, t: Tree, id: int)
    requires Stored(c, p, -1, -1, t, []) && Available(p, id)
    requires SameBut(p, q, {0, id})
    requires q[0] == Meta(id, id) && HoldsLeaf(c, q, id, RawRun([], []), -1)
    ensures Stored(c, q, id, id, RawTree([RawRun([], [])], []), [id])
  {
    var u: Tree := RawTree([RawRun([], [])], []);
    assert LeafAt(c, q, u.leaves, [id], 0);
    ConservedAfter(c, p, q, -1, id, [], [id], {0, id});
  }

  lemma NoRootStored(c: Caps, p: seq<Page>, q: seq<Page>, t: Tree, id: int)
    requires Stored(c, p, id, id, t, [id]) && |p| == |q| && SameBut(p, q, {0, id})
    requires |q| > 0 && q[0] == Meta(-1, -1)
    requires 0 <= id < |q| && NodePageAt(c, q[id], id) && IsDeleted(q[id])
    ensures Stored(c, q, -1, -1, EmptyTree, [])
  {
    IdsOf(c, p, id, id, t, [id], 0);
    ConservedAfter(c, p, q, id, -1, [id], [], {0, id});
  }
}
