/** How a tree is laid out on pages: the leaf chain, the root, and which pages are in use. */
module TreePages {
  import opened Bytes
  import opened LeafRun
  import opened TreeSpec
  import opened Pages

  ghost function NextId(order: seq<int>, i: nat): int {
    if i + 1 < |order| then order[i + 1] else -1
  }

  /** The chain of leaf pages, in key order, ending at -1. */
  ghost predicate ChainStored(c: Caps, pages: seq<Page>, leaves: seq<Run>, order: seq<int>) {
    && |order| == |leaves|
    && forall i :: 0 <= i < |order| ==> LeafAt(c, pages, leaves, order, i)
  }

  ghost predicate LeafAt(c: Caps, pages: seq<Page>, leaves: seq<Run>, order: seq<int>, i: nat)
    requires i < |order| == |leaves|
  {
    HoldsLeaf(c, pages, order[i], leaves[i], NextId(order, i))
  }

  ghost predicate RootStored(c: Caps, pages: seq<Page>, rootId: int, firstLeafId: int, t: Tree, order: seq<int>) {
    && |pages| > 0 && pages[0] == Meta(rootId, firstLeafId)
    && firstLeafId == (if order == [] then -1 else order[0])
    && (|order| <= 1 ==> rootId == firstLeafId)
    && (|order| >= 2 ==> HoldsInner(c, pages, rootId, t.seps, order) && rootId !in order)
  }

  /** Every node page is either deleted or reachable, and reachable once. */
  ghost predicate PagesConserved(c: Caps, pages: seq<Page>, rootId: int, order: seq<int>) {
    && Distinct(order)
    && forall p :: 1 <= p < |pages| ==> ConservedAt(c, pages, rootId, order, p)
  }

  ghost predicate ConservedAt(c: Caps, pages: seq<Page>, rootId: int, order: seq<int>, p: int)
    requires 1 <= p < |pages|
  {
    NodePageAt(c, pages[p], p) && (IsDeleted(pages[p]) <==> p != rootId && p !in order)
  }

  ghost predicate Stored(c: Caps, pages: seq<Page>, rootId: int, firstLeafId: int, t: Tree, order: seq<int>) {
    && ChainStored(c, pages, t.leaves, order)
    && RootStored(c, pages, rootId, firstLeafId, t, order)
    && PagesConserved(c, pages, rootId, order)
  }

  /** `u` is `s` with the `m` elements from `at` on replaced by `w`. */
  ghost predicate Spliced<T>(u: seq<T>, s: seq<T>, at: nat, m: nat, w: seq<T>)
    requires at + m <= |s|
  {
    && |u| == |s| - m + |w|
    && (forall i :: 0 <= i < at ==> u[i] == s[i])
    && (forall i :: 0 <= i < |w| ==> u[at + i] == w[i])
    && (forall i :: at + |w| <= i < |u| ==> u[i] == s[i - |w| + m])
  }

  lemma SpliceIs<T>(s: seq<T>, at: nat, m: nat, w: seq<T>)
    requires at + m <= |s|
    ensures Spliced(s[..at] + w + s[at + m..], s, at, m, w)
  {
  }

  lemma SplicedNext(order': seq<int>, order: seq<int>, at: nat, m: nat, ids: seq<int>, i: nat)
    requires 0 < m && at + m <= |order| && Spliced(order', order, at, m, ids)
    requires |ids| > 0 && ids[0] == order[at] && i < |order'|
    ensures i < at ==> NextId(order', i) == NextId(order, i)
    ensures at + |ids| <= i ==> NextId(order', i) == NextId(order, i - |ids| + m)
  {
    if i + 1 == at { assert order'[at + 0] == ids[0]; }
  }

  /** Rewriting the leaves of a window, whose first page stays, keeps the chain. */
  lemma ChainWindow(c: Caps, p: seq<Page>, q: seq<Page>, leaves: seq<Run>, order: seq<int>,
                    leaves': seq<Run>, order': seq<int>, at: nat, m: nat, pieces: seq<Run>, ids: seq<int>)
    requires ChainStored(c, p, leaves, order) && 0 < m && at + m <= |order|
    requires 0 < |ids| == |pieces| && ids[0] == order[at]
    requires Spliced(leaves', leaves, at, m, pieces) && Spliced(order', order, at, m, ids)
    requires forall i :: 0 <= i < |order| && !(at <= i < at + m) ==>
      0 <= order[i] < |p| && order[i] < |q| && q[order[i]] == p[order[i]]
    requires forall j :: at <= j < at + |ids| ==> LeafAt(c, q, leaves', order', j)
    ensures ChainStored(c, q, leaves', order')
  {
    forall i | 0 <= i < |order'| ensures LeafAt(c, q, leaves', order', i) {
      SplicedNext(order', order, at, m, ids, i);
      if !(at <= i < at + |ids|) {
        var j := if i < at then i else i - |ids| + m;
        assert LeafAt(c, p, leaves, order, j);
        assert order'[i] == order[j] && leaves'[i] == leaves[j];
      }
    }
  }

  // Trees of any height, for the descent.

  /** A subtree by its page id: a leaf, or separators and children. */
  datatype Shape = LeafShape(id: int, run: Run) | InnerShape(id: int, seps: seq<int>, kids: seq<Shape>)

  ghost function KidIds(s: Shape): seq<int>
    requires s.InnerShape?
  {
    seq(|s.kids|, i requires 0 <= i < |s.kids| => s.kids[i].id)
  }

  ghost predicate Represents(c: Caps, pages: seq<Page>, s: Shape) {
    match s
    case LeafShape(id, run) => 0 <= id < |pages| && pages[id].LeafPage?
      && HoldsLeaf(c, pages, id, run, pages[id].nextLeaf)
    case InnerShape(id, seps, kids) =>
      && |kids| == |seps| + 1
      && HoldsInner(c, pages, id, seps, KidIds(s))
      && forall i :: 0 <= i < |kids| ==> Represents(c, pages, kids[i])
  }

  /** The leaf the descent for `k` ends at. */
  ghost function Descend(s: Shape, k: int): Shape
    requires ShapeOk(s)
    ensures Descend(s, k).LeafShape?
  {
    match s
    case LeafShape(_, _) => s
    case InnerShape(_, seps, kids) => Descend(kids[ChildIdx(seps, k)], k)
  }

  ghost predicate ShapeOk(s: Shape) {
    s.InnerShape? ==> |s.kids| == |s.seps| + 1 && forall i :: 0 <= i < |s.kids| ==> ShapeOk(s.kids[i])
  }

  lemma RepresentsOk(c: Caps, pages: seq<Page>, s: Shape)
    requires Represents(c, pages, s)
    ensures ShapeOk(s)
  {
    if s.InnerShape? {
      forall i | 0 <= i < |s.kids| ensures ShapeOk(s.kids[i]) {
        RepresentsOk(c, pages, s.kids[i]);
      }
    }
  }

  /** The inner nodes passed on the way, with the child taken in each. */
  ghost function Path(s: Shape, k: int): seq<(int, nat)>
    requires ShapeOk(s)
  {
    match s
    case LeafShape(_, _) => []
    case InnerShape(id, seps, kids) => [(id, ChildIdx(seps, k))] + Path(kids[ChildIdx(seps, k)], k)
  }

  /** The shape of a tree whose root is a leaf or lies over the leaves. */
  ghost function FlatShape(t: Tree, order: seq<int>, rootId: int): Shape
    requires |order| == |t.leaves| > 0
  {
    if |order| == 1 then LeafShape(order[0], t.leaves[0])
    else InnerShape(rootId, t.seps, seq(|order|, i requires 0 <= i < |order| => LeafShape(order[i], t.leaves[i])))
  }

  lemma FlatShapeRepresents(c: Caps, pages: seq<Page>, rootId: int, firstLeafId: int, t: Tree, order: seq<int>)
    requires Stored(c, pages, rootId, firstLeafId, t, order) && |order| > 0
    ensures var s := FlatShape(t, order, rootId);
      Represents(c, pages, s) && s.id == rootId
  {
    var s := FlatShape(t, order, rootId);
    forall i | 0 <= i < |order| ensures Represents(c, pages, LeafShape(order[i], t.leaves[i])) {
      assert LeafAt(c, pages, t.leaves, order, i);
    }
    if |order| > 1 {
      assert KidIds(s) == order;
    }
  }

  lemma FlatShapeRoutes(t: Tree, order: seq<int>, rootId: int, k: int)
    requires |order| == |t.leaves| > 0
    ensures var s := FlatShape(t, order, rootId); var i := ChildIdx(t.seps, k);
      && ShapeOk(s)
      && Descend(s, k) == LeafShape(order[i], t.leaves[i])
      && Path(s, k) == if |order| == 1 then [] else [(rootId, i)]
  {
    var s := FlatShape(t, order, rootId);
    if |order| > 1 {
      var i := ChildIdx(t.seps, k);
      assert s.kids[i] == LeafShape(order[i], t.leaves[i]);
      assert Path(s.kids[i], k) == [];
    }
  }
}
