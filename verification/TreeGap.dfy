/** When the merge guard of `remove` can fail: a condition on the page capacity alone, and,
    for every capacity that meets it, a run from the empty tree that gets there. */
module TreeGap {
  import opened LeafRun
  import opened TreeSpec
  import opened TreeProofs
  import opened TreeTheorems

  /** Half a full leaf and one pair more is still below MIN. */
  predicate HasGap(c: Caps) {
    c.Max() - c.HalfMax() + 1 < c.Min()
  }

  /** Leaves of 11 pairs have the gap, and all from 13 on. */
  lemma GapSizes(c: Caps)
    ensures HasGap(c) <==> c.phys == 11 || c.phys >= 13
  {
  }

  lemma GapNeedsCapacity(c: Caps, t: Tree, k: int)
    requires MergeGap(c, t, k)
    ensures HasGap(c)
  {
  }

  datatype Op = Put(key: int, value: RecordAddress) | Del(key: int)

  function Apply(c: Caps, t: Tree, op: Op): Tree {
    match op
    case Put(k, v) => Insert(c, t, k, v)
    case Del(k) => Remove(c, t, k).0
  }

  /** A step the tree supports: a new key that does not overflow the root, or a removal that
      the merge guard does not stop. */
  ghost predicate Allowed(c: Caps, t: Tree, op: Op) {
    match op
    case Put(k, v) => k !in Contents(t) && |Insert(c, t, k, v).seps| <= c.MaxInner()
    case Del(k) => Remove(c, t, k).1 == Removed
  }

  /** `t` is left by the run `ops`, from the empty tree on. */
  ghost predicate LeftBy(c: Caps, ops: seq<Op>, t: Tree) {
    if ops == [] then t == EmptyTree
    else
      var init, last := ops[..|ops| - 1], ops[|ops| - 1];
      exists u: Tree :: LeftBy(c, init, u) && Allowed(c, u, last) && t == Apply(c, u, last)
  }

  ghost predicate Reachable(c: Caps, t: Tree) {
    exists ops :: LeftBy(c, ops, t)
  }

  /** Every reachable tree is well-formed. */
  lemma {:induction false} RunsKeepWellformed(c: Caps, ops: seq<Op>, t: Tree)
    requires c.Valid() && LeftBy(c, ops, t)
    ensures Wellformed(c, t)
    decreases |ops|
  {
    if ops != [] {
      var init, last := ops[..|ops| - 1], ops[|ops| - 1];
      var u: Tree :| LeftBy(c, init, u) && Allowed(c, u, last) && t == Apply(c, u, last);
      RunsKeepWellformed(c, init, u);
      match last
      case Put(k, v) => InsertRefinesMap(c, u, k, v);
      case Del(k) => RemoveRefinesMap(c, u, k);
    }
  }

  lemma OneMore(c: Caps, t: Tree, op: Op)
    requires Reachable(c, t) && Allowed(c, t, op)
    ensures Reachable(c, Apply(c, t, op))
  {
    hide Allowed, Apply;
    var ops :| LeftBy(c, ops, t);
    assert (ops + [op])[..|ops|] == ops;
    assert LeftBy(c, ops + [op], Apply(c, t, op));
  }

  // The run.

  const Somewhere := RecordAddress(0, 0)

  /** The keys from `lo` on, `n` of them. */
  function Rising(lo: int, n: nat): (r: Run)
    ensures Size(r) == n && Sorted(r.keys)
    ensures forall i :: 0 <= i < n ==> r.keys[i] == lo + i
  {
    RawRun(seq(n, i => lo + i), seq(n, _ => Somewhere))
  }

  lemma RisingHas(lo: int, n: nat, k: int)
    ensures k in Rising(lo, n).keys <==> lo <= k < lo + n
  {
    if lo <= k < lo + n { assert Rising(lo, n).keys[k - lo] == k; }
  }

  lemma RisingMore(lo: int, n: nat)
    ensures Inserted(Rising(lo, n), lo + n, Somewhere) == Rising(lo, n + 1)
  {
    var r, u := Rising(lo, n), Rising(lo, n + 1);
    LowerBoundUnique(r.keys, lo + n, n);
    assert r.keys[..n] + [lo + n] + r.keys[n..] == u.keys;
    assert r.vals[..n] + [Somewhere] + r.vals[n..] == u.vals;
  }

  lemma RisingLess(lo: int, n: nat)
    ensures Without(Rising(lo, n + 1), lo) == Rising(lo + 1, n)
  {
    var r, u := Rising(lo, n + 1), Rising(lo + 1, n);
    LowerBoundUnique(r.keys, lo, 0);
    assert r.keys[..0] + r.keys[1..] == u.keys;
    assert r.vals[..0] + r.vals[1..] == u.vals;
  }

  lemma RisingCut(lo: int, n: nat, h: nat)
    requires h <= n
    ensures Take(Rising(lo, n), h) == Rising(lo, h) && Drop(Rising(lo, n), h) == Rising(lo + h, n - h)
  {
  }

  function OneLeaf(n: nat): Tree { RawTree([Rising(0, n)], []) }

  function TwoLeaves(lo: int, h: nat, n: nat): Tree {
    RawTree([Rising(lo, h), Rising(lo + h, n)], [lo + h])
  }

  lemma Absent(t: Tree, k: int)
    requires forall i :: 0 <= i < |t.leaves| ==> k !in t.leaves[i].keys
    requires |t.leaves| <= 2
    ensures k !in Contents(t)
  {
    if |t.leaves| == 1 {
      JoinedSizes(t, 0, 1);
      assert t.leaves[0..1] == t.leaves;
    } else if |t.leaves| == 2 {
      JoinedSizes(t, 0, 2);
      assert t.leaves[0..2] == t.leaves;
    }
  }

  lemma OneLeafStep(c: Caps, n: nat)
    requires 1 < n <= c.Max()
    ensures n - 1 !in Contents(OneLeaf(n - 1)) && Insert(c, OneLeaf(n - 1), n - 1, Somewhere) == OneLeaf(n)
  {
    hide Rising, Contents, Inserted, FixOverflow;
    var t := OneLeaf(n - 1);
    RisingMore(0, n - 1);
    RisingHas(0, n - 1, n - 1);
    Absent(t, n - 1);
    assert t.leaves[0 := Rising(0, n)] == OneLeaf(n).leaves;
  }

  lemma {:induction false} OneLeafReachable(c: Caps, n: nat)
    requires c.Valid() && 1 <= n <= c.Max()
    ensures Reachable(c, OneLeaf(n))
  {
    if n == 1 {
      assert LeftBy(c, [], EmptyTree);
      assert Rising(0, 1).keys == [0] && Rising(0, 1).vals == [Somewhere];
      Absent(EmptyTree, 0);
      OneMore(c, EmptyTree, Put(0, Somewhere));
    } else {
      hide Reachable, Contents, Insert;
      OneLeafReachable(c, n - 1);
      OneLeafStep(c, n);
      OneMore(c, OneLeaf(n - 1), Put(n - 1, Somewhere));
    }
  }

  lemma SplitOfOne(n: nat)
    requires n >= 2
    ensures Halves(OneLeaf(n), 0, 1) == TwoLeaves(0, n / 2, n - n / 2)
  {
    var u, h := OneLeaf(n), n / 2;
    JoinedSizes(u, 0, 1);
    RisingCut(0, n, h);
    var a, b := Rising(0, h), Rising(h, n - h);
    assert Cut2(u.leaves[0], h) == [a, b] && [a, b][1..] == [b];
    assert FirstKeys([b]) == [h];
  }

  lemma SplitReachable(c: Caps)
    requires c.Valid()
    ensures Reachable(c, TwoLeaves(0, c.phys / 2, c.phys - c.phys / 2))
  {
    hide Rising, Halves, Reachable, Contents;
    var t := OneLeaf(c.Max());
    OneLeafReachable(c, c.Max());
    RisingMore(0, c.Max());
    RisingHas(0, c.Max(), c.Max());
    Absent(t, c.Max());
    assert AddToLeaf(t, c.Max(), Somewhere).leaves == OneLeaf(c.phys).leaves;
    SplitOfOne(c.phys);
    OneMore(c, t, Put(c.Max(), Somewhere));
  }

  lemma EvenAlready(t: Tree)
    requires |t.leaves| == 2 && IsHalf(Size(t.leaves[0]) + Size(t.leaves[1]), Size(t.leaves[0]))
    ensures Even2(t, 0) == t
  {
    JoinedSizes(t, 0, 2);
  }

  /** Removing the smallest pair of two leaves of `h + 1` changes nothing else. */
  lemma ShortenReachable(c: Caps, h: nat)
    requires c.Valid() && h == c.HalfMax() && Reachable(c, TwoLeaves(0, h + 1, h + 1)) && h < c.Min()
    ensures Reachable(c, TwoLeaves(1, h, h + 1))
  {
    hide Rising, Reachable, Contents, Even2, Without;
    var t, u := TwoLeaves(0, h + 1, h + 1), TwoLeaves(1, h, h + 1);
    RisingLess(0, h);
    assert t.leaves[0 := Rising(1, h)] == u.leaves;
    assert DropFromLeaf(t, 0) == u;
    EvenAlready(u);
    assert Remove(c, t, 0) == (u, Removed);
    OneMore(c, t, Del(0));
  }

  lemma GrowStep(c: Caps, lo: int, h: nat, n: nat)
    requires 0 < n <= c.Max()
    ensures var t, k := TwoLeaves(lo, h, n - 1), lo + h + n - 1;
      k !in Contents(t) && Insert(c, t, k, Somewhere) == TwoLeaves(lo, h, n)
  {
    hide Rising, Inserted, FixOverflow, Contents;
    var t, k := TwoLeaves(lo, h, n - 1), lo + h + n - 1;
    RisingMore(lo + h, n - 1);
    RisingHas(lo, h, k);
    RisingHas(lo + h, n - 1, k);
    Absent(t, k);
    assert ChildIdx(t.seps, k) == 1;
    assert t.leaves[1 := Rising(lo + h, n)] == [Rising(lo, h), Rising(lo + h, n)];
  }

  lemma {:induction false} GrowReachable(c: Caps, lo: int, h: nat, m: nat, n: nat)
    requires c.Valid() && 0 < m <= n <= c.Max() && Reachable(c, TwoLeaves(lo, h, m))
    ensures Reachable(c, TwoLeaves(lo, h, n))
    decreases n
  {
    hide Rising, Reachable, Contents, Insert;
    if m < n {
      GrowReachable(c, lo, h, m, n - 1);
      GrowStep(c, lo, h, n);
      OneMore(c, TwoLeaves(lo, h, n - 1), Put(lo + h + n - 1, Somewhere));
    }
  }

  /** The failing guard is not an artefact of strange trees: a capacity lets some reachable
      tree and key run into it exactly when it has the gap. */
  lemma GapReachable(c: Caps)
    requires c.Valid()
    ensures HasGap(c) <==> exists t: Tree, k :: Reachable(c, t) && MergeGap(c, t, k)
  {
    hide Rising, Reachable, Contents;
    if HasGap(c) {
      var h := c.HalfMax();
      var lo := if c.phys % 2 == 1 then 0 else 1;
      SplitReachable(c);
      if lo == 1 { ShortenReachable(c, h); }
      GrowReachable(c, lo, h, h + 1, c.Min());
      var t, k := TwoLeaves(lo, h, c.Min()), lo + h;
      PresentInSecond(lo, h, c.Min());
      assert ChildIdx(t.seps, k) == 1;
      assert Reachable(c, t) && MergeGap(c, t, k);
    }
  }

  lemma PresentInSecond(lo: int, h: nat, n: nat)
    requires n > 0
    ensures lo + h in Contents(TwoLeaves(lo, h, n))
  {
    var t := TwoLeaves(lo, h, n);
    JoinedSizes(t, 0, 2);
    assert t.leaves[0..2] == t.leaves;
    RisingHas(lo + h, n, lo + h);
  }
}
