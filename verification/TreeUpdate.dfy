/** Giving a key another value, in place. */
module TreeUpdate {
  import opened LeafRun
  import opened TreeSpec
  import opened TreeProofs

  function ReviseInLeaf(t: Tree, k: int, v: RecordAddress): Tree
    requires |t.leaves| > 0
  {
    var i := ChildIdx(t.seps, k);
    t.(leaves := t.leaves[i := Revised(t.leaves[i], k, v)])
  }

  /** A present key gets the value, and only it; an absent key changes nothing. */
  lemma UpdateRefinesMap(c: Caps, t: Tree, k: int, v: RecordAddress)
    requires Wellformed(c, t) && |t.leaves| > 0
    ensures var u := ReviseInLeaf(t, k, v);
      && Wellformed(c, u)
      && (Contents(u) == if k in Contents(t) then Contents(t)[k := v] else Contents(t))
      && (k !in Contents(t) ==> u == t)
      && (k in Contents(t) <==> HasAt(t.leaves[ChildIdx(t.seps, k)], k))
  {
    hide Contents, Ordered, Revised, HasAt, ChildIdx, LowerBound, Sizes;
    var i := ChildIdx(t.seps, k);
    var u := ReviseInLeaf(t, k, v);
    LeafIsSorted(t, i);
    SearchIsLookup(t, k);
    LookupFinds(t.leaves[i], k);
    RevisedIsMapUpdate(t.leaves[i], k, v);
    if k in t.leaves[i].keys {
      RevisedInTree(t, i, k, v);
    } else {
      assert u.leaves == t.leaves;
    }
    KeptOrdered(t, u, i);
    KeptSizes(c, t, u);
  }

  lemma KeptSizes(c: Caps, t: Tree, u: Tree)
    requires Sizes(c, t) && |u.leaves| == |t.leaves|
    requires forall j :: 0 <= j < |t.leaves| ==> u.leaves[j].keys == t.leaves[j].keys
    ensures Sizes(c, u)
  {
  }

  lemma LeafIsSorted(t: Tree, i: nat)
    requires Ordered(t) && i < |t.leaves|
    ensures Sorted(t.leaves[i].keys)
  {
  }

  lemma LookupFinds(r: Run, k: int)
    ensures var j := LowerBound(r.keys, k); HasAt(r, k) <==> j < Size(r) && r.keys[j] == k
  {
  }

  lemma RevisedInTree(t: Tree, i: nat, k: int, v: RecordAddress)
    requires Ordered(t) && i < |t.leaves| && k in t.leaves[i].keys
    ensures Contents(t.(leaves := t.leaves[i := Revised(t.leaves[i], k, v)])) == Contents(t)[k := v]
  {
    hide ToMap, Flat, Before, After, Sorted, Revised, HasAt;
    var u: Tree := t.(leaves := t.leaves[i := Revised(t.leaves[i], k, v)]);
    var a, b, b', d := Before(t, i), t.leaves[i], u.leaves[i], After(t, i);
    LeafChangeMap(t, u, i);
    FlatAt(t, i);
    RevisedIsMapUpdate(b, k, v);
    MapOfThree(a, b, d);
    MapOfThree(a, b', d);
    InsertMiddle(ToMap(a), ToMap(b), ToMap(d), k, v);
  }

  lemma KeptOrdered(t: Tree, u: Tree, i: nat)
    requires Ordered(t) && i < |t.leaves| == |u.leaves| && u.seps == t.seps
    requires forall j :: 0 <= j < |t.leaves| ==> u.leaves[j].keys == t.leaves[j].keys
    ensures Ordered(u)
  {
    forall j | 0 <= j < |u.seps| ensures Fenced(u, j) {
      assert Fenced(t, j);
    }
  }
}
