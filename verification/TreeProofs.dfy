/** The tree operations keep the order and size invariants and act as map updates. */
module TreeProofs {
  import opened LeafRun
  import opened TreeSpec

  // Concatenations of leaves.

  lemma CatAssociates(a: Run, b: Run, c: Run)
    ensures Cat(a, Cat(b, c)) == Cat(Cat(a, b), c)
  {
  }

  lemma {:induction false} FlatOfCat(a: seq<Run>, b: seq<Run>)
    ensures Flat(a + b) == Cat(Flat(a), Flat(b))
  {
    if a == [] {
      assert a + b == b;
    } else {
      assert (a + b)[1..] == a[1..] + b && (a + b)[0] == a[0];
      FlatOfCat(a[1..], b);
      CatAssociates(a[0], Flat(a[1..]), Flat(b));
    }
  }

  lemma FlatOfFew(a: Run, b: Run, c: Run)
    ensures Flat([a]) == a
    ensures Flat([a, b]) == Cat(a, b)
    ensures Flat([a, b, c]) == Cat(Cat(a, b), c)
  {
    assert Cat(Cat(a, b), c) == Cat(a, Cat(b, c));
    assert [a, b][1..] == [b] && [a, b, c][1..] == [b, c] && [b, c][1..] == [c];
    assert [a][1..] == [] && [b][1..] == [] && [c][1..] == [];
    assert Flat([b, c]) == Cat(b, Flat([c]));
  }

  lemma FlatOfThree(a: seq<Run>, b: seq<Run>, c: seq<Run>)
    ensures Flat(a + b + c) == Cat(Cat(Flat(a), Flat(b)), Flat(c))
  {
    FlatOfCat(a + b, c);
    FlatOfCat(a, b);
  }

  lemma InThree<T>(s: seq<T>, i: nat, j: nat)
    requires i <= j <= |s|
    ensures s[..i] + s[i..j] + s[j..] == s
  {
  }

  lemma FlatAround(leaves: seq<Run>, at: nat, m: nat)
    requires at + m <= |leaves|
    ensures Flat(leaves) == Cat(Cat(Flat(leaves[..at]), Flat(leaves[at..at + m])), Flat(leaves[at + m..]))
  {
    InThree(leaves, at, at + m);
    FlatOfThree(leaves[..at], leaves[at..at + m], leaves[at + m..]);
  }

  lemma RecutKeepsFlat(t: Tree, at: nat, m: nat, pieces: seq<Run>)
    requires 0 < m && at + m <= |t.leaves| && 0 < |pieces|
    requires Flat(pieces) == Joined(t, at, m)
    ensures Flat(Recut(t, at, m, pieces).leaves) == Flat(t.leaves)
  {
    FlatAround(t.leaves, at, m);
    FlatOfThree(t.leaves[..at], pieces, t.leaves[at + m..]);
  }

  // A chain of non-empty leaves is in order exactly when its concatenation is sorted.

  lemma {:induction false} ChainFlat(ps: seq<Run>)
    requires Chain(ps) && |ps| > 0
    ensures Size(Flat(ps)) > 0 && Sorted(Flat(ps).keys)
    ensures First(Flat(ps)) == First(ps[0]) && Last(Flat(ps)) == Last(ps[|ps| - 1])
  {
    if |ps| == 1 {
      FlatOfFew(ps[0], ps[0], ps[0]);
      assert ps == [ps[0]];
    } else {
      ChainTail(ps);
      ChainFlat(ps[1..]);
      BelowByEnds(ps[0], Flat(ps[1..]));
      SortedCat(ps[0].keys, Flat(ps[1..]).keys);
    }
  }

  lemma ChainTail(ps: seq<Run>)
    requires Chain(ps) && |ps| > 1
    ensures Chain(ps[1..]) && ps[1..][0] == ps[1] && ps[1..][|ps| - 2] == ps[|ps| - 1]
    ensures Sorted(ps[0].keys) && Size(ps[0]) > 0 && Last(ps[0]) < First(ps[1])
  {
    assert Linked(ps, 0);
    forall i | 0 <= i < |ps[1..]| - 1
      ensures Linked(ps[1..], i)
    {
      assert Linked(ps, i + 1);
    }
  }

  lemma BelowByEnds(a: Run, b: Run)
    requires Sorted(a.keys) && Sorted(b.keys) && Size(a) > 0 && Size(b) > 0
    requires Last(a) < First(b)
    ensures Below(a.keys, b.keys)
  {
    forall x, y | x in a.keys && y in b.keys ensures x < y {
      EndsBound(a, x);
      EndsBound(b, y);
    }
  }

  lemma EndsBound(r: Run, x: int)
    requires Sorted(r.keys) && x in r.keys
    ensures r.keys[0] <= x <= Last(r)
  {
    var i :| 0 <= i < |r.keys| && r.keys[i] == x;
    assert i > 0 ==> r.keys[0] < r.keys[i];
    assert i < |r.keys| - 1 ==> r.keys[i] < r.keys[|r.keys| - 1];
  }

  lemma {:induction false} FlatChain(ps: seq<Run>)
    requires |ps| > 0 && Sorted(Flat(ps).keys)
    requires forall i :: 0 <= i < |ps| ==> Size(ps[i]) > 0
    ensures Chain(ps)
  {
    SortedParts(ps[0].keys, Flat(ps[1..]).keys);
    if |ps| > 1 {
      FlatChain(ps[1..]);
      ChainFlat(ps[1..]);
      var f := Flat(ps[1..]);
      assert Last(ps[0]) in ps[0].keys && First(f) in f.keys;
      forall i | 0 <= i < |ps| - 1 ensures Linked(ps, i) {
        if i > 0 {
          assert Linked(ps[1..], i - 1);
        }
      }
      forall i | 0 <= i < |ps| ensures Sorted(ps[i].keys) {
        if i > 0 { assert ps[i] == ps[1..][i - 1]; }
      }
    }
  }

  lemma OrderedChain(t: Tree, lo: nat, hi: nat)
    requires Ordered(t) && lo <= hi <= |t.leaves|
    ensures Chain(t.leaves[lo..hi])
  {
    forall i | 0 <= i < hi - lo - 1
      ensures Linked(t.leaves[lo..hi], i)
    {
      assert Fenced(t, lo + i);
    }
  }

  /** Everything about `t` outside the window of `m` leaves from `at` on is in order. */
  ghost predicate OrderedOutside(t: Tree, at: nat, m: nat, first: int, last: int)
    requires 0 < m && at + m <= |t.leaves|
  {
    && (forall i :: 0 <= i < |t.leaves| && !(at <= i < at + m) ==> Size(t.leaves[i]) > 0 && Sorted(t.leaves[i].keys))
    && (forall i :: 0 <= i < |t.seps| && (i + 1 < at || at + m <= i) ==> Fenced(t, i))
    && (at > 0 ==> Last(t.leaves[at - 1]) < t.seps[at - 1] <= first)
    && (at + m < |t.leaves| ==> last < t.seps[at + m - 1] <= First(t.leaves[at + m]))
  }

  lemma RecutKeepsOrder(t: Tree, at: nat, m: nat, pieces: seq<Run>)
    requires 0 < m && at + m <= |t.leaves| && 0 < |pieces| && Chain(pieces)
    requires OrderedOutside(t, at, m, First(pieces[0]), Last(pieces[|pieces| - 1]))
    ensures Ordered(Recut(t, at, m, pieces))
  {
    var u := Recut(t, at, m, pieces);
    var p := |pieces|;
    forall i | 0 <= i < |u.leaves|
      ensures Size(u.leaves[i]) > 0 && Sorted(u.leaves[i].keys)
    {
      if i >= at + p { assert u.leaves[i] == t.leaves[i - p + m]; }
    }
    forall i | 0 <= i < |u.seps| ensures Fenced(u, i) {
      RecutAt(t, at, m, pieces, i);
      RecutAt(t, at, m, pieces, i + 1);
      RecutFence(u, t, at, m, pieces, i);
    }
  }

  /** Entry `i` of a recut tree, in terms of the old tree and the pieces. */
  ghost predicate RecutEntry(u: Tree, t: Tree, at: nat, m: nat, pieces: seq<Run>, i: nat)
    requires 0 < m && at + m <= |t.leaves| && 0 < |pieces|
  {
    var p := |pieces|;
    && |u.leaves| == |t.leaves| - m + p
    && (i < |u.leaves| ==>
      u.leaves[i] == if i < at then t.leaves[i] else if i < at + p then pieces[i - at] else t.leaves[i - p + m])
    && (i < |u.seps| ==>
      u.seps[i] == if i < at then t.seps[i] else if i < at + p - 1
        then First(pieces[i - at + 1]) else t.seps[i - p + m])
  }

  lemma RecutAt(t: Tree, at: nat, m: nat, pieces: seq<Run>, i: nat)
    requires 0 < m && at + m <= |t.leaves| && 0 < |pieces|
    ensures RecutEntry(Recut(t, at, m, pieces), t, at, m, pieces, i)
  {
  }

  lemma RecutFence(u: Tree, t: Tree, at: nat, m: nat, pieces: seq<Run>, i: nat)
    requires 0 < m && at + m <= |t.leaves| && 0 < |pieces| && Chain(pieces)
    requires OrderedOutside(t, at, m, First(pieces[0]), Last(pieces[|pieces| - 1]))
    requires i < |u.seps|
    requires RecutEntry(u, t, at, m, pieces, i) && RecutEntry(u, t, at, m, pieces, i + 1)
    ensures Fenced(u, i)
  {
    var p := |pieces|;
    if at <= i < at + p - 1 {
      assert Linked(pieces, i - at);
    } else if i >= at + p {
      var j := i - p + m;
      assert Fenced(t, j);
    } else if i + 1 < at {
      assert Fenced(t, i);
    }
  }

  // Windows of an ordered tree.

  lemma OrderedWindow(t: Tree, at: nat, m: nat)
    requires Ordered(t) && 0 < m && at + m <= |t.leaves|
    ensures var all := Joined(t, at, m);
      Size(all) > 0 && Sorted(all.keys) && OrderedOutside(t, at, m, First(all), Last(all))
  {
    OrderedChain(t, at, at + m);
    ChainFlat(t.leaves[at..at + m]);
    forall i | 0 <= i < |t.seps| && (i + 1 < at || at + m <= i)
      ensures Fenced(t, i)
    {
    }
    if at > 0 { assert Fenced(t, at - 1); }
    if at + m < |t.leaves| { assert Fenced(t, at + m - 1); }
  }

  /** Cutting a sorted window anew, into non-empty pieces, keeps the pairs and the order. */
  lemma RecutOrdered(t: Tree, at: nat, m: nat, pieces: seq<Run>)
    requires 0 < m && at + m <= |t.leaves| && 0 < |pieces|
    requires forall i :: 0 <= i < |pieces| ==> Size(pieces[i]) > 0
    requires Flat(pieces) == Joined(t, at, m) && Sorted(Joined(t, at, m).keys)
    requires OrderedOutside(t, at, m, First(Joined(t, at, m)), Last(Joined(t, at, m)))
    ensures Ordered(Recut(t, at, m, pieces))
    ensures Flat(Recut(t, at, m, pieces).leaves) == Flat(t.leaves)
  {
    FlatChain(pieces);
    ChainFlat(pieces);
    RecutKeepsOrder(t, at, m, pieces);
    RecutKeepsFlat(t, at, m, pieces);
  }

  lemma JoinedSizes(t: Tree, at: nat, m: nat)
    requires 1 <= m <= 3 && at + m <= |t.leaves|
    ensures m == 1 ==> Joined(t, at, m) == t.leaves[at]
    ensures m == 2 ==> Joined(t, at, m) == Cat(t.leaves[at], t.leaves[at + 1])
    ensures m == 3 ==> Joined(t, at, m) == Cat(Cat(t.leaves[at], t.leaves[at + 1]), t.leaves[at + 2])
  {
    var w := t.leaves[at..at + m];
    if m == 1 {
      assert w == [t.leaves[at]];
      FlatOfFew(w[0], w[0], w[0]);
    } else if m == 2 {
      assert w == [t.leaves[at], t.leaves[at + 1]];
      FlatOfFew(w[0], w[1], w[0]);
    } else {
      assert w == [t.leaves[at], t.leaves[at + 1], t.leaves[at + 2]];
      FlatOfFew(w[0], w[1], w[2]);
    }
  }

  // Routing: the root leads to the only leaf that can hold the key.

  lemma Route(t: Tree, k: int)
    requires Ordered(t) && |t.leaves| > 0
    ensures var i := ChildIdx(t.seps, k);
      && (i > 0 ==> t.seps[i - 1] <= k)
      && (i < |t.seps| ==> k < t.seps[i])
  {
    var n := LowerBound(t.seps, k);
    if n < |t.seps| && t.seps[n] == k && n + 1 < |t.seps| {
      assert Fenced(t, n) && Fenced(t, n + 1);
      EndsBound(t.leaves[n + 1], First(t.leaves[n + 1]));
    }
  }

  ghost function Before(t: Tree, i: nat): Run
    requires i <= |t.leaves|
  {
    Flat(t.leaves[..i])
  }

  ghost function After(t: Tree, i: nat): Run
    requires i < |t.leaves|
  {
    Flat(t.leaves[i + 1..])
  }

  lemma FlatAt(t: Tree, i: nat)
    requires i < |t.leaves|
    ensures Flat(t.leaves) == Cat(Cat(Before(t, i), t.leaves[i]), After(t, i))
  {
    FlatAround(t.leaves, i, 1);
    JoinedSizes(t, i, 1);
  }

  lemma BeforeIsSmaller(t: Tree, i: nat, k: int)
    requires Ordered(t) && 0 < i < |t.leaves| && t.seps[i - 1] <= k
    ensures k !in Before(t, i).keys
  {
    assert Fenced(t, i - 1);
    OrderedChain(t, 0, i);
    assert t.leaves[0..i] == t.leaves[..i];
    ChainFlat(t.leaves[..i]);
    if k in Before(t, i).keys { EndsBound(Before(t, i), k); }
  }

  lemma AfterIsLarger(t: Tree, i: nat, k: int)
    requires Ordered(t) && i < |t.seps| && k < t.seps[i]
    ensures k !in After(t, i).keys
  {
    assert Fenced(t, i);
    OrderedChain(t, i + 1, |t.leaves|);
    assert t.leaves[i + 1..|t.leaves|] == t.leaves[i + 1..];
    ChainFlat(t.leaves[i + 1..]);
    if k in After(t, i).keys { EndsBound(After(t, i), k); }
  }

  lemma RoutedAlone(t: Tree, k: int)
    requires Ordered(t) && |t.leaves| > 0
    ensures var i := ChildIdx(t.seps, k);
      k !in Before(t, i).keys && k !in After(t, i).keys
  {
    var i := ChildIdx(t.seps, k);
    Route(t, k);
    if i > 0 { BeforeIsSmaller(t, i, k); }
    if i < |t.seps| { AfterIsLarger(t, i, k); }
  }

  lemma FlatSorted(t: Tree)
    requires Ordered(t)
    ensures Sorted(Flat(t.leaves).keys)
  {
    if |t.leaves| > 0 {
      OrderedChain(t, 0, |t.leaves|);
      assert t.leaves[0..|t.leaves|] == t.leaves;
      ChainFlat(t.leaves);
    }
  }

  /** A lookup in the routed leaf is a lookup in the whole tree. */
  lemma SearchIsLookup(t: Tree, k: int)
    requires Ordered(t) && |t.leaves| > 0
    ensures var leaf := t.leaves[ChildIdx(t.seps, k)]; var j := LowerBound(leaf.keys, k);
      && (k in Contents(t) <==> j < Size(leaf) && leaf.keys[j] == k)
      && (k in Contents(t) ==> Contents(t)[k] == leaf.vals[j])
  {
    var i := ChildIdx(t.seps, k);
    RoutedAlone(t, k);
    FlatAt(t, i);
    FlatSorted(t);
    LookupInMiddle(Before(t, i), t.leaves[i], After(t, i), k);
  }

  lemma LookupInMiddle(a: Run, b: Run, c: Run, k: int)
    requires var all := Cat(Cat(a, b), c); Sorted(all.keys) && Sorted(b.keys)
    requires k !in a.keys && k !in c.keys
    ensures var all := ToMap(Cat(Cat(a, b), c)); var j := LowerBound(b.keys, k);
      && (k in all <==> j < Size(b) && b.keys[j] == k)
      && (k in all ==> all[k] == b.vals[j])
  {
    var all := Cat(Cat(a, b), c);
    var j := LowerBound(b.keys, k);
    if k in all.keys {
      assert k in b.keys;
      LowerBoundOfPresent(b.keys, k);
    }
    if j < Size(b) && b.keys[j] == k {
      assert all.keys[Size(a) + j] == k && all.vals[Size(a) + j] == b.vals[j];
      LookupAt(all, Size(a) + j);
    }
  }

  // Changing one leaf.

  lemma LeafChangeMap(t: Tree, u: Tree, i: nat)
    requires Ordered(t) && i < |t.leaves| == |u.leaves| && u.leaves == t.leaves[i := u.leaves[i]]
    ensures forall x :: x in Before(t, i).keys ==> x !in t.leaves[i].keys && x !in After(t, i).keys
    ensures forall x :: x in t.leaves[i].keys ==> x !in After(t, i).keys
    ensures Flat(u.leaves) == Cat(Cat(Before(t, i), u.leaves[i]), After(t, i))
  {
    FlatAt(t, i);
    FlatSorted(t);
    SortedParts(Before(t, i).keys + t.leaves[i].keys, After(t, i).keys);
    SortedParts(Before(t, i).keys, t.leaves[i].keys);
    forall x | x in Before(t, i).keys || x in t.leaves[i].keys ensures x !in After(t, i).keys {
      assert x in Before(t, i).keys + t.leaves[i].keys;
    }
    FlatAt(u, i);
    assert u.leaves[..i] == t.leaves[..i] && u.leaves[i + 1..] == t.leaves[i + 1..];
  }

  lemma MapOfThree(a: Run, b: Run, c: Run)
    requires forall x :: x in a.keys ==> x !in b.keys && x !in c.keys
    requires forall x :: x in b.keys ==> x !in c.keys
    ensures ToMap(Cat(Cat(a, b), c)) == ToMap(a) + ToMap(b) + ToMap(c)
  {
    MapOfCat(a, b);
    MapOfCat(Cat(a, b), c);
  }

  lemma AddToLeafIsInsert(t: Tree, k: int, v: RecordAddress)
    requires Ordered(t) && |t.leaves| > 0 && k !in Contents(t)
    ensures Contents(AddToLeaf(t, k, v)) == Contents(t)[k := v]
    ensures Ordered(AddToLeaf(t, k, v))
  {
    var i := ChildIdx(t.seps, k);
    var u := AddToLeaf(t, k, v);
    var a, b, b', c := Before(t, i), t.leaves[i], u.leaves[i], After(t, i);
    LeafChangeMap(t, u, i);
    FlatAt(t, i);
    assert k !in a.keys && k !in b.keys && k !in c.keys;
    InsertedIsMapInsert(b, k, v);
    MapOfThree(a, b, c);
    MapOfThree(a, b', c);
    InsertMiddle(ToMap(a), ToMap(b), ToMap(c), k, v);
    AddToLeafOrdered(t, k, v);
  }

  lemma InsertMiddle(a: map<int, RecordAddress>, b: map<int, RecordAddress>, c: map<int, RecordAddress>,
                     k: int, v: RecordAddress)
    requires k !in c
    ensures a + b[k := v] + c == (a + b + c)[k := v]
  {
  }

  lemma RemoveMiddle(a: map<int, RecordAddress>, b: map<int, RecordAddress>, c: map<int, RecordAddress>, k: int)
    requires k !in a && k !in c
    ensures a + (b - {k}) + c == (a + b + c) - {k}
  {
  }

  lemma ReplacedOrdered(t: Tree, u: Tree, i: nat)
    requires Ordered(t) && i < |t.leaves| == |u.leaves| && u.seps == t.seps
    requires forall j :: 0 <= j < |t.leaves| && j != i ==> u.leaves[j] == t.leaves[j]
    requires Size(u.leaves[i]) > 0 && Sorted(u.leaves[i].keys)
    requires i > 0 ==> t.seps[i - 1] <= First(u.leaves[i])
    requires i < |t.seps| ==> Last(u.leaves[i]) < t.seps[i]
    ensures Ordered(u)
  {
    forall j | 0 <= j < |u.seps| ensures Fenced(u, j) {
      assert Fenced(t, j);
    }
  }

  lemma AddToLeafOrdered(t: Tree, k: int, v: RecordAddress)
    requires Ordered(t) && |t.leaves| > 0 && k !in t.leaves[ChildIdx(t.seps, k)].keys
    ensures Ordered(AddToLeaf(t, k, v))
  {
    var i := ChildIdx(t.seps, k);
    var u := AddToLeaf(t, k, v);
    Route(t, k);
    InsertedIsMapInsert(t.leaves[i], k, v);
    InsertedEnds(t.leaves[i], k, v);
    if i > 0 { assert Fenced(t, i - 1); }
    if i < |t.seps| { assert Fenced(t, i); }
    ReplacedOrdered(t, u, i);
  }

  lemma InsertedEnds(r: Run, k: int, v: RecordAddress)
    requires Sorted(r.keys) && Size(r) > 0
    ensures First(Inserted(r, k, v)) == if k <= First(r) then k else First(r)
    ensures Last(Inserted(r, k, v)) == if k <= Last(r) then Last(r) else k
  {
    var i := LowerBound(r.keys, k);
    if i < Size(r) { EndsBound(r, r.keys[i]); }
    EndsBound(r, r.keys[0]);
    if i > 0 { EndsBound(r, r.keys[i - 1]); }
  }

  lemma DropFromLeafIsRemove(t: Tree, k: int)
    requires Ordered(t) && |t.leaves| > 0
    ensures Contents(DropFromLeaf(t, k)) == Contents(t) - {k}
  {
    var i := ChildIdx(t.seps, k);
    var u := DropFromLeaf(t, k);
    var a, b, b', c := Before(t, i), t.leaves[i], u.leaves[i], After(t, i);
    LeafChangeMap(t, u, i);
    FlatAt(t, i);
    RoutedAlone(t, k);
    WithoutIsMapRemove(b, k);
    forall x | x in b'.keys ensures x in b.keys { assert x in ToMap(b'); }
    MapOfThree(a, b, c);
    MapOfThree(a, b', c);
    RemoveMiddle(ToMap(a), ToMap(b), ToMap(c), k);
  }

  lemma DropFromLeafOrdered(t: Tree, k: int)
    requires Ordered(t) && |t.leaves| > 0
    requires Size(DropFromLeaf(t, k).leaves[ChildIdx(t.seps, k)]) > 0
    ensures Ordered(DropFromLeaf(t, k))
  {
    var i := ChildIdx(t.seps, k);
    var u := DropFromLeaf(t, k);
    var b, b' := t.leaves[i], u.leaves[i];
    WithoutIsMapRemove(b, k);
    assert First(b') in b'.keys && First(b') in ToMap(b') && First(b') in b.keys;
    assert Last(b') in b'.keys && Last(b') in ToMap(b') && Last(b') in b.keys;
    EndsBound(b, First(b'));
    EndsBound(b, Last(b'));
    if i > 0 { assert Fenced(t, i - 1); }
    if i < |t.seps| { assert Fenced(t, i); }
    ReplacedOrdered(t, u, i);
  }

  // Separators.

  lemma {:induction false} StepsSorted(keys: seq<int>, i: nat, j: nat)
    requires i < j < |keys| && forall k :: 0 <= k < |keys| - 1 ==> Rises(keys, k)
    ensures keys[i] < keys[j]
    decreases j - i
  {
    assert Rises(keys, j - 1);
    if i < j - 1 { StepsSorted(keys, i, j - 1); }
  }

  ghost predicate Rises(keys: seq<int>, k: nat)
    requires k + 1 < |keys|
  {
    keys[k] < keys[k + 1]
  }

  lemma SepsSorted(t: Tree)
    requires Ordered(t)
    ensures Sorted(t.seps)
  {
    forall k | 0 <= k < |t.seps| - 1 ensures Rises(t.seps, k) {
      assert Fenced(t, k) && Fenced(t, k + 1);
      EndsBound(t.leaves[k + 1], First(t.leaves[k + 1]));
    }
    forall i, j | 0 <= i < j < |t.seps| ensures t.seps[i] < t.seps[j] {
      StepsSorted(t.seps, i, j);
    }
  }

  /** A key from the window of leaves `at` and `at + 1`, above the new separator `mid1`
      between them, belongs right behind that separator. */
  lemma SeparatorPosition(t: Tree, at: nat, mid1: int, mid2: int)
    requires Ordered(t) && at + 1 < |t.leaves| && mid1 < mid2
    requires mid1 in Joined(t, at, 2).keys && mid2 in Joined(t, at, 2).keys
    ensures LowerBound(t.seps[at := mid1], mid2) == at + 1
  {
    OrderedWindow(t, at, 2);
    var all := Joined(t, at, 2);
    EndsBound(all, mid1);
    EndsBound(all, mid2);
    SepsSorted(t);
    var s := t.seps[at := mid1];
    forall i | 0 <= i < at + 1 ensures s[i] < mid2 {
      if i < at { assert i == at - 1 || t.seps[i] < t.seps[at - 1]; }
    }
    LowerBoundUnique(s, mid2, at + 1);
  }
}
