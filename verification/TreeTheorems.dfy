/** Insert and remove refine the map operations and keep the tree well-formed, whatever the
    page capacities are. */
module TreeTheorems {
  import opened LeafRun
  import opened TreeSpec
  import opened TreeProofs

  /** In order, except that leaves of the window may be empty. */
  ghost predicate Almost(t: Tree, at: nat, m: nat)
    requires 0 < m && at + m <= |t.leaves|
  {
    var all := Joined(t, at, m);
    && OrderedOutside(t, at, m, First(all), Last(all))
    && Sorted(all.keys)
    && ((forall i :: at <= i < at + m ==> Size(t.leaves[i]) > 0) ==> Ordered(t))
  }

  lemma OrderedAlmost(t: Tree, at: nat, m: nat)
    requires Ordered(t) && 0 < m && at + m <= |t.leaves|
    ensures Almost(t, at, m)
  {
    OrderedWindow(t, at, m);
  }

  /** `u` holds the pairs of `t`, in order, and has its sizes outside the window. */
  ghost predicate Rearranged(t: Tree, u: Tree, at: nat, m: nat, p: nat)
    requires 0 < m && at + m <= |t.leaves|
  {
    && Flat(u.leaves) == Flat(t.leaves)
    && Ordered(u)
    && |u.leaves| == |t.leaves| - m + p
    && forall i :: 0 <= i < |u.leaves| && !(at <= i < at + p) ==>
      Size(u.leaves[i]) == Size(t.leaves[if i < at then i else i - p + m])
  }

  lemma EntriesRearrange(t: Tree, u: Tree, at: nat, m: nat, pieces: seq<Run>)
    requires 0 < m && at + m <= |t.leaves| && 0 < |pieces|
    requires Flat(u.leaves) == Flat(t.leaves) && Ordered(u)
    requires forall i :: 0 <= i <= |u.leaves| ==> RecutEntry(u, t, at, m, pieces, i)
    ensures Rearranged(t, u, at, m, |pieces|)
    ensures u.leaves[at] == pieces[0]
    ensures |pieces| > 1 ==> u.leaves[at + 1] == pieces[1]
    ensures |pieces| > 2 ==> u.leaves[at + 2] == pieces[2]
  {
    assert RecutEntry(u, t, at, m, pieces, 0);
    assert RecutEntry(u, t, at, m, pieces, at);
    assert |pieces| > 1 ==> RecutEntry(u, t, at, m, pieces, at + 1);
    assert |pieces| > 2 ==> RecutEntry(u, t, at, m, pieces, at + 2);
    forall i | 0 <= i < |u.leaves| && !(at <= i < at + |pieces|)
      ensures Size(u.leaves[i]) == Size(t.leaves[if i < at then i else i - |pieces| + m])
    {
      assert RecutEntry(u, t, at, m, pieces, i);
    }
  }

  lemma Recutting(t: Tree, at: nat, m: nat, pieces: seq<Run>)
    requires 0 < m && at + m <= |t.leaves| && 0 < |pieces|
    requires Almost(t, at, m) && Flat(pieces) == Joined(t, at, m)
    requires forall i :: 0 <= i < |pieces| ==> Size(pieces[i]) > 0
    ensures var u := Recut(t, at, m, pieces);
      && Rearranged(t, u, at, m, |pieces|)
      && u.leaves[at] == pieces[0]
      && (|pieces| > 1 ==> u.leaves[at + 1] == pieces[1])
      && (|pieces| > 2 ==> u.leaves[at + 2] == pieces[2])
  {
    RecutOrdered(t, at, m, pieces);
    var u := Recut(t, at, m, pieces);
    forall i | 0 <= i <= |u.leaves| ensures RecutEntry(u, t, at, m, pieces, i) {
      RecutAt(t, at, m, pieces, i);
    }
    EntriesRearrange(t, u, at, m, pieces);
  }

  lemma RecutInto2(t: Tree, at: nat, m: nat, a: Run, b: Run)
    requires 0 < m && at + m <= |t.leaves| && Almost(t, at, m)
    requires Cat(a, b) == Joined(t, at, m) && Size(a) > 0 && Size(b) > 0
    ensures var u := Recut(t, at, m, [a, b]);
      Rearranged(t, u, at, m, 2) && u.leaves[at] == a && u.leaves[at + 1] == b
  {
    FlatOfFew(a, b, b);
    Recutting(t, at, m, [a, b]);
  }

  lemma RecutInto3(t: Tree, at: nat, m: nat, a: Run, b: Run, d: Run)
    requires 0 < m && at + m <= |t.leaves| && Almost(t, at, m)
    requires Cat(Cat(a, b), d) == Joined(t, at, m) && Size(a) > 0 && Size(b) > 0 && Size(d) > 0
    ensures var u := Recut(t, at, m, [a, b, d]);
      Rearranged(t, u, at, m, 3) && u.leaves[at] == a && u.leaves[at + 1] == b && u.leaves[at + 2] == d
  {
    FlatOfFew(a, b, d);
    Recutting(t, at, m, [a, b, d]);
  }

  lemma Even2Correct(t: Tree, at: nat)
    requires at + 2 <= |t.leaves| && Almost(t, at, 2)
    requires Size(t.leaves[at]) + Size(t.leaves[at + 1]) >= 2
    ensures var u := Even2(t, at); var n := Size(t.leaves[at]) + Size(t.leaves[at + 1]);
      && Rearranged(t, u, at, 2, 2)
      && Size(u.leaves[at]) == n / 2 && Size(u.leaves[at + 1]) == n - n / 2
  {
    hide Recut, Ordered, OrderedOutside, Flat, Joined;
    var all := Joined(t, at, 2);
    JoinedSizes(t, at, 2);
    var s1 := Size(all) / 2;
    if Size(t.leaves[at]) != s1 {
      CutAt(all, s1);
      RecutInto2(t, at, 2, Take(all, s1), Drop(all, s1));
    }
  }

  lemma ThirdsCorrect(t: Tree, at: nat, m: nat)
    requires 2 <= m <= 3 && at + m <= |t.leaves| && Almost(t, at, m)
    requires Size(Joined(t, at, m)) >= 3
    ensures var u := Thirds(t, at, m); var n := Size(Joined(t, at, m)); var s2 := (n - n / 3) / 2;
      && Rearranged(t, u, at, m, 3)
      && Size(u.leaves[at]) == n / 3 && Size(u.leaves[at + 1]) == s2
      && Size(u.leaves[at + 2]) == n - n / 3 - s2
  {
    hide Recut, Rearranged, Joined, Cat, Take, Drop, Ordered, Flat;
    var all := Joined(t, at, m);
    var s1 := Size(all) / 3;
    var s2 := (Size(all) - s1) / 2;
    CutInThree(all, s1, s2);
    RecutInto3(t, at, m, Take(all, s1), Take(Drop(all, s1), s2), Drop(Drop(all, s1), s2));
  }

  lemma CutInThree(r: Run, s1: nat, s2: nat)
    requires s1 + s2 <= Size(r)
    ensures Cat(Cat(Take(r, s1), Take(Drop(r, s1), s2)), Drop(Drop(r, s1), s2)) == r
  {
  }

  lemma HalvesCorrect(t: Tree, at: nat, m: nat)
    requires (m == 1 || m == 3) && at + m <= |t.leaves| && Almost(t, at, m)
    requires Size(Joined(t, at, m)) >= 2
    ensures var u := Halves(t, at, m); var n := Size(Joined(t, at, m));
      && Rearranged(t, u, at, m, 2)
      && Size(u.leaves[at]) == n / 2 && Size(u.leaves[at + 1]) == n - n / 2
  {
    hide Recut, Rearranged, Joined, Ordered, Flat;
    var all := Joined(t, at, m);
    CutAt(all, Size(all) / 2);
    RecutInto2(t, at, m, Take(all, Size(all) / 2), Drop(all, Size(all) / 2));
  }

  lemma MergeCorrect(t: Tree)
    requires |t.leaves| == 2 && Almost(t, 0, 2) && Size(t.leaves[0]) + Size(t.leaves[1]) > 0
    ensures var u := Recut(t, 0, 2, [Joined(t, 0, 2)]);
      && Rearranged(t, u, 0, 2, 1)
      && Size(u.leaves[0]) == Size(t.leaves[0]) + Size(t.leaves[1])
  {
    var all := Joined(t, 0, 2);
    JoinedSizes(t, 0, 2);
    FlatOfFew(all, all, all);
    Recutting(t, 0, 2, [all]);
  }

  ghost predicate LeafSizes(t: Tree, lo: int, hi: int) {
    forall i :: 0 <= i < |t.leaves| ==> lo <= Size(t.leaves[i]) <= hi
  }

  /** Sizes of a rearranged tree: those of the window and those of the leaves left alone. */
  lemma WindowSizes(t: Tree, u: Tree, at: nat, m: nat, p: nat, lo: int, hi: int)
    requires 0 < m && at + m <= |t.leaves| && Rearranged(t, u, at, m, p)
    requires forall i :: 0 <= i < |t.leaves| && !(at <= i < at + m) ==> lo <= Size(t.leaves[i]) <= hi
    requires 1 <= p <= 3 && lo <= Size(u.leaves[at]) <= hi
    requires p > 1 ==> lo <= Size(u.leaves[at + 1]) <= hi
    requires p > 2 ==> lo <= Size(u.leaves[at + 2]) <= hi
    ensures LeafSizes(u, lo, hi)
  {
    forall i | 0 <= i < |u.leaves| ensures lo <= Size(u.leaves[i]) <= hi {
      if !(at <= i < at + p) {
        var j := if i < at then i else i - p + m;
        assert Size(u.leaves[i]) == Size(t.leaves[j]);
      } else {
        assert i == at || i == at + 1 || i == at + 2;
      }
    }
  }

  // Insert.

  /** One step of rebalancing: same pairs, in order, every leaf within its bounds. */
  ghost predicate Rebalanced(c: Caps, t: Tree, u: Tree) {
    && Flat(u.leaves) == Flat(t.leaves) && Ordered(u)
    && LeafSizes(u, Least(c, |u.leaves|), c.Max())
  }

  lemma EvenOverflow(c: Caps, t: Tree, at: nat)
    requires c.Valid() && Ordered(t) && at + 2 <= |t.leaves|
    requires Least(c, |t.leaves|) + c.phys <= Size(t.leaves[at]) + Size(t.leaves[at + 1]) <= 2 * c.Max()
    requires forall j :: 0 <= j < |t.leaves| && j != at && j != at + 1 ==>
      Least(c, |t.leaves|) <= Size(t.leaves[j]) <= c.Max()
    ensures Rebalanced(c, t, Even2(t, at)) && |Even2(t, at).leaves| == |t.leaves|
  {
    OrderedAlmost(t, at, 2);
    Even2Correct(t, at);
    WindowSizes(t, Even2(t, at), at, 2, 2, Least(c, |t.leaves|), c.Max());
  }

  lemma ThirdsOverflow(c: Caps, t: Tree, at: nat)
    requires c.Valid() && Ordered(t) && at + 2 <= |t.leaves|
    requires Size(t.leaves[at]) + Size(t.leaves[at + 1]) == c.phys + c.Max()
    requires forall j :: 0 <= j < |t.leaves| && j != at && j != at + 1 ==>
      Least(c, |t.leaves|) <= Size(t.leaves[j]) <= c.Max()
    ensures Rebalanced(c, t, Thirds(t, at, 2)) && |Thirds(t, at, 2).leaves| == |t.leaves| + 1
  {
    OrderedAlmost(t, at, 2);
    JoinedSizes(t, at, 2);
    ThirdsCorrect(t, at, 2);
    WindowSizes(t, Thirds(t, at, 2), at, 2, 3, c.Min(), c.Max());
  }

  lemma HalvesOverflow(c: Caps, t: Tree)
    requires c.Valid() && Ordered(t) && |t.leaves| == 1 && Size(t.leaves[0]) == c.phys
    ensures Rebalanced(c, t, Halves(t, 0, 1)) && |Halves(t, 0, 1).leaves| == 2
  {
    OrderedAlmost(t, 0, 1);
    JoinedSizes(t, 0, 1);
    HalvesCorrect(t, 0, 1);
    WindowSizes(t, Halves(t, 0, 1), 0, 1, 2, c.HalfMax(), c.Max());
  }

  lemma FixOverflowCorrect(c: Caps, t: Tree, i: nat)
    requires c.Valid() && Ordered(t) && i < |t.leaves| && Size(t.leaves[i]) == c.phys
    requires forall j :: 0 <= j < |t.leaves| && j != i ==> Least(c, |t.leaves|) <= Size(t.leaves[j]) <= c.Max()
    ensures var u := FixOverflow(c, t, i);
      Rebalanced(c, t, u) && |t.leaves| <= |u.leaves| <= |t.leaves| + 1
  {
    hide Rebalanced, Ordered, Halves, Even2, Thirds;
    var n := |t.leaves|;
    if n == 1 {
      HalvesOverflow(c, t);
    } else if i > 0 && Size(t.leaves[i - 1]) < c.Max() {
      EvenOverflow(c, t, i - 1);
    } else if i + 1 < n && Size(t.leaves[i + 1]) < c.Max() {
      EvenOverflow(c, t, i);
    } else {
      ThirdsOverflow(c, t, if i > 0 then i - 1 else i);
    }
  }

  lemma FirstPair(t: Tree, k: int, v: RecordAddress)
    requires |t.leaves| == 0
    ensures var u: Tree := RawTree([RawRun([k], [v])], []); Contents(u) == Contents(t)[k := v] && Ordered(u)
  {
    var one := RawRun([k], [v]);
    FlatOfFew(one, one, one);
    MapOfOne(k, v);
  }

  /** Inserting an absent key adds exactly that pair, keeps the leaves sorted and fenced by
      the separators, and keeps every leaf within its bounds; the tree is well-formed again
      as long as the root itself has not overflowed. */
  lemma InsertRefinesMap(c: Caps, t: Tree, k: int, v: RecordAddress)
    requires c.Valid() && Wellformed(c, t) && k !in Contents(t)
    ensures var u := Insert(c, t, k, v);
      && Contents(u) == Contents(t)[k := v]
      && Ordered(u)
      && LeafSizes(u, Least(c, |u.leaves|), c.Max())
      && (|u.seps| <= c.MaxInner() ==> Wellformed(c, u))
  {
    hide FixOverflow, Contents, Ordered, Flat;
    if |t.leaves| == 0 {
      FirstPair(t, k, v);
    } else {
      AddToLeafIsInsert(t, k, v);
      var i := ChildIdx(t.seps, k);
      var u := AddToLeaf(t, k, v);
      if Size(u.leaves[i]) > c.Max() {
        FixOverflowCorrect(c, u, i);
        SamePairs(u, FixOverflow(c, u, i));
      }
    }
  }

  lemma SamePairs(t: Tree, u: Tree)
    requires Flat(u.leaves) == Flat(t.leaves)
    ensures Contents(u) == Contents(t)
  {
  }

  // Remove.

  /** The state in which taking `k` out leaves two leaves that neither lend nor merge. */
  ghost predicate MergeGap(c: Caps, t: Tree, k: int) {
    && |t.leaves| == 2 && k in Contents(t)
    && var i := ChildIdx(t.seps, k);
      && Size(t.leaves[1 - i]) == c.HalfMax()
      && c.Max() - c.HalfMax() < Size(t.leaves[i]) - 1 < c.Min()
  }

  lemma EvenOfTwo(c: Caps, t: Tree)
    requires c.Valid() && |t.leaves| == 2 && Almost(t, 0, 2)
    requires 2 * c.HalfMax() <= Size(t.leaves[0]) + Size(t.leaves[1]) <= 2 * c.Max()
    ensures Rebalanced(c, t, Even2(t, 0)) && |Even2(t, 0).leaves| == 2
  {
    Even2Correct(t, 0);
    WindowSizes(t, Even2(t, 0), 0, 2, 2, c.HalfMax(), c.Max());
  }

  lemma MergeOfTwo(c: Caps, t: Tree)
    requires c.Valid() && |t.leaves| == 2 && Almost(t, 0, 2)
    requires 0 < Size(t.leaves[0]) + Size(t.leaves[1]) <= c.Max()
    ensures var u := Recut(t, 0, 2, [Joined(t, 0, 2)]);
      Rebalanced(c, t, u) && |u.leaves| == 1
  {
    MergeCorrect(t);
    WindowSizes(t, Recut(t, 0, 2, [Joined(t, 0, 2)]), 0, 2, 1, 1, c.Max());
  }

  lemma FixUnderflowOfTwo(c: Caps, t: Tree, i: nat)
    requires c.Valid() && |t.leaves| == 2 && i < 2 && Almost(t, 0, 2)
    requires c.HalfMax() <= Size(t.leaves[1 - i]) <= c.Max()
    requires c.HalfMax() - 1 <= Size(t.leaves[i]) < c.Min()
    ensures var (u, merged) := FixUnderflow(c, t, i);
      && Rebalanced(c, t, u) && 1 <= |u.leaves| <= 2
      && (merged <==> !(Size(t.leaves[1 - i]) == c.HalfMax() && c.Max() - c.HalfMax() < Size(t.leaves[i])))
  {
    hide Recut, Even2, Thirds, Halves, Ordered, OrderedOutside, Joined, Flat;
    var a, b := Size(t.leaves[0]), Size(t.leaves[1]);
    if Size(t.leaves[1 - i]) > c.HalfMax() {
      EvenOfTwo(c, t);
      assert FixUnderflow(c, t, i) == (Even2(t, 0), true);
    } else {
      JoinedSizes(t, 0, 2);
      if a + b <= c.Max() {
        MergeOfTwo(c, t);
      } else {
        assert a > 0 && b > 0 && Ordered(t);
      }
    }
  }

  lemma EvenUnderflow(c: Caps, t: Tree, at: nat)
    requires c.Valid() && |t.leaves| >= 3 && Ordered(t) && at + 2 <= |t.leaves|
    requires 2 * c.Min() <= Size(t.leaves[at]) + Size(t.leaves[at + 1]) <= 2 * c.Max()
    requires forall j :: 0 <= j < |t.leaves| && j != at && j != at + 1 ==> c.Min() <= Size(t.leaves[j]) <= c.Max()
    ensures Rebalanced(c, t, Even2(t, at)) && |Even2(t, at).leaves| == |t.leaves|
  {
    OrderedAlmost(t, at, 2);
    Even2Correct(t, at);
    WindowSizes(t, Even2(t, at), at, 2, 2, c.Min(), c.Max());
  }

  lemma ThreeUnderflow(c: Caps, t: Tree, at: nat)
    requires c.Valid() && Ordered(t) && at + 3 <= |t.leaves|
    requires forall j :: 0 <= j < |t.leaves| && !(at <= j < at + 3) ==> c.Min() <= Size(t.leaves[j]) <= c.Max()
    ensures var total := Size(t.leaves[at]) + Size(t.leaves[at + 1]) + Size(t.leaves[at + 2]);
      && (3 * c.Min() <= total <= 3 * c.Max() - 2 ==>
        Rebalanced(c, t, Thirds(t, at, 3)) && |Thirds(t, at, 3).leaves| == |t.leaves|)
      && (total == 3 * c.Min() - 1 ==>
        Rebalanced(c, t, Halves(t, at, 3)) && |Halves(t, at, 3).leaves| == |t.leaves| - 1)
  {
    hide Thirds, Halves, Joined, Recut, Flat, Fenced;
    OrderedAlmost(t, at, 3);
    JoinedSizes(t, at, 3);
    var total := Size(t.leaves[at]) + Size(t.leaves[at + 1]) + Size(t.leaves[at + 2]);
    if 3 * c.Min() <= total <= 3 * c.Max() - 2 {
      ThirdsCorrect(t, at, 3);
      WindowSizes(t, Thirds(t, at, 3), at, 3, 3, c.Min(), c.Max());
    } else if total == 3 * c.Min() - 1 {
      HalvesCorrect(t, at, 3);
      WindowSizes(t, Halves(t, at, 3), at, 3, 2, Least(c, |t.leaves| - 1), c.Max());
    }
  }

  lemma FixUnderflowOfMany(c: Caps, t: Tree, i: nat)
    requires c.Valid() && |t.leaves| >= 3 && i < |t.leaves| && Ordered(t)
    requires forall j :: 0 <= j < |t.leaves| && j != i ==> c.Min() <= Size(t.leaves[j]) <= c.Max()
    requires Size(t.leaves[i]) == c.Min() - 1
    ensures var (u, merged) := FixUnderflow(c, t, i);
      Rebalanced(c, t, u) && merged && |t.leaves| - 1 <= |u.leaves| <= |t.leaves|
  {
    hide Rebalanced, Ordered, Even2, Thirds, Halves, Joined, Recut, Caps.Min;
    var n := |t.leaves|;
    if i > 0 && Size(t.leaves[i - 1]) > c.Min() {
      EvenUnderflow(c, t, i - 1);
    } else if i + 1 < n && Size(t.leaves[i + 1]) > c.Min() {
      EvenUnderflow(c, t, i);
    } else {
      ThreeUnderflow(c, t, if i == 0 then 0 else if i == n - 1 then i - 2 else i - 1);
    }
  }

  lemma DropSizes(c: Caps, t: Tree, k: int)
    requires Ordered(t) && |t.leaves| > 0
    ensures var i := ChildIdx(t.seps, k); var u := DropFromLeaf(t, k);
      && (k in Contents(t) ==> Size(u.leaves[i]) == Size(t.leaves[i]) - 1)
      && (k !in Contents(t) ==> u == t)
      && (forall j :: 0 <= j < |t.leaves| && j != i ==> u.leaves[j] == t.leaves[j])
  {
    SearchIsLookup(t, k);
    assert k !in Contents(t) ==> DropFromLeaf(t, k).leaves == t.leaves;
  }

  lemma AlmostAfterDrop(t: Tree, k: int)
    requires Ordered(t) && |t.leaves| == 2
    ensures Almost(DropFromLeaf(t, k), 0, 2)
  {
    hide Ordered, Almost, Without;
    var i := ChildIdx(t.seps, k);
    var u := DropFromLeaf(t, k);
    if Size(u.leaves[i]) > 0 {
      DropFromLeafOrdered(t, k);
      OrderedAlmost(u, 0, 2);
    } else {
      OneIsEmpty(t, u, i);
    }
  }

  lemma OneIsEmpty(t: Tree, u: Tree, i: nat)
    requires Ordered(t) && |t.leaves| == |u.leaves| == 2 && i < 2
    requires Size(u.leaves[i]) == 0 && u.leaves[1 - i] == t.leaves[1 - i]
    ensures Almost(u, 0, 2)
  {
    hide Flat, Joined, Cat;
    JoinedSizes(u, 0, 2);
    CatNothing(t.leaves[1 - i], u.leaves[i]);
  }

  /** Removing a key takes exactly its pair out and keeps the tree well-formed. The removal
      ends in the failing merge guard in exactly one situation, `MergeGap`; even then the
      leaves hold the right pairs. */
  lemma RemoveRefinesMap(c: Caps, t: Tree, k: int)
    requires c.Valid() && Wellformed(c, t)
    ensures var (u, r) := Remove(c, t, k);
      && Contents(u) == Contents(t) - {k}
      && Wellformed(c, u)
      && (r == NotFound <==> k !in Contents(t))
      && (r == NotFound ==> u == t)
      && (r == MergeGuardFailed <==> MergeGap(c, t, k))
  {
    if |t.leaves| > 0 {
      DropSizes(c, t, k);
      DropFromLeafIsRemove(t, k);
      if k in Contents(t) {
        if |t.leaves| == 1 {
          RemoveFromRootLeaf(c, t, k);
        } else if |t.leaves| == 2 {
          RemoveFromTwo(c, t, k);
        } else {
          RemoveFromMany(c, t, k);
        }
      }
    }
  }

  lemma RemoveFromTwo(c: Caps, t: Tree, k: int)
    requires c.Valid() && Wellformed(c, t) && |t.leaves| == 2 && k in Contents(t)
    ensures var (u, r) := Remove(c, t, k);
      && Contents(u) == Contents(t) - {k} && Wellformed(c, u) && r != NotFound
      && (r == MergeGuardFailed <==> MergeGap(c, t, k))
  {
    hide FixUnderflow, Ordered, Almost, Flat, Without;
    var i := ChildIdx(t.seps, k);
    var u := DropFromLeaf(t, k);
    DropSizes(c, t, k);
    DropFromLeafIsRemove(t, k);
    if Size(u.leaves[i]) >= c.Min() {
      DropFromLeafOrdered(t, k);
    } else {
      AlmostAfterDrop(t, k);
      FixUnderflowOfTwo(c, u, i);
    }
  }

  lemma RemoveFromMany(c: Caps, t: Tree, k: int)
    requires c.Valid() && Wellformed(c, t) && |t.leaves| >= 3 && k in Contents(t)
    ensures var (u, r) := Remove(c, t, k);
      Contents(u) == Contents(t) - {k} && Wellformed(c, u) && r == Removed
  {
    hide Ordered, Flat, Without, FixUnderflow;
    var i := ChildIdx(t.seps, k);
    var u := DropFromLeaf(t, k);
    DropSizes(c, t, k);
    DropFromLeafIsRemove(t, k);
    DropFromLeafOrdered(t, k);
    if Size(u.leaves[i]) < c.Min() {
      FixUnderflowOfMany(c, u, i);
    }
  }

  lemma RemoveFromRootLeaf(c: Caps, t: Tree, k: int)
    requires c.Valid() && Wellformed(c, t) && |t.leaves| == 1 && k in Contents(t)
    ensures var (u, r) := Remove(c, t, k);
      Contents(u) == Contents(t) - {k} && Wellformed(c, u) && r == Removed
  {
    hide Contents, Ordered, Without;
    var u := DropFromLeaf(t, k);
    DropSizes(c, t, k);
    DropFromLeafIsRemove(t, k);
    if Size(u.leaves[0]) == 0 {
      NothingLeft(u);
    } else {
      DropFromLeafOrdered(t, k);
    }
  }

  lemma NothingLeft(u: Tree)
    requires |u.leaves| == 1 && Size(u.leaves[0]) == 0
    ensures Contents(u) == map[] == Contents(EmptyTree) && Ordered(EmptyTree)
  {
    FlatOfFew(u.leaves[0], u.leaves[0], u.leaves[0]);
    assert u.leaves == [u.leaves[0]];
  }
}
