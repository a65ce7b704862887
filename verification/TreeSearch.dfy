/** Searching a tree of any height: the descent ends at the only leaf that can hold the key,
    and the chain of leaves behind it holds nothing more for that key. */
module TreeSearch {
  import opened LeafRun
  import opened TreeSpec
  import opened TreeProofs
  import opened Pages
  import opened TreePages

  /** The leaves below `s` from left to right. */
  ghost function LeavesOf(s: Shape): (ls: seq<Shape>)
    ensures forall l :: l in ls ==> l.LeafShape?
    decreases s, if s.InnerShape? then |s.kids| + 1 else 0
  {
    if s.LeafShape? then [s] else LeavesUpTo(s, |s.kids|)
  }

  /** The leaves below the first `n` children of `s`. */
  ghost function LeavesUpTo(s: Shape, n: nat): (ls: seq<Shape>)
    requires s.InnerShape? && n <= |s.kids|
    ensures forall l :: l in ls ==> l.LeafShape?
    decreases s, n
  {
    if n == 0 then [] else LeavesUpTo(s, n - 1) + LeavesOf(s.kids[n - 1])
  }

  ghost function Runs(ls: seq<Shape>): (rs: seq<Run>)
    requires forall l :: l in ls ==> l.LeafShape?
    ensures |rs| == |ls|
  {
    seq<Run>(|ls|, i requires 0 <= i < |ls| => ls[i].run)
  }

  ghost function Ids(ls: seq<Shape>): (ids: seq<int>)
    ensures |ids| == |ls|
  {
    seq(|ls|, i requires 0 <= i < |ls| => ls[i].id)
  }

  /** Every pair in the tree. */
  ghost function Pairs(s: Shape): map<int, RecordAddress> {
    ToMap(Flat(Runs(LeavesOf(s))))
  }

  /** Separator `i` bounds the keys below child `j`. */
  ghost predicate Bounds(s: Shape, i: nat, j: nat)
    requires s.InnerShape? && i < |s.seps| && j < |s.kids|
  {
    forall l, k :: l in LeavesOf(s.kids[j]) && k in l.run.keys ==> if j <= i then k < s.seps[i] else s.seps[i] <= k
  }

  ghost predicate Separated(s: Shape) {
    s.InnerShape? ==>
      && |s.kids| == |s.seps| + 1 && Sorted(s.seps)
      && (forall i, j :: 0 <= i < |s.seps| && 0 <= j < |s.kids| ==> Bounds(s, i, j))
      && forall j :: 0 <= j < |s.kids| ==> Separated(s.kids[j])
  }

  /** The pages hold the tree `s`, its separators bound the children on both sides, and its
      leaves form an ordered chain. */
  ghost predicate Searchable(c: Caps, pages: seq<Page>, s: Shape) {
    && Represents(c, pages, s) && ShapeOk(s) && Separated(s)
    && Chain(Runs(LeavesOf(s)))
    && ChainStored(c, pages, Runs(LeavesOf(s)), Ids(LeavesOf(s)))
  }

  lemma {:induction false} UpToHas(s: Shape, n: nat, l: Shape)
    requires s.InnerShape? && n <= |s.kids|
    ensures l in LeavesUpTo(s, n) <==> exists j :: 0 <= j < n && l in LeavesOf(s.kids[j])
    decreases n
  {
    if n > 0 { UpToHas(s, n - 1, l); }
  }

  lemma {:induction false} DescentIsALeaf(s: Shape, k: int)
    requires ShapeOk(s)
    ensures Descend(s, k) in LeavesOf(s)
  {
    if s.InnerShape? {
      var i := ChildIdx(s.seps, k);
      DescentIsALeaf(s.kids[i], k);
      UpToHas(s, |s.kids|, Descend(s, k));
    }
  }

  lemma ChildBounds(seps: seq<int>, k: int)
    requires Sorted(seps)
    ensures var i := ChildIdx(seps, k);
      (i > 0 ==> seps[i - 1] <= k) && (i < |seps| ==> k < seps[i])
  {
  }

  /** No other leaf holds the key. */
  lemma {:induction false} OnlyLeaf(s: Shape, k: int, l: Shape)
    requires ShapeOk(s) && Separated(s) && l in LeavesOf(s) && k in l.run.keys
    ensures l == Descend(s, k)
    decreases s
  {
    if s.InnerShape? {
      var i := ChildIdx(s.seps, k);
      ChildBounds(s.seps, k);
      UpToHas(s, |s.kids|, l);
      var j :| 0 <= j < |s.kids| && l in LeavesOf(s.kids[j]);
      assert i > 0 ==> Bounds(s, i - 1, j);
      assert i < |s.seps| ==> Bounds(s, i, j);
      OnlyLeaf(s.kids[i], k, l);
    }
  }

  lemma {:induction false} FlatHas(rs: seq<Run>, k: int)
    ensures k in Flat(rs).keys <==> exists i :: 0 <= i < |rs| && k in rs[i].keys
    decreases |rs|
  {
    if rs != [] {
      FlatHas(rs[1..], k);
      if k in Flat(rs[1..]).keys {
        var i :| 0 <= i < |rs[1..]| && k in rs[1..][i].keys;
        assert k in rs[i + 1].keys;
      }
      if i :| 0 < i < |rs| && k in rs[i].keys { assert k in rs[1..][i - 1].keys; }
    }
  }

  /** The descent's leaf decides membership and value, and it is leaf number `li` of the chain. */
  lemma DescentDecides(c: Caps, pages: seq<Page>, s: Shape, k: int) returns (li: nat)
    requires Searchable(c, pages, s)
    ensures var ls, leaf := LeavesOf(s), Descend(s, k); var j := LowerBound(leaf.run.keys, k);
      && li < |ls| && ls[li] == leaf
      && (k in Pairs(s) <==> j < Size(leaf.run) && leaf.run.keys[j] == k)
      && (k in Pairs(s) ==> Pairs(s)[k] == leaf.run.vals[j])
  {
    var ls, leaf := LeavesOf(s), Descend(s, k);
    DescentIsALeaf(s, k);
    li :| 0 <= li < |ls| && ls[li] == leaf;
    var rs, j := Runs(ls), LowerBound(leaf.run.keys, k);
    ChainFlat(rs);
    FlatHas(rs, k);
    if k in Pairs(s) {
      var i :| 0 <= i < |rs| && k in rs[i].keys;
      OnlyLeaf(s, k, ls[i]);
      LowerBoundOfPresent(leaf.run.keys, k);
    }
    if j < Size(leaf.run) && leaf.run.keys[j] == k {
      assert k in rs[li].keys;
      ValueInFlat(rs, li, j);
    }
  }

  lemma ValueInFlat(rs: seq<Run>, li: nat, j: nat)
    requires Chain(rs) && li < |rs| && j < Size(rs[li])
    ensures var m := ToMap(Flat(rs)); rs[li].keys[j] in m && m[rs[li].keys[j]] == rs[li].vals[j]
  {
    hide Cat, Flat, Chain;
    ChainFlat(rs);
    FlatAround(rs, li, 1);
    var a, b := Flat(rs[..li]), Flat(rs[li + 1..]);
    assert rs[li..li + 1] == [rs[li]];
    FlatOfFew(rs[li], rs[li], rs[li]);
    ElementInMiddle(a, rs[li], b, j);
    LookupAt(Flat(rs), Size(a) + j);
  }

  lemma ElementInMiddle(a: Run, r: Run, b: Run, j: nat)
    requires j < Size(r)
    ensures var all := Cat(Cat(a, r), b);
      Size(a) + j < Size(all) && all.keys[Size(a) + j] == r.keys[j] && all.vals[Size(a) + j] == r.vals[j]
  {
  }

  /** The pair after a given one in the chain has a larger key. */
  lemma NextIsLarger(rs: seq<Run>, li: nat, j: nat)
    requires Chain(rs) && li < |rs| && j < Size(rs[li])
    ensures j + 1 < Size(rs[li]) ==> rs[li].keys[j] < rs[li].keys[j + 1]
    ensures j + 1 == Size(rs[li]) && li + 1 < |rs| ==> Size(rs[li + 1]) > 0 && rs[li].keys[j] < rs[li + 1].keys[0]
  {
    if li + 1 < |rs| { assert Linked(rs, li); }
  }

  // The trees `Valid` describes are searchable, and their pairs are their contents.

  lemma FlatShapeSearchable(c: Caps, pages: seq<Page>, rootId: int, firstLeafId: int, t: Tree, order: seq<int>)
    requires Stored(c, pages, rootId, firstLeafId, t, order) && |order| > 0 && Ordered(t)
    ensures var s := FlatShape(t, order, rootId);
      s.id == rootId && Searchable(c, pages, s) && Pairs(s) == Contents(t)
  {
    var s := FlatShape(t, order, rootId);
    FlatShapeRepresents(c, pages, rootId, firstLeafId, t, order);
    RepresentsOk(c, pages, s);
    FlatShapeLeaves(t, order, rootId);
    FlatShapeSeparated(t, order, rootId);
    OrderedChain(t, 0, |t.leaves|);
    assert t.leaves[0..|t.leaves|] == t.leaves;
  }

  lemma FlatShapeLeaves(t: Tree, order: seq<int>, rootId: int)
    requires |order| == |t.leaves| > 0
    ensures var ls := LeavesOf(FlatShape(t, order, rootId)); Runs(ls) == t.leaves && Ids(ls) == order
  {
    var s := FlatShape(t, order, rootId);
    if |order| > 1 { FlatUpTo(s, |order|); }
  }

  lemma {:induction false} FlatUpTo(s: Shape, n: nat)
    requires s.InnerShape? && n <= |s.kids| && forall i :: 0 <= i < |s.kids| ==> s.kids[i].LeafShape?
    ensures LeavesUpTo(s, n) == s.kids[..n]
    decreases n
  {
    if n > 0 {
      FlatUpTo(s, n - 1);
      assert LeavesOf(s.kids[n - 1]) == [s.kids[n - 1]];
    }
  }

  lemma FlatShapeSeparated(t: Tree, order: seq<int>, rootId: int)
    requires |order| == |t.leaves| > 0 && Ordered(t)
    ensures Separated(FlatShape(t, order, rootId))
  {
    var s := FlatShape(t, order, rootId);
    if |order| > 1 {
      SepsSorted(t);
      forall i, j | 0 <= i < |s.seps| && 0 <= j < |s.kids| ensures Bounds(s, i, j) {
        assert LeavesOf(s.kids[j]) == [s.kids[j]];
        forall k | k in t.leaves[j].keys ensures if j <= i then k < s.seps[i] else s.seps[i] <= k {
          KeyBetween(t, i, j, k);
        }
      }
    }
  }

  lemma KeyBetween(t: Tree, i: nat, j: nat, k: int)
    requires Ordered(t) && i < |t.seps| && j < |t.leaves| && k in t.leaves[j].keys
    ensures if j <= i then k < t.seps[i] else t.seps[i] <= k
  {
    SepsSorted(t);
    EndsBound(t.leaves[j], k);
    if j <= i { assert Fenced(t, j); } else { assert Fenced(t, j - 1); }
  }
}
