/** What the B*+-tree does while its root is a leaf or sits directly over the leaves,
    written on values: the leaves in key order and the root's separators between them. */
module TreeSpec {
  import opened LeafRun

  /** Array capacities of a page: `phys` pairs in a leaf, `physInner` keys in an inner node. */
  datatype Caps = Caps(phys: nat, physInner: nat) {
    predicate Valid() { phys >= 4 && physInner >= 2 }
    function Max(): int { phys - 1 }
    function Min(): int { (2 * phys - 1) / 3 }
    function HalfMax(): int { Max() / 2 }
    function MaxInner(): int { physInner - 1 }
  }

  /** No leaves: the tree is empty. One leaf: it is the root. Otherwise the root has the
      separators `seps` and the leaves as children. */
  datatype RawTree = RawTree(leaves: seq<Run>, seps: seq<int>)

  type Tree = t: RawTree | |t.seps| == (if |t.leaves| == 0 then 0 else |t.leaves| - 1)
    witness RawTree([], [])

  const EmptyTree: Tree := RawTree([], [])

  function Flat(leaves: seq<Run>): Run {
    if leaves == [] then RawRun([], []) else Cat(leaves[0], Flat(leaves[1..]))
  }

  ghost function Contents(t: Tree): map<int, RecordAddress> {
    ToMap(Flat(t.leaves))
  }

  /** Which child of the root a key belongs to (`find_child_idx`). */
  function ChildIdx(seps: seq<int>, k: int): (i: nat)
    ensures i <= |seps|
    ensures i > 0 ==> seps[i - 1] <= k
  {
    var i := LowerBound(seps, k);
    if i < |seps| && seps[i] == k then i + 1 else i
  }

  /** Replace the `m` leaves from `at` on by `pieces`; the separators between the pieces
      become the first keys of all pieces but the first. */
  function Recut(t: Tree, at: nat, m: nat, pieces: seq<Run>): Tree
    requires 0 < m && at + m <= |t.leaves| && 0 < |pieces|
  {
    RawTree(t.leaves[..at] + pieces + t.leaves[at + m..],
            t.seps[..at] + FirstKeys(pieces[1..]) + t.seps[at + m - 1..])
  }

  function FirstKeys(pieces: seq<Run>): (ks: seq<int>)
    ensures |ks| == |pieces|
    ensures forall i :: 0 <= i < |pieces| ==> ks[i] == First(pieces[i])
  {
    seq(|pieces|, i requires 0 <= i < |pieces| => First(pieces[i]))
  }

  /** `r` cut into two runs, the first of size `s1`. */
  function Cut2(r: Run, s1: nat): seq<Run>
    requires s1 <= Size(r)
  {
    [Take(r, s1), Drop(r, s1)]
  }

  /** `r` cut into three runs of sizes `s1`, `s2` and the rest. */
  function Cut3(r: Run, s1: nat, s2: nat): seq<Run>
    requires s1 + s2 <= Size(r)
  {
    [Take(r, s1), Take(Drop(r, s1), s2), Drop(Drop(r, s1), s2)]
  }

  function Joined(t: Tree, at: nat, m: nat): Run
    requires at + m <= |t.leaves|
  {
    Flat(t.leaves[at..at + m])
  }

  /** 2 -> 2: even out two neighbours; nothing moves when the left one has its share. */
  function Even2(t: Tree, at: nat): Tree
    requires at + 2 <= |t.leaves|
  {
    var all := Joined(t, at, 2);
    var s1 := Size(all) / 2;
    if Size(t.leaves[at]) == s1 then t else Recut(t, at, 2, Cut2(all, s1))
  }

  /** 2 -> 3, 3 -> 3: share `m` neighbours' pairs over three leaves. */
  function Thirds(t: Tree, at: nat, m: nat): Tree
    requires 0 < m && at + m <= |t.leaves|
  {
    var all := Joined(t, at, m);
    var s1 := Size(all) / 3;
    Recut(t, at, m, Cut3(all, s1, (Size(all) - s1) / 2))
  }

  /** 1 -> 2, 3 -> 2: share `m` neighbours' pairs over two leaves. */
  function Halves(t: Tree, at: nat, m: nat): Tree
    requires 0 < m && at + m <= |t.leaves|
  {
    var all := Joined(t, at, m);
    Recut(t, at, m, Cut2(all, Size(all) / 2))
  }

  /** `h` is `n / 2` rounded down, said without dividing. */
  predicate IsHalf(n: int, h: int) { 2 * h <= n <= 2 * h + 1 }

  predicate IsThird(n: int, h: int) { 3 * h <= n <= 3 * h + 2 }

  function AddToLeaf(t: Tree, k: int, v: RecordAddress): Tree
    requires |t.leaves| > 0
  {
    var i := ChildIdx(t.seps, k);
    t.(leaves := t.leaves[i := Inserted(t.leaves[i], k, v)])
  }

  function DropFromLeaf(t: Tree, k: int): Tree
    requires |t.leaves| > 0
  {
    var i := ChildIdx(t.seps, k);
    t.(leaves := t.leaves[i := Without(t.leaves[i], k)])
  }

  /** What `handleLeafOverflow` does to leaf `i`. */
  function FixOverflow(c: Caps, t: Tree, i: nat): Tree
    requires i < |t.leaves|
  {
    if |t.leaves| == 1 then Halves(t, 0, 1)
    else if i > 0 && Size(t.leaves[i - 1]) < c.Max() then Even2(t, i - 1)
    else if i + 1 < |t.leaves| && Size(t.leaves[i + 1]) < c.Max() then Even2(t, i)
    else if i > 0 then Thirds(t, i - 1, 2)
    else Thirds(t, i, 2)
  }

  function Insert(c: Caps, t: Tree, k: int, v: RecordAddress): Tree
  {
    if |t.leaves| == 0 then RawTree([RawRun([k], [v])], [])
    else
      var i := ChildIdx(t.seps, k);
      var u := AddToLeaf(t, k, v);
      if Size(u.leaves[i]) <= c.Max() then u else FixOverflow(c, u, i)
  }

  datatype Removal = NotFound | Removed | MergeGuardFailed

  /** What `handleLeafUnderflow` does to leaf `i`; the flag is false when the leaf and its
      only sibling, which has nothing to lend, are too big to be merged. */
  function FixUnderflow(c: Caps, t: Tree, i: nat): (Tree, bool)
    requires |t.leaves| >= 2 && i < |t.leaves|
  {
    var n := |t.leaves|;
    var lender := if n == 2 then c.HalfMax() else c.Min();
    if i > 0 && Size(t.leaves[i - 1]) > lender then (Even2(t, i - 1), true)
    else if i + 1 < n && Size(t.leaves[i + 1]) > lender then (Even2(t, i), true)
    else if n == 2 then
      var all := Joined(t, 0, 2);
      if Size(all) <= c.Max() then (Recut(t, 0, 2, [all]), true) else (t, false)
    else if i == 0 then
      (if Size(t.leaves[2]) > c.Min() then Thirds(t, 0, 3) else Halves(t, 0, 3), true)
    else if i == n - 1 then
      (if Size(t.leaves[i - 2]) > c.Min() then Thirds(t, i - 2, 3) else Halves(t, i - 2, 3), true)
    else (Halves(t, i - 1, 3), true)
  }

  function Remove(c: Caps, t: Tree, k: int): (Tree, Removal)
  {
    if |t.leaves| == 0 then (t, NotFound)
    else
      var i := ChildIdx(t.seps, k);
      var u := DropFromLeaf(t, k);
      if u.leaves[i] == t.leaves[i] then (t, NotFound)
      else if |t.leaves| == 1 then
        (if Size(u.leaves[0]) == 0 then EmptyTree else u, Removed)
      else if Size(u.leaves[i]) >= c.Min() then (u, Removed)
      else
        var (w, merged) := FixUnderflow(c, u, i);
        (w, if merged then Removed else MergeGuardFailed)
  }

  // The invariant.

  ghost predicate Chain(leaves: seq<Run>) {
    && (forall i :: 0 <= i < |leaves| ==> Size(leaves[i]) > 0 && Sorted(leaves[i].keys))
    && (forall i :: 0 <= i < |leaves| - 1 ==> Linked(leaves, i))
  }

  ghost predicate Linked(leaves: seq<Run>, i: nat)
    requires i + 1 < |leaves|
  {
    Last(leaves[i]) < First(leaves[i + 1])
  }

  function First(r: Run): int {
    if Size(r) == 0 then 0 else r.keys[0]
  }

  function Last(r: Run): int {
    if Size(r) == 0 then 0 else r.keys[|r.keys| - 1]
  }

  /** Every leaf is sorted and not empty, and each separator lies between its neighbours. */
  ghost predicate Ordered(t: Tree) {
    && (forall i :: 0 <= i < |t.leaves| ==> Size(t.leaves[i]) > 0 && Sorted(t.leaves[i].keys))
    && (forall i :: 0 <= i < |t.seps| ==> Fenced(t, i))
  }

  ghost predicate Fenced(t: Tree, i: nat)
    requires i < |t.seps|
  {
    Last(t.leaves[i]) < t.seps[i] <= First(t.leaves[i + 1])
  }

  /** The least size of a leaf: none for a root leaf, half for two children, MIN beyond. */
  function Least(c: Caps, n: nat): int {
    if n <= 1 then 1 else if n == 2 then c.HalfMax() else c.Min()
  }

  ghost predicate Sizes(c: Caps, t: Tree) {
    && |t.seps| <= c.MaxInner()
    && forall i :: 0 <= i < |t.leaves| ==> Least(c, |t.leaves|) <= Size(t.leaves[i]) <= c.Max()
  }

  ghost predicate Wellformed(c: Caps, t: Tree) {
    Ordered(t) && Sizes(c, t)
  }
}
