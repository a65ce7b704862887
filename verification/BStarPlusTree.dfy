/** The page-based B*+-tree. While the root is a leaf or lies over the leaves, `tree` is the
    value the pages stand for and `order` the page ids of its leaves in key order. */
module BStarPlusTree {
  import opened Bytes
  import opened LeafRun
  import opened TreeSpec
  import opened TreeProofs
  import opened TreeTheorems
  import opened TreeSearch
  import opened TreeUpdate
  import opened Pages
  import opened TreePages
  import opened TreeLayout
  import N = Node

  type Node = N.Node

  class BStarPlusTree {
    const caps: Caps
    const pager: Pager
    var rootId: int
    var firstLeafId: int
    ghost var tree: Tree
    ghost var order: seq<int>

    ghost predicate Valid()
      reads this, pager
    {
      caps.Valid() && Stored(caps, pager.pages, rootId, firstLeafId, tree, order)
    }

    constructor (c: Caps)
      requires c.Valid()
      ensures Valid() && caps == c && tree == EmptyTree && fresh(pager)
    {
      caps := c;
      pager := new Pager();
      rootId, firstLeafId := -1, -1;
      tree, order := EmptyTree, [];
      new;
      var metadataPageId := pager.AppendNewPage();
      pager.WritePage(metadataPageId, Meta(-1, -1));
    }

    method SetRootAndFirstLeafId(newRootId: int, newFirstLeafId: int)
      requires |pager.pages| > 0
      modifies `rootId, `firstLeafId, pager
      ensures rootId == newRootId && firstLeafId == newFirstLeafId
      ensures Wrote(old(pager.pages), pager.pages, {0}) && pager.pages[0] == Meta(newRootId, newFirstLeafId)
    {
      rootId, firstLeafId := newRootId, newFirstLeafId;
      pager.WritePage(0, Meta(rootId, firstLeafId));
    }

    method SetRootId(newRootId: int)
      requires |pager.pages| > 0
      modifies `rootId, pager
      ensures rootId == newRootId
      ensures Wrote(old(pager.pages), pager.pages, {0}) && pager.pages[0] == Meta(newRootId, firstLeafId)
    {
      rootId := newRootId;
      pager.WritePage(0, Meta(rootId, firstLeafId));
    }

    // Copies of the pages of this tree.

    ghost predicate LeafCopy(n: Node)
      reads n, n.keys, n.values, n.children, pager
    {
      n.pager == pager && n.caps == caps && n.isLeaf && n.Live()
    }

    ghost predicate InnerCopy(n: Node)
      reads n, n.keys, n.values, n.children, pager
    {
      n.pager == pager && n.caps == caps && !n.isLeaf && n.Live()
    }

    /** `n` is an up-to-date copy of leaf `i`. */
    ghost predicate LeafIs(n: Node, i: nat)
      requires i < |order| == |tree.leaves|
      reads this, n, n.keys, n.values, n.children, pager
    {
      LeafCopy(n) && n.nodeId == order[i] && n.run == tree.leaves[i] && n.nextLeaf == NextId(order, i)
    }

    ghost predicate RootIs(n: Node)
      reads this, n, n.keys, n.values, n.children, pager
    {
      InnerCopy(n) && n.nodeId == rootId && n.seps == tree.seps && n.kids == order
    }

    // The descent.

    /** The descent from the root to the leaf that can hold `key`, in a tree of any height,
        with the inner nodes on the way. */
    method FindLeaf(key: int, ghost shape: Shape) returns (leaf: Node, parentStack: seq<(int, nat)>)
      requires rootId == shape.id && Represents(caps, pager.pages, shape) && ShapeOk(shape)
      ensures fresh(leaf) && fresh(leaf.keys) && fresh(leaf.values) && fresh(leaf.children)
      ensures LeafCopy(leaf) && Descend(shape, key) == LeafShape(leaf.nodeId, leaf.run)
      ensures parentStack == Path(shape, key)
    {
      parentStack := [];
      ghost var s, target, path := shape, Descend(shape, key), Path(shape, key);
      var cur := LoadNode(rootId, s);
      while !cur.isLeaf
        invariant fresh(cur) && fresh(cur.keys) && fresh(cur.values) && fresh(cur.children)
        invariant cur.pager == pager && cur.caps == caps && cur.Live() && CopyOf(cur, s)
        invariant Represents(caps, pager.pages, s) && ShapeOk(s)
        invariant Descend(s, key) == target && parentStack + Path(s, key) == path
        decreases s
      {
        var idx := ChildIdx(cur.keys[..cur.keysSize], key);
        ghost var next := s.kids[idx];
        assert Path(s, key) == [(s.id, idx)] + Path(next, key);
        parentStack := parentStack + [(cur.nodeId, idx)];
        var childId := cur.children[idx];
        assert childId == cur.kids[idx];
        assert Represents(caps, pager.pages, next);
        cur := LoadNode(childId, next);
        s := next;
      }
      leaf := cur;
    }

    ghost predicate CopyOf(n: Node, s: Shape)
      reads n
    {
      && n.nodeId == s.id && n.isLeaf == s.LeafShape?
      && (s.LeafShape? ==> n.run == s.run)
      && (s.InnerShape? ==> n.seps == s.seps && n.kids == KidIds(s))
    }

    method LoadNode(id: int, ghost s: Shape) returns (n: Node)
      requires Represents(caps, pager.pages, s) && s.id == id
      ensures fresh(n) && fresh(n.keys) && fresh(n.values) && fresh(n.children)
      ensures n.pager == pager && n.caps == caps && n.Live() && CopyOf(n, s)
    {
      n := new N.Node.Load(id, caps, pager);
    }

    method LoadRoot(id: int) returns (root: Node)
      requires Valid() && |order| >= 2 && id == rootId
      ensures fresh(root) && fresh(root.keys) && fresh(root.values) && fresh(root.children)
      ensures RootIs(root)
    {
      root := new N.Node.Load(id, caps, pager);
    }

    method LoadChild(parent: Node, idx: nat) returns (leaf: Node)
      requires Valid() && |order| >= 2 && RootIs(parent) && idx < |order|
      ensures fresh(leaf) && fresh(leaf.keys) && fresh(leaf.values) && fresh(leaf.children)
      ensures LeafIs(leaf, idx) && leaf.nodeId != parent.nodeId
    {
      assert LeafAt(caps, pager.pages, tree.leaves, order, idx);
      assert parent.kids[idx] == parent.children[idx];
      leaf := new N.Node.Load(parent.children[idx], caps, pager);
    }

    lemma StoredNodePages()
      requires Valid()
      ensures forall i :: 1 <= i < |pager.pages| ==> NodePageAt(caps, pager.pages[i], i)
    {
      forall i | 1 <= i < |pager.pages| ensures NodePageAt(caps, pager.pages[i], i) {
        assert ConservedAt(caps, pager.pages, rootId, order, i);
      }
    }

    // 2 -> 2.

    /** Move pairs between neighbours until the left one has `n`. */
    method ShiftBetween(left: Node, right: Node, n: nat) returns (midKey: int)
      requires caps.Valid() && LeafCopy(left) && LeafCopy(right) && N.Apart(left, right)
      requires n <= caps.Max() && n <= left.keysSize + right.keysSize
      requires left.keysSize + right.keysSize - n <= caps.Max()
      modifies left, left.keys, left.values, right, right.keys, right.values, pager
      ensures left.nextLeaf == old(left.nextLeaf) && right.nextLeaf == old(right.nextLeaf)
      ensures LeafCopy(left) && LeafCopy(right)
      ensures var all := Cat(old(left.run), old(right.run));
        left.run == Take(all, n) && right.run == Drop(all, n)
      ensures right.keysSize > 0 ==> midKey == First(right.run)
      ensures Wrote(old(pager.pages), pager.pages, {left.nodeId, right.nodeId})
    {
      hide Cat, Take, Drop, First, HoldsLeaf, HoldsInner, N.Node.Mirrors;
      if left.keysSize > n {
        SentIsCut(left.run, right.run, n);
        midKey := left.SendToRightLeaf(right, left.keysSize - n);
      } else {
        TakenIsCut(left.run, right.run, n);
        midKey := left.TakeFromRightLeaf(right, n - left.keysSize);
      }
    }

    method Halve(n: nat) returns (h: nat)
      ensures IsHalf(n, h)
    {
      h := n / 2;
    }

    method RedistributeLeaves2to2(left: Node, right: Node, parent: Node, leftIdx: nat) returns (s1: nat)
      requires caps.Valid() && LeafCopy(left) && LeafCopy(right) && InnerCopy(parent)
      requires N.Apart(left, right) && N.Apart(left, parent) && N.Apart(right, parent)
      requires leftIdx < parent.keysSize && 2 <= left.keysSize + right.keysSize <= 2 * caps.Max()
      modifies left, left.keys, left.values, right, right.keys, right.values, parent, parent.keys, pager
      ensures left.nextLeaf == old(left.nextLeaf) && right.nextLeaf == old(right.nextLeaf)
      ensures parent.kids == old(parent.kids) && parent.keysSize == old(parent.keysSize)
      ensures LeafCopy(left) && LeafCopy(right) && InnerCopy(parent)
      ensures Wrote(old(pager.pages), pager.pages, {left.nodeId, right.nodeId, parent.nodeId})
      ensures IsHalf(old(left.keysSize) + old(right.keysSize), s1)
      ensures var all := Cat(old(left.run), old(right.run));
        && left.run == Take(all, s1) && right.run == Drop(all, s1)
        && parent.seps == if old(left.keysSize) == s1 then old(parent.seps)
                          else old(parent.seps)[leftIdx := First(right.run)]
    {
      hide HoldsLeaf, HoldsInner, N.Node.Mirrors, Cat, Take, Drop, First;
      ghost var p := pager.pages;
      var total := left.keysSize + right.keysSize;
      s1 := Halve(total);
      if left.keysSize != s1 {
        var newMidKey := ShiftBetween(left, right, s1);
        InnerKept(caps, p, pager.pages, {left.nodeId, right.nodeId}, parent.nodeId, parent.seps, parent.kids);
        ghost var q := pager.pages;
        parent.SetKey(newMidKey, leftIdx);
        LeafKept(caps, q, pager.pages, {parent.nodeId}, left.nodeId, left.run, left.nextLeaf);
        LeafKept(caps, q, pager.pages, {parent.nodeId}, right.nodeId, right.run, right.nextLeaf);
      } else {
        TakeNone(left.run, right.run);
      }
    }

    /** Evening out two neighbours of a stored tree is `Even2`. */
    method Balance2(left: Node, right: Node, parent: Node, leftIdx: nat)
      requires Valid() && leftIdx + 1 < |order| && N.Apart(left, right) && N.Apart(left, parent)
        && N.Apart(right, parent)
      requires LeafIs(left, leftIdx) && LeafIs(right, leftIdx + 1) && RootIs(parent)
      requires 2 <= left.keysSize + right.keysSize <= 2 * caps.Max()
      modifies `tree, pager, left, left.keys, left.values, right, right.keys, right.values, parent, parent.keys
      ensures Valid() && tree == Even2(old(tree), leftIdx)
    {
      hide Even2;
      ghost var p, t := pager.pages, tree;
      var s1 := RedistributeLeaves2to2(left, right, parent, leftIdx);
      EvenStored(caps, p, pager.pages, rootId, firstLeafId, t, order, leftIdx, s1);
      tree := Even2(t, leftIdx);
    }

    // 1 -> 2.

    /** A new root whose only child is `childId`. */
    method NewRootOver(childId: int) returns (newRoot: Node)
      requires |pager.pages| > 0
      requires forall i :: 1 <= i < |pager.pages| ==> NodePageAt(caps, pager.pages[i], i)
      modifies `rootId, pager
      ensures fresh(newRoot) && fresh(newRoot.keys) && fresh(newRoot.children) && fresh(newRoot.values)
      ensures InnerCopy(newRoot) && newRoot.seps == [] && newRoot.kids == [childId]
      ensures rootId == newRoot.nodeId && pager.pages[0] == Meta(rootId, firstLeafId)
      ensures Unused(caps, old(pager.pages), pager.pages, newRoot.nodeId)
      ensures SameBut(old(pager.pages), pager.pages, {0, newRoot.nodeId})
      ensures forall i :: 1 <= i < |pager.pages| ==> NodePageAt(caps, pager.pages[i], i)
    {
      newRoot := new N.Node.Create(false, caps, pager);
      SetRootId(newRoot.nodeId);
      newRoot.PushBackToInternal(childId);
    }

    /** A new empty leaf, added to `parent` behind its only child with a placeholder separator. */
    method NewLeafUnder(parent: Node) returns (rightLeaf: Node)
      requires caps.Valid() && InnerCopy(parent) && parent.keysSize == 0 && parent.nodeId >= 1
      requires forall i :: 1 <= i < |pager.pages| ==> NodePageAt(caps, pager.pages[i], i)
      modifies pager, parent, parent.keys, parent.children
      ensures fresh(rightLeaf) && fresh(rightLeaf.keys) && fresh(rightLeaf.children) && fresh(rightLeaf.values)
      ensures N.Apart(rightLeaf, parent)
      ensures InnerCopy(parent) && parent.seps == [0] && parent.kids == old(parent.kids) + [rightLeaf.nodeId]
      ensures LeafCopy(rightLeaf) && rightLeaf.keysSize == 0 && rightLeaf.nextLeaf == -1
      ensures Unused(caps, old(pager.pages), pager.pages, rightLeaf.nodeId)
      ensures SameBut(old(pager.pages), pager.pages, {parent.nodeId, rightLeaf.nodeId})
    {
      rightLeaf := new N.Node.Create(true, caps, pager);
      parent.InsertInInternal(0, rightLeaf.nodeId);
    }

    /** An even share of an overfull leaf moves to a new one, which is linked behind it. */
    method FillRight(node: Node, rightLeaf: Node, newRoot: Node) returns (s1: nat)
      requires caps.Valid() && LeafCopy(node) && LeafCopy(rightLeaf) && InnerCopy(newRoot)
      requires N.Apart(node, rightLeaf) && N.Apart(node, newRoot) && N.Apart(rightLeaf, newRoot)
      requires node.keysSize == caps.phys && rightLeaf.keysSize == 0 && newRoot.keysSize == 1
      modifies node, node.keys, node.values, rightLeaf, rightLeaf.keys, rightLeaf.values, newRoot, newRoot.keys, pager
      ensures rightLeaf.nextLeaf == old(rightLeaf.nextLeaf) && newRoot.kids == old(newRoot.kids)
      ensures LeafCopy(node) && LeafCopy(rightLeaf) && InnerCopy(newRoot)
      ensures Wrote(old(pager.pages), pager.pages, {node.nodeId, newRoot.nodeId, rightLeaf.nodeId})
      ensures IsHalf(old(node.keysSize), s1) && node.nextLeaf == rightLeaf.nodeId
      ensures node.run == Take(old(node.run), s1) && rightLeaf.run == Drop(old(node.run), s1)
      ensures newRoot.seps == [First(rightLeaf.run)]
    {
      hide Cat, Take, Drop, First, HoldsLeaf, HoldsInner, N.Node.Mirrors;
      CatNothing(node.run, rightLeaf.run);
      s1 := RedistributeLeaves2to2(node, rightLeaf, newRoot, 0);
      ghost var q := pager.pages;
      node.SetNext(rightLeaf.nodeId);
      LeafKept(caps, q, pager.pages, {node.nodeId}, rightLeaf.nodeId, rightLeaf.run, rightLeaf.nextLeaf);
      InnerKept(caps, q, pager.pages, {node.nodeId}, newRoot.nodeId, newRoot.seps, newRoot.kids);
    }

    /** A new root over `childId` and a new empty leaf. */
    method GrowRoot(childId: int) returns (newRoot: Node, rightLeaf: Node)
      requires caps.Valid() && |pager.pages| > 0 && 1 <= childId < |pager.pages| && !IsDeleted(pager.pages[childId])
      requires forall i :: 1 <= i < |pager.pages| ==> NodePageAt(caps, pager.pages[i], i)
      modifies `rootId, pager
      ensures fresh(newRoot) && fresh(newRoot.keys) && fresh(newRoot.children) && fresh(newRoot.values)
      ensures fresh(rightLeaf) && fresh(rightLeaf.keys) && fresh(rightLeaf.children) && fresh(rightLeaf.values)
      ensures N.Apart(rightLeaf, newRoot) && newRoot.nodeId != childId && rightLeaf.nodeId != childId
      ensures InnerCopy(newRoot) && newRoot.keysSize == 1 && newRoot.kids == [childId, rightLeaf.nodeId]
      ensures LeafCopy(rightLeaf) && rightLeaf.keysSize == 0 && rightLeaf.nextLeaf == -1
      ensures rootId == newRoot.nodeId && pager.pages[0] == Meta(rootId, firstLeafId)
      ensures Unused(caps, old(pager.pages), pager.pages, newRoot.nodeId)
      ensures Unused(caps, old(pager.pages), pager.pages, rightLeaf.nodeId)
      ensures SameBut(old(pager.pages), pager.pages, {0, newRoot.nodeId, rightLeaf.nodeId})
    {
      ghost var p := pager.pages;
      newRoot := NewRootOver(childId);
      ghost var q := pager.pages;
      rightLeaf := NewLeafUnder(newRoot);
      SameButTrans(p, q, pager.pages, {0, newRoot.nodeId}, {newRoot.nodeId, rightLeaf.nodeId},
                   {0, newRoot.nodeId, rightLeaf.nodeId});
    }

    method SplitLeaf1to2(node: Node)
      requires Valid() && |order| == 1 && LeafIs(node, 0) && node.keysSize == caps.phys
      modifies this, pager, node, node.keys, node.values
      ensures Valid() && tree == Halves(old(tree), 0, 1)
    {
      hide Halves, HoldsLeaf, HoldsInner, N.Node.Mirrors;
      ghost var p, t := pager.pages, tree;
      StoredNodePages();
      IdsOf(caps, p, rootId, firstLeafId, t, order, 0);
      assert order == [node.nodeId];
      assert ConservedAt(caps, p, rootId, order, node.nodeId);
      var newRoot, rightLeaf := GrowRoot(node.nodeId);
      ghost var q := pager.pages;
      LeafKept(caps, p, q, {0, newRoot.nodeId, rightLeaf.nodeId}, node.nodeId, node.run, node.nextLeaf);
      var s1 := FillRight(node, rightLeaf, newRoot);
      SameButTrans(p, q, pager.pages, {0, newRoot.nodeId, rightLeaf.nodeId},
                   {node.nodeId, newRoot.nodeId, rightLeaf.nodeId},
                   {0, node.nodeId, newRoot.nodeId, rightLeaf.nodeId});
      NewRootStored(caps, p, pager.pages, node.nodeId, t, newRoot.nodeId, rightLeaf.nodeId, s1);
      tree := Halves(t, 0, 1);
      order := [node.nodeId, rightLeaf.nodeId];
    }

    // Moving pairs along three leaves.

    /** From `middle` to `right` until it has `s3` pairs, then from `left`, down to `s1`, to `middle`. */
    method SpreadRight(left: Node, middle: Node, right: Node, s1: nat, s3: nat) returns (mid1: int, mid2: int)
      requires caps.Valid() && LeafCopy(left) && LeafCopy(middle) && LeafCopy(right)
      requires N.Apart(left, middle) && N.Apart(left, right) && N.Apart(middle, right)
      requires right.keysSize <= s3 <= right.keysSize + middle.keysSize && 0 < s3 <= caps.Max() && s1 <= left.keysSize
      requires 0 < left.keysSize + middle.keysSize + right.keysSize - s1 - s3 <= caps.Max()
      modifies pager, left, middle, middle.keys, middle.values, right, right.keys, right.values
      ensures left.nextLeaf == old(left.nextLeaf) && middle.nextLeaf == old(middle.nextLeaf)
        && right.nextLeaf == old(right.nextLeaf)
      ensures LeafCopy(left) && LeafCopy(middle) && LeafCopy(right)
      ensures Wrote(old(pager.pages), pager.pages, {left.nodeId, middle.nodeId, right.nodeId})
      ensures var kept := old(middle.keysSize) - (s3 - old(right.keysSize));
        && left.run == Take(old(left.run), s1)
        && middle.run == Cat(Drop(old(left.run), s1), Take(old(middle.run), kept))
        && right.run == Cat(Drop(old(middle.run), kept), old(right.run))
      ensures mid1 == First(middle.run) && mid2 == First(right.run)
    {
      hide Cat, Take, Drop, First, HoldsLeaf, HoldsInner, N.Node.Mirrors;
      ghost var p := pager.pages;
      mid2 := middle.SendToRightLeaf(right, s3 - right.keysSize);
      LeafKept(caps, p, pager.pages, {middle.nodeId, right.nodeId}, left.nodeId, left.run, left.nextLeaf);
      ghost var q := pager.pages;
      mid1 := left.SendToRightLeaf(middle, left.keysSize - s1);
      LeafKept(caps, q, pager.pages, {left.nodeId, middle.nodeId}, right.nodeId, right.run, right.nextLeaf);
    }

    /** From `middle` to `left` until it has `s1` pairs, then from `right` to `middle` until
        that has `s2`. */
    method SpreadLeft(left: Node, middle: Node, right: Node, s1: nat, s2: nat) returns (mid1: int, mid2: int)
      requires caps.Valid() && LeafCopy(left) && LeafCopy(middle) && LeafCopy(right)
      requires N.Apart(left, middle) && N.Apart(left, right) && N.Apart(middle, right)
      requires left.keysSize <= s1 <= caps.Max() && s1 - left.keysSize < middle.keysSize
      requires middle.keysSize - (s1 - left.keysSize) <= s2 <= caps.Max()
      requires s1 + s2 <= left.keysSize + middle.keysSize + right.keysSize && right.keysSize <= caps.Max()
      modifies pager, left, left.keys, left.values, middle, middle.keys, middle.values, right, right.keys, right.values
      ensures left.nextLeaf == old(left.nextLeaf) && middle.nextLeaf == old(middle.nextLeaf)
        && right.nextLeaf == old(right.nextLeaf)
      ensures LeafCopy(left) && LeafCopy(middle) && LeafCopy(right)
      ensures Wrote(old(pager.pages), pager.pages, {left.nodeId, middle.nodeId, right.nodeId})
      ensures var x := s1 - old(left.keysSize); var y := s2 - (old(middle.keysSize) - x);
        && left.run == Cat(old(left.run), Take(old(middle.run), x))
        && middle.run == Cat(Drop(old(middle.run), x), Take(old(right.run), y))
        && right.run == Drop(old(right.run), y)
      ensures mid1 == First(middle.run) && (right.keysSize > 0 ==> mid2 == First(right.run))
    {
      hide Cat, Take, Drop, First, HoldsLeaf, HoldsInner, N.Node.Mirrors;
      ghost var p := pager.pages;
      mid1 := left.TakeFromRightLeaf(middle, s1 - left.keysSize);
      LeafKept(caps, p, pager.pages, {left.nodeId, middle.nodeId}, right.nodeId, right.run, right.nextLeaf);
      ghost var q, kept := pager.pages, middle.run;
      mid2 := middle.TakeFromRightLeaf(right, s2 - middle.keysSize);
      FirstOfCat(kept, Take(old(right.run), s2 - Size(kept)));
      LeafKept(caps, q, pager.pages, {middle.nodeId, right.nodeId}, left.nodeId, left.run, left.nextLeaf);
    }

    lemma FirstOfCat(a: Run, b: Run)
      requires Size(a) > 0
      ensures First(Cat(a, b)) == First(a)
    {
    }

    /** `total / 3`, and half of what remains. */
    method ThreeShares(total: nat) returns (s1: nat, s2: nat)
      ensures IsThird(total, s1) && IsHalf(total - s1, s2)
    {
      s1 := total / 3;
      s2 := (total - s1) / 2;
    }

    // 2 -> 3.

    /** Two leaves share with the new one behind them. */
    method ShareWithNew(left: Node, right: Node, n3: Node) returns (s1: nat, s2: nat, mid1: int, mid2: int)
      requires caps.Valid() && LeafCopy(left) && LeafCopy(right) && LeafCopy(n3)
      requires N.Apart(left, right) && N.Apart(left, n3) && N.Apart(right, n3)
      requires n3.keysSize == 0 && left.keysSize + right.keysSize == caps.phys + caps.Max()
      requires left.keysSize >= caps.Max() && right.keysSize >= caps.Max()
      modifies pager, left, right, right.keys, right.values, n3, n3.keys, n3.values
      ensures left.nextLeaf == old(left.nextLeaf) && right.nextLeaf == old(right.nextLeaf)
        && n3.nextLeaf == old(n3.nextLeaf)
      ensures LeafCopy(left) && LeafCopy(right) && LeafCopy(n3)
      ensures Wrote(old(pager.pages), pager.pages, {left.nodeId, right.nodeId, n3.nodeId})
      ensures var all := Cat(old(left.run), old(right.run));
        && AreThirds(all, s1, s2)
        && left.run == Take(all, s1) && right.run == Take(Drop(all, s1), s2) && n3.run == Drop(Drop(all, s1), s2)
      ensures mid1 == First(right.run) && mid2 == First(n3.run)
    {
      hide Cat, Take, Drop, First, HoldsLeaf, HoldsInner, N.Node.Mirrors;
      var total := left.keysSize + right.keysSize;
      s1, s2 := ThreeShares(total);
      var s3 := total - s1 - s2;
      CutBySending(left.run, right.run, n3.run, s1, right.keysSize - s3);
      CatNothing(Cat(left.run, right.run), n3.run);
      mid1, mid2 := SpreadRight(left, right, n3, s1, s3);
    }

    method LinkBehind(right: Node, n3: Node)
      requires LeafCopy(right) && LeafCopy(n3) && N.Apart(right, n3)
      modifies pager, right, n3
      ensures LeafCopy(right) && LeafCopy(n3) && Wrote(old(pager.pages), pager.pages, {right.nodeId, n3.nodeId})
      ensures right.run == old(right.run) && right.nextLeaf == n3.nodeId
      ensures n3.run == old(n3.run) && n3.nextLeaf == old(right.nextLeaf)
    {
      hide HoldsLeaf, HoldsInner, N.Node.Mirrors;
      ghost var q := pager.pages;
      n3.SetNext(right.nextLeaf);
      LeafKept(caps, q, pager.pages, {n3.nodeId}, right.nodeId, right.run, right.nextLeaf);
      ghost var p := pager.pages;
      right.SetNext(n3.nodeId);
      LeafKept(caps, p, pager.pages, {right.nodeId}, n3.nodeId, n3.run, n3.nextLeaf);
    }

    ghost predicate AreThirds(all: Run, s1: nat, s2: nat) {
      IsThird(Size(all), s1) && IsHalf(Size(all) - s1, s2)
    }

    /** The leaf part of a 2 -> 3 split. */
    method SplitPages(left: Node, right: Node) returns (newId: int, s1: nat, s2: nat, mid1: int, mid2: int)
      requires caps.Valid() && |pager.pages| > 0
      requires forall i :: 1 <= i < |pager.pages| ==> NodePageAt(caps, pager.pages[i], i)
      requires LeafCopy(left) && LeafCopy(right) && N.Apart(left, right)
      requires left.keysSize + right.keysSize == caps.phys + caps.Max()
      requires left.keysSize >= caps.Max() && right.keysSize >= caps.Max()
      modifies pager, left, right, right.keys, right.values
      ensures Available(old(pager.pages), newId)
      ensures SameBut(old(pager.pages), pager.pages, {left.nodeId, right.nodeId, newId})
      ensures var all := Cat(old(left.run), old(right.run));
        && AreThirds(all, s1, s2)
        && HoldsLeaf(caps, pager.pages, left.nodeId, Take(all, s1), old(left.nextLeaf))
        && HoldsLeaf(caps, pager.pages, right.nodeId, Take(Drop(all, s1), s2), newId)
        && HoldsLeaf(caps, pager.pages, newId, Drop(Drop(all, s1), s2), old(right.nextLeaf))
        && mid1 == First(Take(Drop(all, s1), s2)) && mid2 == First(Drop(Drop(all, s1), s2))
    {
      hide Cat, Take, Drop, First, HoldsLeaf, HoldsInner, N.Node.Mirrors, AreThirds;
      ghost var p := pager.pages;
      OnPages(left, right);
      var n3 := NewLeafBeside(left, right);
      ghost var q := pager.pages;
      newId := n3.nodeId;
      s1, s2, mid1, mid2 := ShareWithNew(left, right, n3);
      ghost var r := pager.pages;
      LinkBehind(right, n3);
      LeafKept(caps, r, pager.pages, {right.nodeId, newId}, left.nodeId, left.run, left.nextLeaf);
      SameButTrans(p, q, r, {newId}, {left.nodeId, right.nodeId, newId}, {left.nodeId, right.nodeId, newId});
      SameButTrans(p, r, pager.pages, {left.nodeId, right.nodeId, newId}, {right.nodeId, newId},
                   {left.nodeId, right.nodeId, newId});
    }

    /** A new empty leaf on a page of its own. */
    method NewLeafBeside(left: Node, right: Node) returns (n3: Node)
      requires |pager.pages| > 0
      requires forall i :: 1 <= i < |pager.pages| ==> NodePageAt(caps, pager.pages[i], i)
      requires LeafCopy(left) && LeafCopy(right)
      modifies pager
      ensures fresh(n3) && fresh(n3.keys) && fresh(n3.values) && fresh(n3.children)
      ensures LeafCopy(n3) && n3.keysSize == 0 && n3.nextLeaf == -1 && N.Apart(left, n3) && N.Apart(right, n3)
      ensures LeafCopy(left) && LeafCopy(right)
      ensures Available(old(pager.pages), n3.nodeId) && SameBut(old(pager.pages), pager.pages, {n3.nodeId})
    {
      hide N.Node.Mirrors;
      ghost var p := pager.pages;
      n3 := new N.Node.Create(true, caps, pager);
      LeafKept(caps, p, pager.pages, {n3.nodeId}, left.nodeId, left.run, left.nextLeaf);
      LeafKept(caps, p, pager.pages, {n3.nodeId}, right.nodeId, right.run, right.nextLeaf);
    }

    lemma OnPages(left: Node, right: Node)
      requires LeafCopy(left) && LeafCopy(right)
      ensures 0 <= left.nodeId < |pager.pages| && 0 <= right.nodeId < |pager.pages|
    {
    }

    /** A copy of an inner page. */
    method LoadInner(id: int, ghost seps: seq<int>, ghost kids: seq<int>) returns (n: Node)
      requires HoldsInner(caps, pager.pages, id, seps, kids)
      ensures fresh(n) && fresh(n.keys) && fresh(n.values) && fresh(n.children)
      ensures InnerCopy(n) && n.nodeId == id && n.seps == seps && n.kids == kids && |kids| == |seps| + 1
    {
      n := new N.Node.Load(id, caps, pager);
    }

    /** The root's part of the split: the new separators and the new child. */
    method AddSeparators(parentId: int, leftIdx: nat, mid1: int, mid2: int, newId: int,
                         ghost seps: seq<int>, ghost kids: seq<int>)
      requires HoldsInner(caps, pager.pages, parentId, seps, kids)
      requires leftIdx < |seps| < caps.physInner && LowerBound(seps[leftIdx := mid1], mid2) == leftIdx + 1
      modifies pager
      ensures Wrote(old(pager.pages), pager.pages, {parentId})
      ensures |kids| == |seps| + 1
      ensures HoldsInner(caps, pager.pages, parentId, SplitSeps(seps, leftIdx, mid1, mid2),
                         WithNew(kids, leftIdx + 2, newId))
    {
      var parent := LoadInner(parentId, seps, kids);
      hide HoldsLeaf, HoldsInner, N.Node.Mirrors, SplitSeps;
      parent.SetKey(mid1, leftIdx);
      parent.InsertInInternal(mid2, newId);
      SplitSepsIs(seps, leftIdx, mid1, mid2);
    }

    method SplitLeaves2to3(left: Node, right: Node, parentStack: seq<(int, nat)>, leftIdx: nat)
      requires Valid() && Ordered(tree) && leftIdx + 1 < |order| && N.Apart(left, right)
      requires LeafIs(left, leftIdx) && LeafIs(right, leftIdx + 1)
      requires left.keysSize + right.keysSize == caps.phys + caps.Max()
      requires left.keysSize >= caps.Max() && right.keysSize >= caps.Max()
      requires |parentStack| == 1 && parentStack[0].0 == rootId && |tree.seps| < caps.MaxInner()
      modifies `tree, `order, pager, left, right, right.keys, right.values
      ensures Valid() && tree == Thirds(old(tree), leftIdx, 2)
    {
      hide Thirds, Cat, Take, Drop, First, WithNew, SplitSeps;
      ghost var p, t := pager.pages, tree;
      StoredNodePages();
      IdsOf(caps, p, rootId, firstLeafId, t, order, leftIdx);
      IdsOf(caps, p, rootId, firstLeafId, t, order, leftIdx + 1);
      var newId, s1, s2, mid1, mid2 := SplitPages(left, right);
      AvailableUnused(caps, p, rootId, firstLeafId, t, order, newId);
      SplitPosition(t, leftIdx, s1, s2);
      AddSeparators(parentStack[0].0, leftIdx, mid1, mid2, newId, t.seps, order);
      Thirds2Stored(caps, p, pager.pages, rootId, firstLeafId, t, order, leftIdx, newId, s1, s2);
      tree, order := Thirds(t, leftIdx, 2), WithNew(order, leftIdx + 2, newId);
    }

    lemma SplitPosition(t: Tree, at: nat, s1: nat, s2: nat)
      requires Ordered(t) && at + 1 < |t.leaves|
      requires var all := Cat(t.leaves[at], t.leaves[at + 1]); s1 + s2 < Size(all) && s2 > 0
      ensures var all := Cat(t.leaves[at], t.leaves[at + 1]);
        LowerBound(t.seps[at := First(Take(Drop(all, s1), s2))], First(Drop(Drop(all, s1), s2))) == at + 1
    {
      var all := Cat(t.leaves[at], t.leaves[at + 1]);
      JoinedSizes(t, at, 2);
      OrderedWindow(t, at, 2);
      assert First(Take(Drop(all, s1), s2)) == all.keys[s1] && First(Drop(Drop(all, s1), s2)) == all.keys[s1 + s2];
      SeparatorPosition(t, at, all.keys[s1], all.keys[s1 + s2]);
    }

    // 3 -> 3.

    /** The pages of three leaves that share `all`, with the separators between them. */
    ghost predicate PagesShare(all: Run, s1: nat, s2: nat, mid1: int, mid2: int,
                               ids: (int, int, int), nexts: (int, int, int))
      reads pager
    {
      && AreThirds(all, s1, s2)
      && HoldsLeaf(caps, pager.pages, ids.0, Take(all, s1), nexts.0)
      && HoldsLeaf(caps, pager.pages, ids.1, Take(Drop(all, s1), s2), nexts.1)
      && HoldsLeaf(caps, pager.pages, ids.2, Drop(Drop(all, s1), s2), nexts.2)
      && mid1 == First(Take(Drop(all, s1), s2)) && mid2 == First(Drop(Drop(all, s1), s2))
    }

    /** The left leaf is short and the right one can lend. */
    method ShareFromRight(left: Node, middle: Node, right: Node) returns (s1: nat, s2: nat, mid1: int, mid2: int)
      requires caps.Valid() && LeafCopy(left) && LeafCopy(middle) && LeafCopy(right)
      requires N.Apart(left, middle) && N.Apart(left, right) && N.Apart(middle, right)
      requires LeftShort(caps, left.keysSize, middle.keysSize, right.keysSize)
      modifies pager, left, left.keys, left.values, middle, middle.keys, middle.values, right, right.keys, right.values
      ensures Wrote(old(pager.pages), pager.pages, {left.nodeId, middle.nodeId, right.nodeId})
      ensures PagesShare(Cat(Cat(old(left.run), old(middle.run)), old(right.run)), s1, s2, mid1, mid2,
                         (left.nodeId, middle.nodeId, right.nodeId),
                         old((left.nextLeaf, middle.nextLeaf, right.nextLeaf)))
    {
      hide Cat, Take, Drop, First, Caps.Min, IsThird, IsHalf, LeftShort, HoldsLeaf, HoldsInner, N.Node.Mirrors;
      ghost var a, b, d := left.keysSize, middle.keysSize, right.keysSize;
      s1, s2 := ThreeShares(left.keysSize + middle.keysSize + right.keysSize);
      LeftShortBounds(caps, a, b, d, s1, s2);
      CutByTaking(left.run, middle.run, right.run, s1 - a, s2 - (b - (s1 - a)));
      mid1, mid2 := SpreadLeft(left, middle, right, s1, s2);
    }

    /** The right leaf is short and the left one can lend. */
    method ShareFromLeft(left: Node, middle: Node, right: Node) returns (s1: nat, s2: nat, mid1: int, mid2: int)
      requires caps.Valid() && LeafCopy(left) && LeafCopy(middle) && LeafCopy(right)
      requires N.Apart(left, middle) && N.Apart(left, right) && N.Apart(middle, right)
      requires LeftShort(caps, right.keysSize, middle.keysSize, left.keysSize)
      modifies pager, left, left.keys, left.values, middle, middle.keys, middle.values, right, right.keys, right.values
      ensures Wrote(old(pager.pages), pager.pages, {left.nodeId, middle.nodeId, right.nodeId})
      ensures PagesShare(Cat(Cat(old(left.run), old(middle.run)), old(right.run)), s1, s2, mid1, mid2,
                         (left.nodeId, middle.nodeId, right.nodeId),
                         old((left.nextLeaf, middle.nextLeaf, right.nextLeaf)))
    {
      hide Cat, Take, Drop, First, Caps.Min, IsThird, IsHalf, LeftShort, HoldsLeaf, HoldsInner, N.Node.Mirrors;
      ghost var a, b, d := left.keysSize, middle.keysSize, right.keysSize;
      s1, s2 := ThreeShares(left.keysSize + middle.keysSize + right.keysSize);
      RightShortBounds(caps, a, b, d, s1, s2);
      var s3 := left.keysSize + middle.keysSize + right.keysSize - s1 - s2;
      CutBySending(left.run, middle.run, right.run, s1, b - (s3 - d));
      mid1, mid2 := SpreadRight(left, middle, right, s1, s3);
    }

    method SetTwoKeys(parent: Node, mid1: int, mid2: int, leftIdx: nat)
      requires InnerCopy(parent) && leftIdx + 1 < parent.keysSize
      modifies pager, parent, parent.keys
      ensures Wrote(old(pager.pages), pager.pages, {parent.nodeId})
      ensures HoldsInner(caps, pager.pages, parent.nodeId,
                         old(parent.seps)[leftIdx := mid1][leftIdx + 1 := mid2], old(parent.kids))
    {
      parent.SetKey(mid1, leftIdx);
      parent.SetKey(mid2, leftIdx + 1);
    }

    /** The leaf part of a 3 -> 3 redistribution, which leaves `parent` as it is. */
    method ShareThree(left: Node, middle: Node, right: Node, parent: Node)
      returns (s1: nat, s2: nat, mid1: int, mid2: int)
      requires caps.Valid() && LeafCopy(left) && LeafCopy(middle) && LeafCopy(right) && InnerCopy(parent)
      requires N.Apart(left, middle) && N.Apart(left, right) && N.Apart(middle, right)
      requires N.Apart(left, parent) && N.Apart(middle, parent) && N.Apart(right, parent)
      requires || LeftShort(caps, left.keysSize, middle.keysSize, right.keysSize)
               || LeftShort(caps, right.keysSize, middle.keysSize, left.keysSize)
      modifies pager, left, left.keys, left.values, middle, middle.keys, middle.values, right, right.keys, right.values
      ensures InnerCopy(parent) && Wrote(old(pager.pages), pager.pages, {left.nodeId, middle.nodeId, right.nodeId})
      ensures PagesShare(Cat(Cat(old(left.run), old(middle.run)), old(right.run)), s1, s2, mid1, mid2,
                         (left.nodeId, middle.nodeId, right.nodeId),
                         old((left.nextLeaf, middle.nextLeaf, right.nextLeaf)))
    {
      hide Cat, Take, Drop, First, Caps.Min, PagesShare, HoldsLeaf, HoldsInner, N.Node.Mirrors;
      ghost var p := pager.pages;
      if left.Underflow() {
        s1, s2, mid1, mid2 := ShareFromRight(left, middle, right);
      } else {
        s1, s2, mid1, mid2 := ShareFromLeft(left, middle, right);
      }
      InnerKept(caps, p, pager.pages, {left.nodeId, middle.nodeId, right.nodeId}, parent.nodeId,
                parent.seps, parent.kids);
    }

    /** The root's part: the pages of the leaves stay as they are. */
    method SetSharedKeys(parent: Node, leftIdx: nat, ghost all: Run, ghost s1: nat, ghost s2: nat, mid1: int, mid2: int,
                         ghost ids: (int, int, int), ghost nexts: (int, int, int))
      requires InnerCopy(parent) && leftIdx + 1 < parent.keysSize && PagesShare(all, s1, s2, mid1, mid2, ids, nexts)
      requires parent.nodeId != ids.0 && parent.nodeId != ids.1 && parent.nodeId != ids.2
      modifies pager, parent, parent.keys
      ensures Wrote(old(pager.pages), pager.pages, {parent.nodeId}) && PagesShare(all, s1, s2, mid1, mid2, ids, nexts)
      ensures HoldsInner(caps, pager.pages, parent.nodeId,
                         old(parent.seps)[leftIdx := mid1][leftIdx + 1 := mid2], old(parent.kids))
    {
      hide Take, Drop, First, HoldsLeaf, HoldsInner, N.Node.Mirrors;
      ghost var q := pager.pages;
      SetTwoKeys(parent, mid1, mid2, leftIdx);
      LeafKept(caps, q, pager.pages, {parent.nodeId}, ids.0, Take(all, s1), nexts.0);
      LeafKept(caps, q, pager.pages, {parent.nodeId}, ids.1, Take(Drop(all, s1), s2), nexts.1);
      LeafKept(caps, q, pager.pages, {parent.nodeId}, ids.2, Drop(Drop(all, s1), s2), nexts.2);
    }

    /** One of the outer leaves is short, the other can lend, and the middle one can do neither. */
    method RedistributeLeaves3to3(left: Node, middle: Node, right: Node, parent: Node, leftIdx: nat)
      requires Valid() && leftIdx + 2 < |order|
      requires LeafIs(left, leftIdx) && LeafIs(middle, leftIdx + 1) && LeafIs(right, leftIdx + 2) && RootIs(parent)
      requires N.Apart(left, middle) && N.Apart(left, right) && N.Apart(middle, right)
      requires N.Apart(left, parent) && N.Apart(middle, parent) && N.Apart(right, parent)
      requires || LeftShort(caps, left.keysSize, middle.keysSize, right.keysSize)
               || LeftShort(caps, right.keysSize, middle.keysSize, left.keysSize)
      modifies `tree, pager, left, left.keys, left.values, middle, middle.keys, middle.values
      modifies right, right.keys, right.values, parent, parent.keys
      ensures Valid() && tree == Thirds(old(tree), leftIdx, 3)
    {
      hide Thirds, Cat, Take, Drop, First, Caps.Min, IsThird, IsHalf, HoldsLeaf, HoldsInner, N.Node.Mirrors, Stored;
      ghost var p, t := pager.pages, tree;
      ghost var all := Cat(Cat(left.run, middle.run), right.run);
      ghost var ids := (left.nodeId, middle.nodeId, right.nodeId);
      ghost var nexts := (left.nextLeaf, middle.nextLeaf, right.nextLeaf);
      var s1, s2, mid1, mid2 := ShareThree(left, middle, right, parent);
      ghost var q := pager.pages;
      SetSharedKeys(parent, leftIdx, all, s1, s2, mid1, mid2, ids, nexts);
      SameButTrans(p, q, pager.pages, {order[leftIdx], order[leftIdx + 1], order[leftIdx + 2]}, {rootId},
                   {order[leftIdx], order[leftIdx + 1], order[leftIdx + 2], rootId});
      Thirds3Stored(caps, p, pager.pages, rootId, firstLeafId, t, order, leftIdx, s1, s2);
      tree := Thirds(t, leftIdx, 3);
    }

    // 3 -> 2.

    /** The pairs of three leaves move to the first two. */
    method PackLeft(left: Node, middle: Node, right: Node) returns (s1: nat, newMid: int)
      requires caps.Valid() && LeafCopy(left) && LeafCopy(middle) && LeafCopy(right)
      requires N.Apart(left, middle) && N.Apart(left, right) && N.Apart(middle, right)
      requires AllShort(caps, left.keysSize, middle.keysSize, right.keysSize)
      modifies pager, left, left.keys, left.values, middle, middle.keys, middle.values, right, right.keys, right.values
      ensures Wrote(old(pager.pages), pager.pages, {left.nodeId, middle.nodeId, right.nodeId})
      ensures left.nextLeaf == old(left.nextLeaf) && right.nextLeaf == old(right.nextLeaf)
      ensures LeafCopy(left) && LeafCopy(middle) && LeafCopy(right)
      ensures var all := Cat(Cat(old(left.run), old(middle.run)), old(right.run));
        && IsHalf(Size(all), s1)
        && left.run == Take(all, s1) && middle.run == Drop(all, s1) && right.keysSize == 0
        && newMid == First(middle.run)
    {
      hide Cat, Take, Drop, First, Caps.Min, AllShort, HoldsLeaf, HoldsInner, N.Node.Mirrors;
      ghost var a, b, d := left.keysSize, middle.keysSize, right.keysSize;
      var total := left.keysSize + middle.keysSize + right.keysSize;
      s1 := Halve(total);
      var s2 := total - s1;
      AllShortBounds(caps, a, b, d, s1);
      CutByTaking(left.run, middle.run, right.run, s1 - a, d);
      TakeAll(Drop(Cat(Cat(left.run, middle.run), right.run), s1), s2);
      var unused;
      newMid, unused := SpreadLeft(left, middle, right, s1, s2);
    }

    /** The leaf part of a 3 -> 2 merge. */
    method MergePages(left: Node, middle: Node, right: Node) returns (s1: nat, newMid: int)
      requires caps.Valid() && LeafCopy(left) && LeafCopy(middle) && LeafCopy(right)
      requires N.Apart(left, middle) && N.Apart(left, right) && N.Apart(middle, right)
      requires AllShort(caps, left.keysSize, middle.keysSize, right.keysSize)
      modifies pager, left, left.keys, left.values, middle, middle.keys, middle.values, right, right.keys, right.values
      ensures Wrote(old(pager.pages), pager.pages, {left.nodeId, middle.nodeId, right.nodeId})
      ensures DeletedAt(right.nodeId)
      ensures var all := Cat(Cat(old(left.run), old(middle.run)), old(right.run));
        && IsHalf(Size(all), s1)
        && HoldsLeaf(caps, pager.pages, left.nodeId, Take(all, s1), old(left.nextLeaf))
        && HoldsLeaf(caps, pager.pages, middle.nodeId, Drop(all, s1), old(right.nextLeaf))
        && newMid == First(Drop(all, s1))
    {
      hide Cat, Take, Drop, First, AllShort, IsHalf, HoldsLeaf, HoldsInner, N.Node.Mirrors;
      OnPages(left, right);
      s1, newMid := PackLeft(left, middle, right);
      ghost var p := pager.pages;
      middle.SetNext(right.nextLeaf);
      LeafKept(caps, p, pager.pages, {middle.nodeId}, left.nodeId, left.run, left.nextLeaf);
      ghost var q := pager.pages;
      right.MarkDeleted();
      LeafKept(caps, q, pager.pages, {right.nodeId}, left.nodeId, left.run, left.nextLeaf);
      LeafKept(caps, q, pager.pages, {right.nodeId}, middle.nodeId, middle.run, middle.nextLeaf);
    }

    ghost predicate DeletedAt(id: int)
      reads pager
    {
      0 <= id < |pager.pages| && NodePageAt(caps, pager.pages[id], id) && IsDeleted(pager.pages[id])
    }

    /** The root's part of the merge: one separator less, one child less. */
    method DropSeparator(parentId: int, leftIdx: nat, newMid: int, ghost seps: seq<int>, ghost kids: seq<int>)
      requires HoldsInner(caps, pager.pages, parentId, seps, kids) && leftIdx + 1 < |seps|
      modifies pager
      ensures Wrote(old(pager.pages), pager.pages, {parentId})
      ensures |kids| == |seps| + 1
      ensures HoldsInner(caps, pager.pages, parentId, WithoutAt(seps[leftIdx := newMid], leftIdx + 1),
                         WithoutAt(kids, leftIdx + 2))
    {
      var parent := LoadInner(parentId, seps, kids);
      hide HoldsLeaf, HoldsInner, N.Node.Mirrors;
      parent.SetKey(newMid, leftIdx);
      parent.RemoveFromInternal(leftIdx + 1);
    }

    method MergeLeaves3to2(left: Node, middle: Node, right: Node, parentStack: seq<(int, nat)>, leftIdx: nat)
      requires Valid() && leftIdx + 2 < |order|
      requires LeafIs(left, leftIdx) && LeafIs(middle, leftIdx + 1) && LeafIs(right, leftIdx + 2)
      requires N.Apart(left, middle) && N.Apart(left, right) && N.Apart(middle, right)
      requires AllShort(caps, left.keysSize, middle.keysSize, right.keysSize)
      requires |parentStack| == 1 && parentStack[0].0 == rootId
      modifies `tree, `order, pager, left, left.keys, left.values, middle, middle.keys, middle.values,
        right, right.keys, right.values
      ensures Valid() && tree == Halves(old(tree), leftIdx, 3)
    {
      hide Halves, Cat, Take, Drop, First, AllShort, IsHalf, WithoutAt;
      ghost var p, t := pager.pages, tree;
      IdsOf(caps, p, rootId, firstLeafId, t, order, leftIdx);
      IdsOf(caps, p, rootId, firstLeafId, t, order, leftIdx + 1);
      IdsOf(caps, p, rootId, firstLeafId, t, order, leftIdx + 2);
      var s1, newMid := MergePages(left, middle, right);
      DropSeparator(parentStack[0].0, leftIdx, newMid, t.seps, order);
      HalvesStored(caps, p, pager.pages, rootId, firstLeafId, t, order, leftIdx, s1);
      tree, order := Halves(t, leftIdx, 3), WithoutAt(order, leftIdx + 2);
    }

    // 2 -> 1.

    /** All pairs of the right leaf move to the left one, which becomes the end of the chain. */
    method AbsorbRight(left: Node, right: Node)
      requires caps.Valid() && LeafCopy(left) && LeafCopy(right) && N.Apart(left, right)
      requires left.keysSize + right.keysSize <= caps.Max()
      modifies pager, left, left.keys, left.values, right, right.keys, right.values
      ensures LeafCopy(right) && Wrote(old(pager.pages), pager.pages, {left.nodeId, right.nodeId})
      ensures HoldsLeaf(caps, pager.pages, left.nodeId, Cat(old(left.run), old(right.run)), -1)
    {
      hide Cat, Take, Drop, First;
      TakeAll(right.run, right.keysSize);
      var unused := left.TakeFromRightLeaf(right, right.keysSize);
      left.SetNext(-1);
    }

    /** The remaining leaf becomes the root; the other one and the old root are given back. */
    method RetirePair(newRootId: int, right: Node, parent: Node)
      requires LeafCopy(right) && N.Apart(right, parent) && parent.pager == pager
        && parent.caps == caps && parent.Valid()
      requires right.nodeId >= 1 && 1 <= parent.nodeId < |pager.pages|
      modifies `rootId, pager, right, parent
      ensures rootId == newRootId && DeletedAt(right.nodeId) && DeletedAt(parent.nodeId)
      ensures pager.pages[0] == Meta(newRootId, firstLeafId)
      ensures Wrote(old(pager.pages), pager.pages, {0, right.nodeId, parent.nodeId})
    {
      SetRootId(newRootId);
      right.MarkDeleted();
      parent.MarkDeleted();
    }

    method MergeLeaves2to1(left: Node, right: Node, parentStack: seq<(int, nat)>)
      requires Valid() && |order| == 2 && LeafIs(left, 0) && LeafIs(right, 1) && N.Apart(left, right)
      requires left.keysSize + right.keysSize <= caps.Max()
      requires |parentStack| == 1 && parentStack[0].0 == rootId
      modifies this, pager, left, left.keys, left.values, right, right.keys, right.values
      ensures Valid() && tree == Recut(old(tree), 0, 2, [Joined(old(tree), 0, 2)])
    {
      hide Recut, Cat, Take, Drop, First, Joined, HoldsLeaf, HoldsInner, N.Node.Mirrors;
      ghost var p, t := pager.pages, tree;
      IdsOf(caps, p, rootId, firstLeafId, t, order, 0);
      IdsOf(caps, p, rootId, firstLeafId, t, order, 1);
      var parent := LoadRoot(parentStack[0].0);
      assert parent.nodeId == rootId && parent.keysSize + 1 == 2;
      assert right.nextLeaf == -1;
      AbsorbRight(left, right);
      ghost var q := pager.pages;
      RetirePair(left.nodeId, right, parent);
      LeafKept(caps, q, pager.pages, {0, right.nodeId, parent.nodeId}, left.nodeId, Cat(t.leaves[0], t.leaves[1]), -1);
      MergedRootStored(caps, p, pager.pages, parent.nodeId, firstLeafId, t, order);
      tree, order := Recut(t, 0, 2, [Joined(t, 0, 2)]), [left.nodeId];
    }
    // Overflow and underflow.

    /** The stack left by the descent to leaf `i`. */
    ghost predicate StackFor(parentStack: seq<(int, nat)>, i: nat)
      reads this
    {
      parentStack == if |order| == 1 then [] else [(rootId, i)]
    }

    /** `near` is the neighbour of `leaf` on one side, loaded and unable to take a pair. */
    ghost predicate Untaking(near: N.Node?, leaf: Node, at: int)
      requires |order| == |tree.leaves|
      reads this, pager, if near != null then {near, near.keys, near.values, near.children} else {}
    {
      0 <= at < |order| ==> near != null && LeafIs(near, at) && N.Apart(near, leaf) && near.keysSize >= caps.Max()
    }

    /** The neighbours of an overfull leaf are loaded, the left one first, and the first that
        can take pairs is evened out with it. */
    method EvenOverfull(leaf: Node, parent: Node, i: nat) returns (done: bool, left: N.Node?, right: N.Node?)
      requires Valid() && |order| >= 2 && i < |order| && LeafIs(leaf, i) && RootIs(parent) && N.Apart(leaf, parent)
      requires leaf.keysSize == caps.phys
      modifies `tree, pager, leaf, leaf.keys, leaf.values, parent, parent.keys
      ensures Valid()
      ensures left != null ==> fresh(left) && fresh(left.keys) && fresh(left.values) && fresh(left.children)
      ensures right != null ==> fresh(right) && fresh(right.keys) && fresh(right.values) && fresh(right.children)
      ensures done ==> tree == FixOverflow(caps, old(tree), i)
      ensures !done ==>
        && tree == old(tree) && LeafIs(leaf, i) && leaf.keysSize == caps.phys
        && FixOverflow(caps, tree, i) == Thirds(tree, if i > 0 then i - 1 else i, 2)
        && (left != null <==> i > 0) && Untaking(left, leaf, i - 1) && (i == 0 ==> Untaking(right, leaf, i + 1))
    {
      hide HoldsLeaf, HoldsInner, N.Node.Mirrors, Even2, Thirds, Halves, Stored, FixOverflow;
      IdsDiffer();
      OverflowCases(caps, tree, i);
      done, left, right := true, null, null;
      if i > 0 {
        left := LoadChild(parent, i - 1);
        if left.CanTake() {
          Balance2(left, leaf, parent, i - 1);
          return;
        }
      }
      if i + 1 < parent.keysSize + 1 {
        right := LoadChild(parent, i + 1);
        if right.CanTake() {
          Balance2(leaf, right, parent, i);
          return;
        }
      }
      done := false;
    }

    method HandleLeafOverflow(leaf: Node, parentStack: seq<(int, nat)>, ghost i: nat)
      requires Valid() && Ordered(tree) && i < |order| && LeafIs(leaf, i) && StackFor(parentStack, i)
      requires leaf.keysSize == caps.phys
      requires forall j :: 0 <= j < |order| && j != i ==> Size(tree.leaves[j]) <= caps.Max()
      requires |FixOverflow(caps, tree, i).seps| <= caps.MaxInner()
      modifies this, pager, leaf, leaf.keys, leaf.values
      ensures Valid() && tree == FixOverflow(caps, old(tree), i)
    {
      hide HoldsLeaf, HoldsInner, N.Node.Mirrors, Even2, Thirds, Halves, Ordered, Stored, FixOverflow, Distinct;
      IdsDiffer();
      OverflowCases(caps, tree, i);
      LeafOrRoot(i);
      if leaf.nodeId == rootId {
        SplitLeaf1to2(leaf);
        return;
      }
      var (parentId, idxInParent) := parentStack[|parentStack| - 1];
      var parent := LoadRoot(parentId);
      var done, left, right := EvenOverfull(leaf, parent, idxInParent);
      if done {
        return;
      }
      SplitLeavesCount(if left != null then i - 1 else i);
      if left != null {
        SplitLeaves2to3(left, leaf, parentStack, idxInParent - 1);
      } else {
        SplitLeaves2to3(leaf, right, parentStack, idxInParent);
      }
    }

    /** What the tree looks like when leaf `i` has just become too small. */
    ghost predicate ShortAt(i: nat)
      requires i < |order| == |tree.leaves|
      reads this
    {
      var n, size := |order|, Size(tree.leaves[i]);
      && n >= 2
      && (if n == 2 then caps.HalfMax() - 1 <= size < caps.Min() else size == caps.Min() - 1)
      && forall j :: 0 <= j < n && j != i ==> Least(caps, n) <= Size(tree.leaves[j]) <= caps.Max()
    }

    lemma ShortBounds(i: nat)
      requires caps.Valid() && i < |order| == |tree.leaves| && ShortAt(i)
      ensures |order| >= 2 && Size(tree.leaves[i]) <= caps.Max()
      ensures Least(caps, |order|) == if |order| == 2 then caps.HalfMax() else caps.Min()
      ensures Least(caps, |order|) >= 1
      ensures forall j :: 0 <= j < |order| && j != i ==> Size(tree.leaves[j]) <= caps.Max()
    {
    }

    /** `near` is the neighbour of `leaf` on one side, loaded and unable to lend. */
    ghost predicate Unlending(near: N.Node?, leaf: Node, parent: Node, at: int)
      requires |order| == |tree.leaves|
      reads this, pager, if near != null then {near, near.keys, near.values, near.children} else {}
    {
      0 <= at < |order| ==>
        && near != null && LeafIs(near, at) && N.Apart(near, leaf) && N.Apart(near, parent)
        && near.keysSize <= Least(caps, |order|)
    }

    /** The neighbours of a short leaf are loaded, the left one first, and the first that can
        lend is evened out with it. */
    method EvenShort(leaf: Node, parent: Node, i: nat) returns (done: bool, left: N.Node?, right: N.Node?)
      requires Valid() && i < |order| && LeafIs(leaf, i) && RootIs(parent) && N.Apart(leaf, parent) && ShortAt(i)
      modifies `tree, pager, leaf, leaf.keys, leaf.values, parent, parent.keys
      ensures Valid()
      ensures left != null ==> fresh(left) && fresh(left.keys) && fresh(left.values) && fresh(left.children)
      ensures right != null ==> fresh(right) && fresh(right.keys) && fresh(right.values) && fresh(right.children)
      ensures done ==> (tree, true) == FixUnderflow(caps, old(tree), i)
      ensures !done ==>
        && tree == old(tree) && LeafIs(leaf, i) && RootIs(parent) && ShortAt(i)
        && (left != null <==> i > 0) && (right != null <==> i + 1 < |order|)
        && Unlending(left, leaf, parent, i - 1) && Unlending(right, leaf, parent, i + 1)
        && (left != null && right != null ==> N.Apart(left, right))
    {
      hide HoldsLeaf, HoldsInner, N.Node.Mirrors, Even2, Caps.Min, Caps.HalfMax, Stored, Least, ShortAt, FixUnderflow;
      IdsDiffer();
      ShortBounds(i);
      LendingCases(caps, tree, i);
      done, left, right := true, null, null;
      if i > 0 {
        left := LoadChild(parent, i - 1);
        if left.CanLend(parent.keysSize + 1 == 2) {
          Balance2(left, leaf, parent, i - 1);
          return;
        }
      }
      if i + 1 < parent.keysSize + 1 {
        right := LoadChild(parent, i + 1);
        if right.CanLend(parent.keysSize + 1 == 2) {
          Balance2(leaf, right, parent, i);
          return;
        }
      }
      done := false;
    }

    /** `merged` is false when the assertion guarding the merge of two leaves fails. */
    method HandleLeafUnderflow(leaf: Node, parentStack: seq<(int, nat)>, ghost i: nat) returns (merged: bool)
      requires Valid() && i < |order| && LeafIs(leaf, i) && StackFor(parentStack, i) && ShortAt(i)
      modifies this, pager, leaf, leaf.keys, leaf.values
      ensures Valid() && (tree, merged) == FixUnderflow(caps, old(tree), i)
    {
      hide HoldsLeaf, HoldsInner, N.Node.Mirrors, Stored, FixUnderflow;
      IdsDiffer();
      ShortBounds(i);
      merged := true;
      var (parentId, idxInParent) := parentStack[|parentStack| - 1];
      var parent := LoadRoot(parentId);
      hide ShortAt, Unlending;
      var done, left, right := EvenShort(leaf, parent, idxInParent);
      if !done {
        merged := MergeOrBorrow(leaf, left, right, parent, parentStack, idxInParent);
      }
    }

    /** Nothing can be borrowed from a neighbour. */
    method MergeOrBorrow(leaf: Node, left: N.Node?, right: N.Node?, parent: Node, parentStack: seq<(int, nat)>, i: nat)
        returns (merged: bool)
      requires Valid() && i < |order| && LeafIs(leaf, i) && RootIs(parent) && StackFor(parentStack, i) && ShortAt(i)
      requires N.Apart(leaf, parent) && Unlending(left, leaf, parent, i - 1) && Unlending(right, leaf, parent, i + 1)
      requires (left != null <==> i > 0) && (right != null <==> i + 1 < |order|)
      requires left != null && right != null ==> N.Apart(left, right)
      modifies this, pager, leaf, leaf.keys, leaf.values, parent, parent.keys
      modifies if left != null then {left, left.keys, left.values} else {}
      modifies if right != null then {right, right.keys, right.values} else {}
      ensures Valid() && (tree, merged) == FixUnderflow(caps, old(tree), i)
    {
      hide HoldsLeaf, HoldsInner, N.Node.Mirrors, Even2, Thirds, Halves, Joined, Recut, Caps.Min, Stored;
      IdsDiffer();
      merged := true;
      if parent.keysSize + 1 == 2 {
        if right != null {
          merged := MergeOfTwo(leaf, right, parentStack);
        } else {
          merged := MergeOfTwo(left, leaf, parentStack);
        }
      } else {
        BorrowFromThird(leaf, left, right, parent, parentStack, i);
      }
    }

    method MergeOfTwo(left: Node, right: Node, parentStack: seq<(int, nat)>) returns (merged: bool)
      requires Valid() && |order| == 2 && LeafIs(left, 0) && LeafIs(right, 1) && N.Apart(left, right)
      requires |parentStack| == 1 && parentStack[0].0 == rootId
      modifies this, pager, left, left.keys, left.values, right, right.keys, right.values
      ensures Valid() && merged == (Size(Joined(old(tree), 0, 2)) <= caps.Max())
      ensures tree == if merged then Recut(old(tree), 0, 2, [Joined(old(tree), 0, 2)]) else old(tree)
    {
      hide Recut, Joined, HoldsLeaf, HoldsInner, N.Node.Mirrors;
      JoinedSizes(tree, 0, 2);
      merged := left.keysSize + right.keysSize <= caps.Max();
      if merged {
        MergeLeaves2to1(left, right, parentStack);
      }
    }

    /** Neither neighbour of a short leaf can lend: at an end of the root the leaf after the
        neighbour may; otherwise three leaves become two. */
    method BorrowFromThird(leaf: Node, left: N.Node?, right: N.Node?, parent: Node,
                           parentStack: seq<(int, nat)>, i: nat)
      requires Valid() && |order| >= 3 && i < |order| && LeafIs(leaf, i) && RootIs(parent)
        && StackFor(parentStack, i) && ShortAt(i)
      requires N.Apart(leaf, parent)
      requires Unlending(left, leaf, parent, i - 1) && Unlending(right, leaf, parent, i + 1)
      requires left != null && right != null ==> N.Apart(left, right)
      modifies `tree, `order, pager, leaf, leaf.keys, leaf.values, parent, parent.keys
      modifies if left != null then {left, left.keys, left.values} else {}
      modifies if right != null then {right, right.keys, right.values} else {}
      ensures Valid()
      ensures i == 0 ==>
        tree == if Size(old(tree).leaves[2]) > caps.Min() then Thirds(old(tree), 0, 3) else Halves(old(tree), 0, 3)
      ensures i == |old(order)| - 1 ==>
        tree == if Size(old(tree).leaves[i - 2]) > caps.Min() then Thirds(old(tree), i - 2, 3)
          else Halves(old(tree), i - 2, 3)
      ensures 0 < i < |old(order)| - 1 ==> tree == Halves(old(tree), i - 1, 3)
    {
      hide HoldsLeaf, HoldsInner, N.Node.Mirrors, Even2, Thirds, Halves, Joined, Recut, Caps.Min;
      if i == 0 {
        var rightRight := LoadChild(parent, i + 2);
        if rightRight.CanLend(false) {
          RedistributeLeaves3to3(leaf, right, rightRight, parent, i);
        } else {
          MergeLeaves3to2(leaf, right, rightRight, parentStack, i);
        }
      } else if i == parent.keysSize + 1 - 1 {
        var leftLeft := LoadChild(parent, i - 2);
        if leftLeft.CanLend(false) {
          RedistributeLeaves3to3(leftLeft, left, leaf, parent, i - 2);
        } else {
          MergeLeaves3to2(leftLeft, left, leaf, parentStack, i - 2);
        }
      } else {
        MergeLeaves3to2(left, leaf, right, parentStack, i - 1);
      }
    }

    // Search.

    /** `n` is a copy of leaf `li` of `s`. */
    ghost predicate LeafNumber(n: Node, s: Shape, li: nat)
      reads n, n.keys, n.values, n.children, pager
    {
      LeafCopy(n) && li < |LeavesOf(s)| && n.nodeId == LeavesOf(s)[li].id && n.run == LeavesOf(s)[li].run
    }

    /** The iterator's step: to the next pair of the leaf, or to the first pair of the next
        leaf of the chain; null behind the last pair. */
    method NextPair(node: Node, idx: nat, ghost s: Shape, ghost li: nat)
      returns (nextNode: N.Node?, nextIdx: nat, ghost lj: nat)
      requires Searchable(caps, pager.pages, s) && LeafNumber(node, s, li) && idx < node.keysSize
      ensures nextNode != null ==>
        && LeafNumber(nextNode, s, lj) && nextIdx < nextNode.keysSize
        && node.run.keys[idx] < nextNode.run.keys[nextIdx]
      ensures nextNode == null ==> idx + 1 == node.keysSize && li + 1 == |LeavesOf(s)|
    {
      ghost var rs, ids := Runs(LeavesOf(s)), Ids(LeavesOf(s));
      NextIsLarger(rs, li, idx);
      assert LeafAt(caps, pager.pages, rs, ids, li);
      nextNode, nextIdx, lj := node, idx + 1, li;
      if nextIdx == node.keysSize {
        if node.nextLeaf != -1 {
          assert LeafAt(caps, pager.pages, rs, ids, li + 1);
          nextNode := new N.Node.Load(node.nextLeaf, caps, pager);
          nextIdx, lj := 0, li + 1;
        } else {
          LastOfChain(s, li);
          nextNode := null;
        }
      }
    }

    lemma LastOfChain(s: Shape, li: nat)
      requires Searchable(caps, pager.pages, s) && li < |LeavesOf(s)|
      requires NextId(Ids(LeavesOf(s)), li) == -1
      ensures li + 1 == |LeavesOf(s)|
    {
      var rs, ids := Runs(LeavesOf(s)), Ids(LeavesOf(s));
      assert li + 1 < |ids| ==> LeafAt(caps, pager.pages, rs, ids, li + 1);
    }

    /** A tree of any height: the result is the value of `key`, or nothing. */
    method Search(key: int, ghost s: Shape) returns (result: seq<RecordAddress>)
      requires rootId != -1 ==> rootId == s.id && Searchable(caps, pager.pages, s)
      ensures result == if rootId != -1 && key in Pairs(s) then [Pairs(s)[key]] else []
    {
      hide Searchable, Pairs, HoldsLeaf, HoldsInner, LeavesOf, Represents, ShapeOk, Descend, Path;
      result := [];
      if rootId == -1 {
        return;
      }
      SearchableFacts(caps, pager.pages, s);
      var leaf, parentStack := FindLeaf(key, s);
      ghost var li := DescentDecides(caps, pager.pages, s, key);
      var idx: nat := LowerBound(leaf.keys[..leaf.keysSize], key);
      if idx >= leaf.keysSize || leaf.keys[idx] != key {
        return;
      }
      var node: N.Node? := leaf;
      while node != null
        invariant node != null ==> LeafNumber(node, s, li) && idx < node.keysSize
        invariant result == [] ==> node == leaf && node.run.keys[idx] == key && node.run.vals[idx] == Pairs(s)[key]
        invariant result == [] || result == [Pairs(s)[key]]
        invariant result != [] && node != null ==> node.run.keys[idx] > key
        decreases 1 - |result|
      {
        if node.keys[idx] != key {
          break;
        }
        result := result + [node.values[idx]];
        node, idx, li := NextPair(node, idx, s, li);
      }
    }

    /** Searching a tree whose root is a leaf or lies over the leaves. */
    method Lookup(key: int) returns (result: seq<RecordAddress>)
      requires Valid() && Ordered(tree)
      ensures result == if key in Contents(tree) then [Contents(tree)[key]] else []
    {
      NoRootNoLeaves();
      ghost var s := LeafShape(-1, RawRun([], []));
      if |order| > 0 {
        FlatShapeSearchable(caps, pager.pages, rootId, firstLeafId, tree, order);
        s := FlatShape(tree, order, rootId);
      }
      result := Search(key, s);
    }

    // Insert and remove.

    /** Like `FindLeaf`, for a tree in the form `Valid` describes; null when it is empty. */
    method FindLeafOf(key: int) returns (leaf: N.Node?, parentStack: seq<(int, nat)>)
      requires Valid()
      ensures leaf == null <==> |order| == 0
      ensures leaf != null ==>
        && fresh(leaf) && fresh(leaf.keys) && fresh(leaf.values) && fresh(leaf.children)
        && LeafIs(leaf, ChildIdx(tree.seps, key)) && StackFor(parentStack, ChildIdx(tree.seps, key))
    {
      hide HoldsLeaf, HoldsInner, N.Node.Mirrors;
      if rootId == -1 {
        NoRootNoLeaves();
        return null, [];
      }
      FlatShapeRepresents(caps, pager.pages, rootId, firstLeafId, tree, order);
      FlatShapeRoutes(tree, order, rootId, key);
      leaf, parentStack := FindLeaf(key, FlatShape(tree, order, rootId));
      NextOf(leaf, ChildIdx(tree.seps, key));
    }

    lemma NoRootNoLeaves()
      requires Valid()
      ensures rootId == -1 <==> |order| == 0
    {
      if |order| > 0 { IdsOf(caps, pager.pages, rootId, firstLeafId, tree, order, 0); }
    }

    lemma NextOf(n: Node, i: nat)
      requires Valid() && i < |order| && LeafCopy(n) && n.nodeId == order[i]
      ensures n.nextLeaf == NextId(order, i)
    {
      assert LeafAt(caps, pager.pages, tree.leaves, order, i);
    }

    /** A new empty leaf as the root. */
    method CreateRoot()
      requires Valid() && |order| == 0
      modifies this, pager
      ensures Valid() && tree == RawTree([RawRun([], [])], []) && |order| == 1
    {
      ghost var p, t := pager.pages, tree;
      StoredNodePages();
      var root := new N.Node.Create(true, caps, pager);
      SetRootAndFirstLeafId(root.nodeId, root.nodeId);
      RootLeafStored(caps, p, pager.pages, t, root.nodeId);
      tree, order := RawTree([RawRun([], [])], []), [root.nodeId];
    }

    /** A leaf whose page is written again, with everything else as before. */
    lemma LeafRewritten(p: seq<Page>, q: seq<Page>, i: nat, r: Run)
      requires Stored(caps, p, rootId, firstLeafId, tree, order) && i < |order| && Wrote(p, q, {order[i]})
      requires HoldsLeaf(caps, q, order[i], r, NextId(order, i))
      ensures Stored(caps, q, rootId, firstLeafId, tree.(leaves := tree.leaves[i := r]), order)
    {
      hide HoldsLeaf, HoldsInner;
      var u := tree.(leaves := tree.leaves[i := r]);
      IdsOf(caps, p, rootId, firstLeafId, tree, order, i);
      if |order| >= 2 { InnerKept(caps, p, q, {order[i]}, rootId, tree.seps, order); }
      assert LeafAt(caps, q, u.leaves, order, i);
      SameOrderStored(caps, p, q, rootId, firstLeafId, tree, u, order, i, 1, {order[i]});
    }

    method PutInLeaf(leaf: Node, key: int, value: RecordAddress)
      requires Valid() && |order| > 0 && LeafIs(leaf, ChildIdx(tree.seps, key)) && leaf.keysSize < caps.phys
      modifies `tree, pager, leaf, leaf.keys, leaf.values
      ensures Valid() && tree == AddToLeaf(old(tree), key, value) && LeafIs(leaf, ChildIdx(tree.seps, key))
    {
      hide Inserted, HoldsLeaf, HoldsInner, N.Node.Mirrors;
      ghost var p, i := pager.pages, ChildIdx(tree.seps, key);
      leaf.InsertInLeaf(key, value);
      LeafRewritten(p, pager.pages, i, leaf.run);
      tree := AddToLeaf(tree, key, value);
    }

    method CutFromLeaf(leaf: Node, key: int) returns (removed: bool)
      requires Valid() && |order| > 0 && LeafIs(leaf, ChildIdx(tree.seps, key))
      modifies `tree, pager, leaf, leaf.keys, leaf.values
      ensures Valid() && tree == DropFromLeaf(old(tree), key) && LeafIs(leaf, ChildIdx(tree.seps, key))
      ensures var i := ChildIdx(tree.seps, key); removed <==> tree.leaves[i] != old(tree).leaves[i]
    {
      hide Without, HoldsLeaf, HoldsInner, N.Node.Mirrors;
      ghost var p, i := pager.pages, ChildIdx(tree.seps, key);
      removed := leaf.RemoveFromLeaf(key);
      LeafRewritten(p, pager.pages, i, leaf.run);
      tree := DropFromLeaf(tree, key);
    }

    /** The root must have room for one more separator should a leaf split: rebalancing of
        inner nodes is not part of this model. */
    method Insert(key: int, value: RecordAddress)
      requires Valid() && Wellformed(caps, tree) && key !in Contents(tree)
      requires |TreeSpec.Insert(caps, tree, key, value).seps| <= caps.MaxInner()
      modifies this, pager
      ensures Valid() && tree == TreeSpec.Insert(caps, old(tree), key, value)
      ensures Wellformed(caps, tree) && Contents(tree) == old(Contents(tree))[key := value]
    {
      hide Contents, Ordered, Sizes, FixOverflow, Inserted, HoldsLeaf, HoldsInner, N.Node.Mirrors;
      ghost var t, i := tree, ChildIdx(tree.seps, key);
      InsertRefinesMap(caps, t, key, value);
      InsertRoom(caps, t, key, value);
      if rootId == -1 {
        NoRootNoLeaves();
        CreateRoot();
      }
      NoRootNoLeaves();
      var leaf, parentStack := FindLeafOf(key);
      PutInLeaf(leaf, key, value);
      if leaf.Overflow() {
        HandleLeafOverflow(leaf, parentStack, i);
      }
    }

    /** The outcome is `MergeGuardFailed` when the assertion guarding the merge of two leaves
        stops the program, which happens exactly in the state `MergeGap`. */
    method Remove(key: int) returns (outcome: Removal)
      requires Valid() && Wellformed(caps, tree)
      modifies this, pager
      ensures Valid() && (tree, outcome) == TreeSpec.Remove(caps, old(tree), key)
      ensures Wellformed(caps, tree) && Contents(tree) == old(Contents(tree)) - {key}
      ensures outcome == NotFound <==> key !in old(Contents(tree))
      ensures outcome == MergeGuardFailed <==> MergeGap(caps, old(tree), key)
    {
      hide Contents, Ordered, Sizes, FixUnderflow, Without, HoldsLeaf, HoldsInner, N.Node.Mirrors, MergeGap, Stored;
      ghost var t, i := tree, ChildIdx(tree.seps, key);
      RemoveRefinesMap(caps, t, key);
      IdsDiffer();
      if |order| > 0 { RemoveRoom(caps, t, key); }
      var leaf, parentStack := FindLeafOf(key);
      if leaf == null {
        return NotFound;
      }
      var removed := CutFromLeaf(leaf, key);
      if !removed {
        assert tree.leaves == t.leaves;
        return NotFound;
      }
      LeafOrRoot(i);
      if leaf.nodeId == rootId {
        if leaf.keysSize == 0 {
          DropRoot(leaf);
        }
        return Removed;
      }
      outcome := Removed;
      if leaf.Underflow() {
        var merged := HandleLeafUnderflow(leaf, parentStack, i);
        outcome := if merged then Removed else MergeGuardFailed;
      }
    }

    /** Nothing is returned where the program throws, on an empty tree. */
    method Update(key: int, value: RecordAddress) returns (updated: Option<bool>)
      requires Valid() && Wellformed(caps, tree)
      modifies this, pager
      ensures Valid() && Wellformed(caps, tree)
      ensures updated.None? <==> |old(tree).leaves| == 0
      ensures updated.Some? ==> (updated.value <==> key in old(Contents(tree)))
      ensures Contents(tree) == if key in old(Contents(tree))
        then old(Contents(tree))[key := value] else old(Contents(tree))
    {
      hide Contents, Ordered, Sizes, Revised, HoldsLeaf, HoldsInner, N.Node.Mirrors, Stored;
      ghost var t, p, i := tree, pager.pages, ChildIdx(tree.seps, key);
      IdsDiffer();
      EmptyContents();
      var leaf, parentStack := FindLeafOf(key);
      if leaf == null {
        return None;
      }
      UpdateRefinesMap(caps, t, key, value);
      var done := leaf.UpdateValue(key, value);
      LeafRewritten(p, pager.pages, i, leaf.run);
      tree := ReviseInLeaf(t, key, value);
      updated := Some(done);
    }

    lemma EmptyContents()
      ensures |tree.leaves| == 0 ==> Contents(tree) == map[]
    {
    }

    /** The empty root leaf is given back. */
    method DropRoot(leaf: Node)
      requires Valid() && |order| == 1 && LeafIs(leaf, 0)
      modifies this, pager, leaf
      ensures Valid() && tree == EmptyTree
    {
      ghost var p, t := pager.pages, tree;
      IdsOf(caps, p, rootId, firstLeafId, t, order, 0);
      assert order == [leaf.nodeId];
      leaf.MarkDeleted();
      SetRootAndFirstLeafId(-1, -1);
      NoRootStored(caps, p, pager.pages, t, leaf.nodeId);
      tree, order := EmptyTree, [];
    }

    lemma IdsDiffer()
      requires Valid()
      ensures Distinct(order) && |order| == |tree.leaves| && (|order| >= 2 ==> rootId !in order)
    {
    }

    lemma LeafOrRoot(i: nat)
      requires Valid() && i < |order|
      ensures order[i] == rootId <==> |order| == 1
    {
      IdsOf(caps, pager.pages, rootId, firstLeafId, tree, order, i);
    }

    lemma SplitLeavesCount(i: nat)
      requires i + 1 < |tree.leaves|
      ensures |Thirds(tree, i, 2).seps| == |tree.seps| + 1
    {
      ThirdsEntries(tree, i, 2);
    }
  }

  /** What the leaves look like between a removal and the underflow it may cause. */
  lemma RemoveRoom(c: Caps, t: Tree, k: int)
    requires c.Valid() && Wellformed(c, t) && |t.leaves| > 0
    ensures var i := ChildIdx(t.seps, k); var u := DropFromLeaf(t, k); var n := |t.leaves|;
      && (u.leaves[i] != t.leaves[i] ==> Size(u.leaves[i]) == Size(t.leaves[i]) - 1)
      && (u.leaves[i] != t.leaves[i] && n >= 2 && Size(u.leaves[i]) < c.Min() ==>
          if n == 2 then c.HalfMax() - 1 <= Size(u.leaves[i]) else Size(u.leaves[i]) == c.Min() - 1)
      && (forall j :: 0 <= j < n && j != i ==>
          u.leaves[j] == t.leaves[j] && Least(c, n) <= Size(u.leaves[j]) <= c.Max())
  {
    DropSizes(c, t, k);
  }

  lemma SearchableFacts(c: Caps, pages: seq<Page>, s: Shape)
    requires Searchable(c, pages, s)
    ensures Represents(c, pages, s) && ShapeOk(s)
  {
  }

  lemma SplitSepsIs(seps: seq<int>, at: nat, mid1: int, mid2: int)
    requires at < |seps|
    ensures var s := seps[at := mid1]; SplitSeps(seps, at, mid1, mid2) == s[..at + 1] + [mid2] + s[at + 1..]
  {
  }

  lemma OverflowCases(c: Caps, t: Tree, i: nat)
    requires i < |t.leaves|
    ensures |t.leaves| == 1 ==> FixOverflow(c, t, i) == Halves(t, 0, 1)
    ensures |t.leaves| > 1 ==>
      var fromLeft := i > 0 && Size(t.leaves[i - 1]) < c.Max();
      var fromRight := i + 1 < |t.leaves| && Size(t.leaves[i + 1]) < c.Max();
      FixOverflow(c, t, i) == if fromLeft then Even2(t, i - 1) else if fromRight then Even2(t, i)
                              else Thirds(t, if i > 0 then i - 1 else i, 2)
  {
  }

  lemma LendingCases(c: Caps, t: Tree, i: nat)
    requires |t.leaves| >= 2 && i < |t.leaves|
    ensures var lender := if |t.leaves| == 2 then c.HalfMax() else c.Min();
      && (i > 0 && Size(t.leaves[i - 1]) > lender ==> FixUnderflow(c, t, i) == (Even2(t, i - 1), true))
      && (!(i > 0 && Size(t.leaves[i - 1]) > lender) && i + 1 < |t.leaves| && Size(t.leaves[i + 1]) > lender ==>
          FixUnderflow(c, t, i) == (Even2(t, i), true))
  {
  }

  /** What the leaves look like between an insertion and the overflow it may cause. */
  lemma InsertRoom(c: Caps, t: Tree, k: int, v: RecordAddress)
    requires c.Valid() && Wellformed(c, t) && k !in Contents(t)
    ensures |t.leaves| == 0 ==>
      TreeSpec.Insert(c, t, k, v) == AddToLeaf(RawTree([RawRun([], [])], []), k, v)
        && Size(Inserted(RawRun([], []), k, v)) <= c.Max()
    ensures |t.leaves| > 0 ==>
      var i := ChildIdx(t.seps, k); var u := AddToLeaf(t, k, v);
      && Size(t.leaves[i]) < c.phys && Size(u.leaves[i]) <= c.phys && Ordered(u)
      && (forall j :: 0 <= j < |t.leaves| && j != i ==> Size(u.leaves[j]) <= c.Max())
  {
    if |t.leaves| > 0 {
      AddToLeafIsInsert(t, k, v);
    } else {
      assert Inserted(RawRun([], []), k, v) == RawRun([k], [v]);
      assert [RawRun([], [])][0 := RawRun([k], [v])] == [RawRun([k], [v])];
    }
  }

  /** Three neighbours, the first one pair below MIN, the second at MIN, the third above. */
  ghost predicate LeftShort(c: Caps, a: int, b: int, d: int) {
    a == c.Min() - 1 && b == c.Min() && c.Min() < d <= c.Max()
  }

  lemma LeftShortBounds(c: Caps, a: int, b: int, d: int, s1: int, s2: int)
    requires c.Valid() && LeftShort(c, a, b, d) && IsThird(a + b + d, s1) && IsHalf(a + b + d - s1, s2)
    ensures a <= s1 <= c.Max() && s1 - a < b && b - (s1 - a) <= s2 <= c.Max() && s1 + s2 < a + b + d && d <= c.Max()
  {
    MinFacts(c);
  }

  /** The first leaf takes its share from the middle one, whose new first key is then read: a
      pair is left there for every capacity but 3. */
  lemma MiddleKeepsAPair(c: Caps, a: int, b: int, d: int, s1: int)
    requires c.phys > 0 && LeftShort(c, a, b, d) && IsThird(a + b + d, s1)
    ensures s1 - a < b <==> c.phys != 3
  {
    var m := c.Min();
    assert 3 * m <= 2 * c.phys - 1 <= 3 * m + 2;
    if c.phys >= 4 { MinFacts(c.(physInner := 2)); }
  }

  lemma RightShortBounds(c: Caps, a: int, b: int, d: int, s1: int, s2: int)
    requires c.Valid() && LeftShort(c, d, b, a) && IsThird(a + b + d, s1) && IsHalf(a + b + d - s1, s2)
    ensures var s3 := a + b + d - s1 - s2;
      d <= s3 <= d + b && 0 < s3 <= c.Max() && s1 <= a && 0 < s2 <= c.Max()
  {
    MinFacts(c);
  }

  /** Three neighbours with nothing to lend, one of them one pair below MIN. */
  ghost predicate AllShort(c: Caps, a: int, b: int, d: int) {
    a + b + d == 3 * c.Min() - 1 && a <= c.Min() && b <= c.Min() && d <= c.Min()
  }

  lemma AllShortBounds(c: Caps, a: int, b: int, d: int, s1: int)
    requires c.Valid() && AllShort(c, a, b, d) && IsHalf(a + b + d, s1)
    ensures var s2 := a + b + d - s1;
      && a <= s1 <= c.Max() && s1 - a < b && b - (s1 - a) <= s2 <= c.Max()
      && d <= c.Max() && s2 - (b - (s1 - a)) == d && 0 < s2
  {
    MinFacts(c);
  }

  lemma MinFacts(c: Caps)
    requires c.Valid()
    ensures 3 * c.Min() <= 2 * c.phys - 1 <= 3 * c.Min() + 2 && c.Min() >= 2
  {
  }

  lemma TakeAll(r: Run, n: nat)
    requires n == Size(r)
    ensures Take(r, n) == r && Size(Drop(r, n)) == 0
  {
  }

  lemma TakeNone(a: Run, b: Run)
    ensures a == Take(Cat(a, b), Size(a)) && b == Drop(Cat(a, b), Size(a))
  {
  }

  /** Sending the tail of `a` to the front of `b`, or the front of `b` to the tail of `a`, is
      cutting their concatenation elsewhere. */
  lemma SentIsCut(a: Run, b: Run, n: nat)
    requires n <= Size(a)
    ensures Take(a, n) == Take(Cat(a, b), n)
    ensures Cat(Drop(a, n), b) == Drop(Cat(a, b), n)
  {
  }

  lemma TakenIsCut(a: Run, b: Run, n: nat)
    requires Size(a) <= n <= Size(a) + Size(b)
    ensures Cat(a, Take(b, n - Size(a))) == Take(Cat(a, b), n)
    ensures Drop(b, n - Size(a)) == Drop(Cat(a, b), n)
  {
  }
}
