/** The pages of an index file and the pager that reads and writes them. */
module Pages {
  import opened LeafRun
  import opened TreeSpec

  /** What one page holds. A node page keeps its whole arrays; only the first `keysSize`
      keys (and values), or `keysSize + 1` children, are live. */
  datatype Page =
    | Blank
    | Meta(rootId: int, firstLeafId: int)
    | LeafPage(nodeId: int, keysSize: int, deleted: bool, nextLeaf: int, keys: seq<int>, values: seq<RecordAddress>)
    | InnerPage(nodeId: int, keysSize: int, deleted: bool, keys: seq<int>, children: seq<int>)

  predicate IsNode(p: Page) { p.LeafPage? || p.InnerPage? }

  predicate IsDeleted(p: Page) { IsNode(p) && p.deleted }

  /** A node page whose arrays have the sizes the page layout gives them. */
  ghost predicate NodePageAt(c: Caps, p: Page, id: int) {
    && IsNode(p) && p.nodeId == id && 0 <= p.keysSize <= |p.keys|
    && (p.LeafPage? ==> |p.keys| == c.phys && |p.values| == c.phys)
    && (p.InnerPage? ==> |p.keys| == c.physInner && |p.children| == c.physInner + 1)
  }

  ghost predicate HoldsLeaf(c: Caps, pages: seq<Page>, id: int, run: Run, next: int) {
    && 0 <= id < |pages| && NodePageAt(c, pages[id], id)
    && pages[id].LeafPage? && !pages[id].deleted && pages[id].nextLeaf == next
    && pages[id].keys[..pages[id].keysSize] == run.keys
    && pages[id].values[..pages[id].keysSize] == run.vals
  }

  ghost predicate HoldsInner(c: Caps, pages: seq<Page>, id: int, seps: seq<int>, kids: seq<int>) {
    && 0 <= id < |pages| && NodePageAt(c, pages[id], id)
    && pages[id].InnerPage? && !pages[id].deleted
    && pages[id].keys[..pages[id].keysSize] == seps
    && pages[id].children[..pages[id].keysSize + 1] == kids
  }

  /** `q` is `p` with at most the pages in `ids` changed or appended. */
  ghost predicate SameBut(p: seq<Page>, q: seq<Page>, ids: set<int>) {
    && |p| <= |q|
    && forall i :: 0 <= i < |q| && i !in ids ==> i < |p| && q[i] == p[i]
  }

  /** Only the existing pages in `ids` were written. */
  ghost predicate Wrote(p: seq<Page>, q: seq<Page>, ids: set<int>) {
    |p| == |q| && SameBut(p, q, ids)
  }

  lemma SameButTrans(p: seq<Page>, q: seq<Page>, r: seq<Page>, a: set<int>, b: set<int>, c: set<int>)
    requires SameBut(p, q, a) && SameBut(q, r, b) && a <= c && b <= c
    ensures SameBut(p, r, c)
  {
  }

  lemma LeafKept(c: Caps, p: seq<Page>, q: seq<Page>, ids: set<int>, id: int, run: Run, next: int)
    requires SameBut(p, q, ids) && id !in ids && HoldsLeaf(c, p, id, run, next)
    ensures HoldsLeaf(c, q, id, run, next)
  {
  }

  lemma InnerKept(c: Caps, p: seq<Page>, q: seq<Page>, ids: set<int>, id: int, seps: seq<int>, kids: seq<int>)
    requires SameBut(p, q, ids) && id !in ids && HoldsInner(c, p, id, seps, kids)
    ensures HoldsInner(c, q, id, seps, kids)
  {
  }

  class Pager {
    var pages: seq<Page>

    constructor ()
      ensures pages == []
    {
      pages := [];
    }

    method ReadPage(id: int) returns (p: Page)
      requires 0 <= id < |pages|
      ensures p == pages[id]
    {
      p := pages[id];
    }

    method WritePage(id: int, p: Page)
      requires 0 <= id < |pages|
      modifies this
      ensures Wrote(old(pages), pages, {id}) && pages[id] == p
    {
      pages := pages[id := p];
    }

    method AppendNewPage() returns (id: int)
      modifies this
      ensures id == |old(pages)| && pages == old(pages) + [Blank]
    {
      id := |pages|;
      pages := pages + [Blank];
    }
  }
}
