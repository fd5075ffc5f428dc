/** The first-fit page allocator (default_pmm.c). Pages are named by their numbers; page
    p is node p + 1 of the free list, so that the head, node 0, is a page below all others. */
module FirstFit {
  import opened Basics
  import opened FreeBlocks
  import opened Rings

  /** struct Page: head is the flag PG_property. */
  datatype Page = Page(property: nat, head: bool, reserved: bool, ref: int)

  function Total(bs: seq<Block>): nat {
    if bs == [] then 0 else bs[0].size + Total(bs[1..])
  }

  lemma {:induction false} TotalConcat(a: seq<Block>, b: seq<Block>)
    ensures Total(a + b) == Total(a) + Total(b)
  {
    if a == [] {
      assert a + b == b;
    } else {
      assert (a + b)[1..] == a[1..] + b;
      TotalConcat(a[1..], b);
    }
  }

  lemma {:induction false} TotalSplit(bs: seq<Block>, j: nat)
    requires j < |bs|
    ensures Total(bs) == Total(bs[..j]) + bs[j].size + Total(bs[j + 1..])
  {
    assert bs == bs[..j] + bs[j..] && bs[j..][1..] == bs[j + 1..];
    TotalConcat(bs[..j], bs[j..]);
  }

  lemma {:induction false} TotalTake(bs: seq<Block>, j: nat, n: nat)
    requires j < |bs| && n <= bs[j].size
    ensures Total(Take(bs, j, n)) == Total(bs) - n
  {
    TotalSplit(bs, j);
    var ts := Take(bs, j, n);
    if n == bs[j].size {
      TotalConcat(bs[..j], bs[j + 1..]);
    } else {
      TotalSplit(ts, j);
      assert ts[..j] == bs[..j] && ts[j + 1..] == bs[j + 1..];
    }
  }

  lemma {:induction false} TotalUp(bs: seq<Block>, q: nat, b: Block)
    requires q <= |bs|
    ensures Total(Up(bs, q, b)) == Total(bs) + b.size
  {
    var up := Up(bs, q, b);
    TotalSplit(up, q);
    assert up[..q] == bs[..q];
    if q < |bs| && End(b) == bs[q].addr {
      TotalSplit(bs, q);
      assert up[q + 1..] == bs[q + 1..];
    } else {
      assert up[q + 1..] == bs[q..] && bs == bs[..q] + bs[q..];
      TotalConcat(bs[..q], bs[q..]);
    }
  }

  lemma {:induction false} TotalJoin(bs: seq<Block>, q: nat)
    requires 0 < q < |bs|
    ensures Total(Join(bs, q)) == Total(bs)
  {
    var cs := Join(bs, q);
    TotalSplit(bs, q - 1);
    TotalSplit(cs, q - 1);
    assert bs[q..][1..] == bs[q + 1..];
    assert cs[..q - 1] == bs[..q - 1] && cs[q..] == bs[q + 1..];
  }

  lemma {:induction false} TotalPut(bs: seq<Block>, q: nat, b: Block)
    requires q <= |bs|
    ensures Total(Put(bs, q, b)) == Total(bs) + b.size
  {
    TotalUp(bs, q, b);
    if q > 0 && End(bs[q - 1]) == b.addr {
      TotalJoin(Up(bs, q, b), q);
    }
  }

  /** No block is larger than all of them together. */
  lemma {:induction false} PartOfTotal(bs: seq<Block>, j: nat)
    requires j < |bs|
    ensures bs[j].size <= Total(bs)
  {
    TotalSplit(bs, j);
  }

  ghost predicate IsHead(bs: seq<Block>, p: nat) {
    exists i :: 0 <= i < |bs| && bs[i].addr == p
  }

  /** The pages record the blocks: each first page has the flag and the size, no other page has. */
  ghost predicate Recorded(pages: seq<Page>, bs: seq<Block>) {
    && (forall i :: 0 <= i < |bs| ==> End(bs[i]) <= |pages| && bs[i].size > 0)
    && (forall i :: 0 <= i < |bs| ==> pages[bs[i].addr].head && pages[bs[i].addr].property == bs[i].size)
    && (forall p: nat {:trigger IsHead(bs, p)} :: p < |pages| && !IsHead(bs, p) ==>
         !pages[p].head && pages[p].property == 0)
  }

  /** The nodes of the free list are those of the blocks. */
  ghost predicate Listed(items: seq<nat>, bs: seq<Block>) {
    |items| == |bs| && forall i :: 0 <= i < |bs| ==> items[i] == bs[i].addr + 1
  }

  function Heading(pg: Page, size: nat): Page {
    pg.(head := true, property := size)
  }

  function Plain(pg: Page): Page {
    pg.(head := false, property := 0)
  }

  lemma RecordRemove(pages: seq<Page>, bs: seq<Block>, j: nat)
    requires Recorded(pages, bs) && Coalesced(bs) && j < |bs|
    ensures Recorded(pages[bs[j].addr := Plain(pages[bs[j].addr])], bs[..j] + bs[j + 1..])
  {
    var a, ts := bs[j].addr, bs[..j] + bs[j + 1..];
    var pages' := pages[a := Plain(pages[a])];
    assert forall i :: 0 <= i < |ts| ==> ts[i] == bs[if i < j then i else i + 1] && ts[i].addr != a;
    forall p: nat | p < |pages| && !IsHead(ts, p)
      ensures !pages'[p].head && pages'[p].property == 0
    {
      if p != a && IsHead(bs, p) {
        HeadStays(bs, ts, j, p);
      }
    }
  }

  /** Only block j went or moved. */
  lemma HeadStays(bs: seq<Block>, ts: seq<Block>, j: nat, p: nat)
    requires j < |bs| && IsHead(bs, p) && p != bs[j].addr
    requires ts == bs[..j] + bs[j + 1..] || (|ts| == |bs| && ts == bs[j := ts[j]])
    ensures IsHead(ts, p)
  {
    var i :| 0 <= i < |bs| && bs[i].addr == p;
    assert ts[if |ts| < |bs| && i > j then i - 1 else i].addr == p;
  }

  /** Block j becomes c, which starts elsewhere but at no other block. */
  lemma RecordMove(pages: seq<Page>, bs: seq<Block>, j: nat, c: Block)
    requires Recorded(pages, bs) && Coalesced(bs) && j < |bs| && c.size > 0 && End(c) <= |pages|
    requires forall i :: 0 <= i < |bs| ==> bs[i].addr != c.addr
    ensures
      var cleared := pages[bs[j].addr := Plain(pages[bs[j].addr])];
      Recorded(cleared[c.addr := Heading(cleared[c.addr], c.size)], bs[j := c])
  {
    var a, ts := bs[j].addr, bs[j := c];
    var cleared := pages[a := Plain(pages[a])];
    var pages' := cleared[c.addr := Heading(cleared[c.addr], c.size)];
    assert forall i :: 0 <= i < |bs| && i != j ==> bs[i].addr != a;
    forall p: nat | p < |pages| && !IsHead(ts, p)
      ensures !pages'[p].head && pages'[p].property == 0
    {
      assert ts[j].addr == c.addr;
      if p != a && IsHead(bs, p) {
        HeadStays(bs, ts, j, p);
      }
    }
  }

  lemma RecordInsert(pages: seq<Page>, bs: seq<Block>, q: nat, b: Block)
    requires Recorded(pages, bs) && q <= |bs| && b.size > 0 && End(b) <= |pages|
    requires forall i :: 0 <= i < |bs| ==> bs[i].addr != b.addr
    ensures Recorded(pages[b.addr := Heading(pages[b.addr], b.size)], Insert(bs, q, b))
  {
    var cs := Insert(bs, q, b);
    assert cs[q].addr == b.addr;
    forall p: nat | p < |pages| && IsHead(bs, p)
      ensures IsHead(cs, p)
    {
      var i :| 0 <= i < |bs| && bs[i].addr == p;
      assert cs[if i < q then i else i + 1].addr == p;
    }
  }

  /** Block j grows where it stands. */
  lemma RecordGrow(pages: seq<Page>, bs: seq<Block>, j: nat, more: nat)
    requires Recorded(pages, bs) && Coalesced(bs) && j < |bs| && End(bs[j]) + more <= |pages|
    ensures
      var p := bs[j].addr;
      Recorded(pages[p := pages[p].(property := pages[p].property + more)], bs[j := Block(p, bs[j].size + more)])
  {
    var cs := bs[j := Block(bs[j].addr, bs[j].size + more)];
    assert forall i :: 0 <= i < |bs| && i != j ==> bs[i].addr != bs[j].addr;
    forall p: nat | p < |pages| && IsHead(bs, p)
      ensures IsHead(cs, p)
    {
      var i :| 0 <= i < |bs| && bs[i].addr == p;
      assert cs[i].addr == p;
    }
  }

  /** Nothing but flags and sizes of free blocks differs. */
  ghost predicate SameUse(pages: seq<Page>, pages': seq<Page>) {
    |pages'| == |pages| && forall p :: 0 <= p < |pages| ==>
      pages'[p].ref == pages[p].ref && pages'[p].reserved == pages[p].reserved
  }

  /** Pages base to base + n - 1 have no references left. */
  ghost predicate Released(pages: seq<Page>, pages': seq<Page>, base: nat, n: nat) {
    && |pages'| == |pages|
    && forall p :: 0 <= p < |pages| ==>
         pages'[p].ref == (if base <= p < base + n then 0 else pages[p].ref) && pages'[p].reserved == pages[p].reserved
  }

  /** Pages base to base + n - 1 are no longer reserved, and have no references. */
  ghost predicate Opened(pages: seq<Page>, pages': seq<Page>, base: nat, n: nat) {
    && |pages'| == |pages|
    && forall p :: 0 <= p < |pages| ==>
         && pages'[p].ref == (if base <= p < base + n then 0 else pages[p].ref)
         && pages'[p].reserved == (!(base <= p < base + n) && pages[p].reserved)
  }

  /** The pages of free blocks are not reserved. */
  ghost predicate Usable(pages: seq<Page>, bs: seq<Block>) {
    forall u: nat {:trigger Inside(bs, u)} :: u < |pages| && Inside(bs, u) ==> !pages[u].reserved
  }

  lemma UsableStill(pages: seq<Page>, bs: seq<Block>, pages': seq<Page>, bs': seq<Block>, base: nat, n: nat)
    requires Usable(pages, bs) && |pages'| == |pages|
    requires forall p :: 0 <= p < |pages| ==> pages'[p].reserved == pages[p].reserved
    requires forall u: nat {:trigger Inside(bs', u)} :: Inside(bs', u) ==> Inside(bs, u) || base <= u < base + n
    requires forall p :: base <= p < base + n && p < |pages| ==> !pages[p].reserved
    ensures Usable(pages', bs')
  {
  }

  /** A region of reserved pages overlaps no free block. */
  lemma ReservedApart(pages: seq<Page>, bs: seq<Block>, b: Block)
    requires Usable(pages, bs) && Recorded(pages, bs) && End(b) <= |pages| && b.size > 0
    requires forall p :: b.addr <= p < End(b) ==> pages[p].reserved
    ensures forall p: nat :: b.addr <= p < End(b) ==> !pages[p].head && pages[p].property == 0
    ensures forall i :: 0 <= i < |bs| ==> bs[i].addr != b.addr
  {
    forall i | 0 <= i < |bs|
      ensures !(b.addr <= bs[i].addr < End(b))
    {
      assert Holds(bs[i], bs[i].addr) && Inside(bs, bs[i].addr);
    }
    forall p: nat | b.addr <= p < End(b)
      ensures !pages[p].head && pages[p].property == 0
    {
      assert !IsHead(bs, p);
    }
  }

  /** What default_init_memmap makes of the pages. */
  /** Pages base to base + n - 1 are blank, the others as before. */
  ghost predicate Blank(pages: seq<Page>, pages': seq<Page>, base: nat, n: nat) {
    && |pages'| == |pages|
    && forall p :: 0 <= p < |pages| ==>
         pages'[p] == if base <= p < base + n then Page(0, false, false, 0) else pages[p]
  }

  /** Once blank pages are marked as a block, they are open and the pages of all blocks may be used. */
  lemma OpenedOk(pages: seq<Page>, blank: seq<Page>, bs: seq<Block>, b: Block)
    requires Usable(pages, bs) && Blank(pages, blank, b.addr, b.size) && b.size > 0 && End(b) <= |pages|
    ensures
      var pages' := blank[b.addr := Heading(blank[b.addr], b.size)];
      Opened(pages, pages', b.addr, b.size) && Usable(pages', bs + [b])
  {
    OpenedUsable(pages, blank[b.addr := Heading(blank[b.addr], b.size)], bs, b);
  }

  lemma OpenedUsable(pages: seq<Page>, pages': seq<Page>, bs: seq<Block>, b: Block)
    requires Usable(pages, bs) && |pages'| == |pages|
    requires forall p :: 0 <= p < |pages| ==> pages'[p].reserved == (!(b.addr <= p < End(b)) && pages[p].reserved)
    ensures Usable(pages', bs + [b])
  {
    forall u: nat | u < |pages| && Inside(bs + [b], u)
      ensures !pages'[u].reserved
    {
      var i :| 0 <= i < |bs + [b]| && Holds((bs + [b])[i], u);
      assert i < |bs| ==> Holds(bs[i], u) && Inside(bs, u);
    }
  }

  class FirstFit {
    const ring: Ring
    var pages: seq<Page>
    var nrFree: nat
    ghost var blocks: seq<Block>

    ghost predicate ListOk()
      reads this, ring, ring.next, ring.prev
    {
      ring.Valid() && ring.next.Length == |pages| + 1 && Recorded(pages, blocks) && Listed(ring.items, blocks)
    }

    /** What holds whatever regions have been appended, in whatever order. */
    ghost predicate Sound()
      reads this, ring, ring.next, ring.prev
    {
      ListOk() && Usable(pages, blocks) && nrFree == Total(blocks)
    }

    ghost predicate Valid()
      reads this, ring, ring.next, ring.prev
    {
      Sound() && Coalesced(blocks)
    }

    /** default_init, with all pages reserved. */
    constructor (n: nat)
      ensures Valid() && blocks == [] && |pages| == n && forall p :: 0 <= p < n ==> pages[p].reserved
      ensures fresh(ring) && fresh(ring.next) && fresh(ring.prev)
    {
      ring := new Ring(n);
      pages, nrFree, blocks := seq(n, i => Page(0, false, true, 0)), 0, [];
    }

    /** The search of default_alloc_pages. */
    method Find(n: nat) returns (page: Option<nat>, ghost j: nat)
      requires Valid() && n > 0
      ensures page.None? ==> forall i :: 0 <= i < |blocks| ==> blocks[i].size < n
      ensures page.Some? ==>
        j < |blocks| && page.value == blocks[j].addr && blocks[j].size >= n
          && forall i :: 0 <= i < j ==> blocks[i].size < n
    {
      j := 0;
      var le := ring.next[0];
      ring.Links(0);
      while le != 0
        invariant j <= |blocks| && le == RingAt(ring.items, j + 1) && forall i :: 0 <= i < j ==> blocks[i].size < n
        decreases |blocks| - j
      {
        var p := le - 1;
        if pages[p].property >= n {
          return Some(p), j;
        }
        ring.Links(j + 1);
        le := ring.next[le];
        j := j + 1;
      }
      page := None;
    }

    /** default_alloc_pages: the lowest block that is large enough gives its first n pages. */
    method Alloc(n: nat) returns (page: Option<nat>)
      requires Valid() && n > 0
      modifies this, ring, ring.next, ring.prev
      ensures Valid() && SameUse(old(pages), pages)
      ensures page.None? <==> forall i :: 0 <= i < |old(blocks)| ==> old(blocks)[i].size < n
      ensures page.None? ==> blocks == old(blocks) && pages == old(pages)
      ensures page.Some? ==> exists j ::
        && 0 <= j < |old(blocks)| && page.value == old(blocks)[j].addr && old(blocks)[j].size >= n
        && (forall i :: 0 <= i < j ==> old(blocks)[i].size < n)
        && blocks == Take(old(blocks), j, n)
    {
      if n > nrFree {
        forall i | 0 <= i < |blocks|
          ensures blocks[i].size < n
        {
          PartOfTotal(blocks, i);
        }
        return None;
      }
      ghost var j;
      page, j := Find(n);
      if page.Some? {
        TakeAt(page.value, n, j);
      }
    }

    /** The end of default_alloc_pages. */
    method TakeAt(page: nat, n: nat, ghost j: nat)
      requires Valid() && j < |blocks| && page == blocks[j].addr && 0 < n <= blocks[j].size
      modifies this, ring, ring.next, ring.prev
      ensures Valid() && blocks == Take(old(blocks), j, n) && SameUse(old(pages), pages)
    {
      TotalTake(blocks, j, n);
      TakeOk(blocks, j, n);
      ghost var bs, pages0 := blocks, pages;
      var prop := pages[page].property;
      nrFree := nrFree - n;
      if prop > n {
        TakePart(page, n, j);
      } else {
        TakeWhole(page, j);
      }
      UsableStill(pages0, bs, pages, blocks, 0, 0);
    }

    method TakeWhole(page: nat, ghost j: nat)
      requires ListOk() && Coalesced(blocks) && j < |blocks| && page == blocks[j].addr
      modifies ring, ring.next, ring.prev, `pages, `blocks
      ensures ListOk() && blocks == Take(old(blocks), j, old(blocks)[j].size) && SameUse(old(pages), pages)
    {
      RecordRemove(pages, blocks, j);
      pages := pages[page := pages[page].(head := false, property := 0)];
      ring.Delete(page + 1, j);
      blocks := Take(blocks, j, blocks[j].size);
    }

    /** What is left of block j is a block that starts n pages later. */
    method TakePart(page: nat, n: nat, ghost j: nat)
      requires ListOk() && Coalesced(blocks) && j < |blocks| && page == blocks[j].addr && 0 < n < blocks[j].size
      modifies ring, ring.next, ring.prev, `pages, `blocks
      ensures ListOk() && blocks == Take(old(blocks), j, n) && SameUse(old(pages), pages)
    {
      ghost var bs, items, c := blocks, ring.items, Block(page + n, blocks[j].size - n);
      var prop, p := pages[page].property, page + n;
      FreshNode(bs, j, p);
      RecordMove(pages, bs, j, c);
      ghost var cleared := pages[page := Plain(pages[page])];
      pages := pages[page := pages[page].(head := false, property := 0)];
      assert pages == cleared;
      pages := pages[p := pages[p].(head := true, property := prop - n)];
      assert pages == cleared[p := Heading(cleared[p], c.size)];
      NotListed(items, bs, p);
      ListedMove(items, bs, j, c);
      blocks := bs[j := c];
      assert blocks == Take(bs, j, n);
      assert Recorded(pages, blocks);
      MoveNode(page + 1, p + 1, j);
      assert ring.items == items[j := c.addr + 1];
    }

    /** Node elm takes the place of item j of the free list. */
    method MoveNode(node: nat, elm: nat, ghost j: nat)
      requires ring.Valid() && j < |ring.items| && node == ring.items[j] && 0 < elm < ring.next.Length
        && elm !in ring.items
      modifies ring, ring.next, ring.prev
      ensures ring.Valid() && ring.items == old(ring.items)[j := elm]
    {
      ring.Links(j);
      var le0 := ring.prev[node];
      ring.Delete(node, j);
      ring.AddAfter(le0, elm, j);
    }

    /** The state inside default_free_pages, once the block at base is marked and before it is in the list. */
    ghost predicate Marked(base: nat, n: nat, q: nat, was: seq<Page>, after: seq<Block>)
      reads this, ring, ring.next, ring.prev
    {
      && ring.Valid() && ring.next.Length == |pages| + 1 == |was| + 1
      && Ready(was, blocks, ring.items, q, Block(base, n))
      && pages == was[base := Heading(was[base], n)]
      && PutIs(blocks, q, Block(base, n), after)
    }

    /** The links and the pages are set for the free list bs, whose nodes are items. */
    ghost predicate RingOk(items: seq<nat>, after: seq<Block>)
      reads this, ring, ring.next, ring.prev
    {
      ring.Valid() && ring.next.Length == |pages| + 1 && Listed(items, after)
    }

    /** The block joins the list between two others, or at an end: before le. */
    method FreeBetween(base: nat, le: nat, ghost k: nat, ghost after: seq<Block>)
      requires k <= |ring.items| && le == RingAt(ring.items, k + 1) && base < |pages| && base + 1 !in ring.items
      requires RingOk(ring.items[..k] + [base + 1] + ring.items[k..], after) && Recorded(pages, after)
      modifies ring, ring.next, ring.prev, `blocks
      ensures ListOk() && blocks == after
    {
      ring.AddBefore(le, base + 1, k);
      blocks := after;
    }

    /** The block takes in the one above it, p, and its place in the list. */
    method FreeBelow(base: nat, p: nat, ghost k: nat, ghost final: seq<Page>, ghost after: seq<Block>)
      requires k < |ring.items| && p + 1 == ring.items[k] && base < |pages| && p < |pages| && base + 1 !in ring.items
      requires RingOk(ring.items[k := base + 1], after) && Recorded(final, after) && final == BelowPages(pages, base, p)
      modifies ring, ring.next, ring.prev, `pages, `blocks
      ensures ListOk() && blocks == after && SameUse(old(pages), pages)
    {
      ghost var items1 := ring.items[k := base + 1];
      pages := pages[base := pages[base].(property := pages[base].property + pages[p].property)];
      pages := pages[p := pages[p].(head := false)];
      pages := pages[p := pages[p].(property := 0)];
      assert pages == final;
      ReplaceNode(p + 1, base + 1, k);
      assert ring.items == items1;
      blocks := after;
    }

    /** Node elm takes the place of item j, put before its successor. */
    method ReplaceNode(node: nat, elm: nat, ghost j: nat)
      requires ring.Valid() && j < |ring.items| && node == ring.items[j] && 0 < elm < ring.next.Length
        && elm !in ring.items
      modifies ring, ring.next, ring.prev
      ensures ring.Valid() && ring.items == old(ring.items)[j := elm]
    {
      ring.Links(j + 1);
      var le := ring.next[node];
      ring.Delete(node, j);
      ring.AddBefore(le, elm, j);
    }

    /** The block p below takes it in. */
    method FreeAbove(base: nat, p: nat, ghost final: seq<Page>, ghost after: seq<Block>)
      requires base < |pages| && p < |pages| && p != base
      requires RingOk(ring.items, after) && Recorded(final, after) && final == AbovePages(pages, base, p)
      modifies `pages, `blocks
      ensures ListOk() && blocks == after && SameUse(old(pages), pages)
    {
      pages := pages[base := pages[base].(head := false)];
      pages := pages[p := pages[p].(property := pages[p].property + pages[base].property)];
      pages := pages[base := pages[base].(property := 0)];
      assert pages == final;
      blocks := after;
    }

    /** The block p below takes it in, and the block p0 above as well. */
    method FreeBoth(base: nat, p: nat, p0: nat, ghost k: nat, ghost final: seq<Page>, ghost after: seq<Block>)
      requires base < |pages| && p < |pages| && p0 < |pages| && p != base && base != p0 && p0 != p
      requires k < |ring.items| && p0 + 1 == ring.items[k]
      requires RingOk(ring.items[..k] + ring.items[k + 1..], after) && Recorded(final, after)
        && final == BothPages(pages, base, p, p0)
      modifies ring, ring.next, ring.prev, `pages, `blocks
      ensures ListOk() && blocks == after && SameUse(old(pages), pages)
    {
      ghost var items1 := ring.items[..k] + ring.items[k + 1..];
      pages := pages[base := pages[base].(head := false)];
      pages := pages[p0 := pages[p0].(head := false)];
      pages := pages[p := pages[p].(property := pages[p].property + (pages[base].property + pages[p0].property))];
      pages := pages[p0 := pages[p0].(property := 0)];
      pages := pages[base := pages[base].(property := 0)];
      assert pages == final;
      ring.Delete(p0 + 1, k);
      assert ring.items == items1;
      blocks := after;
    }

    /** The page loop of default_free_pages: no flags, no references. */
    method ClearRange(base: nat, n: nat)
      requires n > 0 && base + n <= |pages| && forall p :: base <= p < base + n ==> !pages[p].reserved && !pages[p].head
      modifies `pages
      ensures |pages| == |old(pages)|
      ensures forall p :: 0 <= p < |pages| ==>
        pages[p] == if base <= p < base + n then old(pages)[p].(ref := 0) else old(pages)[p]
    {
      var p := base;
      while p != base + n
        invariant base <= p <= base + n && |pages| == |old(pages)|
        invariant forall k :: 0 <= k < |pages| ==>
          pages[k] == if base <= k < p then old(pages)[k].(ref := 0) else old(pages)[k]
      {
        assert !pages[p].reserved && !pages[p].head;
        pages := pages[p := pages[p].(head := false, reserved := false, ref := 0)];
        p := p + 1;
      }
    }

    method SettleBelow(base: nat, n: nat, p: nat, ghost q: nat, ghost was: seq<Page>, ghost after: seq<Block>)
      requires Marked(base, n, q, was, after) && q < |blocks|
      requires p == blocks[q].addr == base + n && (q > 0 ==> End(blocks[q - 1]) < base)
      modifies ring, ring.next, ring.prev, `pages, `blocks
      ensures ListOk() && blocks == after && SameUse(old(pages), pages)
    {
      ghost var b := Block(base, n);
      assert after == Grow(blocks, q, b);
      ghost var final := BelowFinal(was, blocks, ring.items, q, b, after);
      FreeBelow(base, p, q, final, after);
    }

    method SettleAbove(base: nat, n: nat, p: nat, ghost q: nat, ghost was: seq<Page>, ghost after: seq<Block>)
      requires Marked(base, n, q, was, after) && q > 0 && p == blocks[q - 1].addr && End(blocks[q - 1]) == base
      requires q < |blocks| ==> base + n < blocks[q].addr
      modifies `pages, `blocks
      ensures ListOk() && blocks == after && SameUse(old(pages), pages)
    {
      assert after == AboveBlocks(blocks, q, n);
      ghost var final := AboveFinal(was, blocks, ring.items, q, Block(base, n), after);
      assert final == AbovePages(pages, base, p) && p != base;
      FreeAbove(base, p, final, after);
    }

    method SettleBoth(base: nat, n: nat, p: nat, p0: nat, ghost q: nat, ghost was: seq<Page>, ghost after: seq<Block>)
      requires Marked(base, n, q, was, after) && 0 < q < |blocks| && p == blocks[q - 1].addr
        && End(blocks[q - 1]) == base
      requires p0 == blocks[q].addr == base + n
      modifies ring, ring.next, ring.prev, `pages, `blocks
      ensures ListOk() && blocks == after && SameUse(old(pages), pages)
    {
      assert after == BothBlocks(blocks, q, n);
      ghost var final := BothFinal(was, blocks, ring.items, q, Block(base, n), after);
      FreeBoth(base, p, p0, q, final, after);
    }

    method SettleBetween(base: nat, n: nat, le: nat, ghost q: nat, ghost was: seq<Page>, ghost after: seq<Block>)
      requires Marked(base, n, q, was, after) && le == RingAt(ring.items, q + 1)
      requires (q > 0 ==> End(blocks[q - 1]) < base) && (q < |blocks| ==> base + n < blocks[q].addr)
      modifies ring, ring.next, ring.prev, `blocks
      ensures ListOk() && blocks == after
    {
      assert after == Insert(blocks, q, Block(base, n));
      BetweenFinal(was, blocks, ring.items, q, Block(base, n), after);
      FreeBetween(base, le, q, after);
    }

    /** One round of the search of default_free_pages, at block i: the block is settled, or
        it belongs after block i. */
    method Settle(base: nat, n: nat, p: nat, le: nat, ghost i: nat, ghost q: nat, ghost was: seq<Page>,
                  ghost after: seq<Block>)
      returns (done: bool)
      requires Marked(base, n, q, was, after) && i < |blocks| && Reached(blocks, q, Block(base, n), i)
      requires p == blocks[i].addr && le == RingAt(ring.items, i + 2)
      modifies ring, ring.next, ring.prev, `pages, `blocks
      ensures done ==> ListOk() && blocks == after && SameUse(old(pages), pages)
      ensures !done ==> pages == old(pages) && blocks == old(blocks) && ring.items == old(ring.items)
      ensures !done ==> Marked(base, n, q, was, after) && Reached(blocks, q, Block(base, n), i + 1)
    {
      Which(blocks, q, Block(base, n), i);
      var p0: int := le - 1;
      assert p0 == if i + 1 < |blocks| then blocks[i + 1].addr else -1;
      assert pages[base].property == n && pages[p].property == blocks[i].size;
      done := true;
      if base + pages[base].property == p {
        SettleBelow(base, n, p, q, was, after);
      } else if p + pages[p].property == base {
        if base + pages[base].property == p0 {
          SettleBoth(base, n, p, p0, q, was, after);
        } else {
          SettleAbove(base, n, p, q, was, after);
        }
      } else if p + pages[p].property < base && base + pages[base].property < p0 {
        SettleBetween(base, n, le, q, was, after);
      } else {
        done := false;
      }
    }

    /** default_free_pages of n pages that are in use: they go back where they belong, and
        merge with the free block below, above, both or none. */
    method Free(base: nat, n: nat, ghost q: nat)
      requires Valid() && n > 0 && base + n <= |pages| && Between(blocks, q, Block(base, n))
      requires forall p :: base <= p < base + n ==> !pages[p].reserved
      modifies this, ring, ring.next, ring.prev
      ensures Valid() && blocks == Put(old(blocks), q, Block(base, n)) && Released(old(pages), pages, base, n)
    {
      ghost var after := Put(blocks, q, Block(base, n));
      PutOk(blocks, q, Block(base, n));
      TotalPut(blocks, q, Block(base, n));
      PutCases(blocks, q, Block(base, n));
      ghost var bs, pages0 := blocks, pages;
      Place(base, n, q, after);
      UsableStill(pages0, bs, pages, after, base, n);
    }

    /** default_free_pages, for what is to become of the list. */
    method Place(base: nat, n: nat, ghost q: nat, ghost after: seq<Block>)
      requires Valid() && n > 0 && base + n <= |pages| && Between(blocks, q, Block(base, n))
      requires forall p :: base <= p < base + n ==> !pages[p].reserved
      requires PutIs(blocks, q, Block(base, n), after) && Coalesced(after) && Total(after) == Total(blocks) + n
      modifies this, ring, ring.next, ring.prev
      ensures ListOk() && nrFree == Total(blocks) && blocks == after && Released(old(pages), pages, base, n)
    {
      ghost var pages0 := pages;
      EmptyTotal(blocks);
      ghost var was := Mark(base, n, q, after);
      ghost var marked := pages;
      Insertion(base, n, q, was, after);
      ReleasedStill(pages0, marked, pages, base, n);
    }

    /** The pages become one block that is not in the list yet. */
    method Mark(base: nat, n: nat, ghost q: nat, ghost after: seq<Block>) returns (ghost was: seq<Page>)
      requires ListOk() && Coalesced(blocks) && n > 0 && base + n <= |pages| && Between(blocks, q, Block(base, n))
      requires PutIs(blocks, q, Block(base, n), after)
      requires forall p :: base <= p < base + n ==> !pages[p].reserved
      modifies `pages
      ensures Marked(base, n, q, was, after) && Released(old(pages), pages, base, n)
    {
      InUse(pages, blocks, q, Block(base, n));
      ghost var pages0 := pages;
      ClearRange(base, n);
      was := pages;
      ClearedReady(pages0, was, blocks, ring.items, q, Block(base, n));
      pages := pages[base := pages[base].(property := n)];
      pages := pages[base := pages[base].(head := true)];
      assert pages == was[base := Heading(was[base], n)];
    }

    /** The rest of default_free_pages. */
    method Insertion(base: nat, n: nat, ghost q: nat, ghost was: seq<Page>, ghost after: seq<Block>)
      requires Marked(base, n, q, was, after) && (nrFree == 0 <==> blocks == [])
      modifies this, ring, ring.next, ring.prev
      ensures ListOk() && blocks == after && SameUse(old(pages), pages) && nrFree == old(nrFree) + n
    {
      if nrFree == 0 {
        SettleBetween(base, n, 0, q, was, after);
        nrFree := n;
        return;
      }
      ring.Links(0);
      var le := ring.next[0];
      nrFree := nrFree + n;
      var p := le - 1;
      if base + pages[base].property < p {
        SettleBetween(base, n, le, q, was, after);
      } else {
        SearchPlace(base, n, q, was, after);
      }
    }

    /** The search of default_free_pages has come to block i, at node le. */
    ghost predicate Searching(base: nat, n: nat, q: nat, was: seq<Page>, after: seq<Block>, le: nat, i: nat)
      reads this, ring, ring.next, ring.prev
    {
      && Marked(base, n, q, was, after) && i <= |blocks| && le == RingAt(ring.items, i + 1)
      && Reached(blocks, q, Block(base, n), i)
    }

    /** One round of it. */
    method Round(base: nat, n: nat, le: nat, ghost i: nat, ghost q: nat, ghost was: seq<Page>, ghost after: seq<Block>)
      returns (done: bool, next: nat)
      requires Searching(base, n, q, was, after, le, i) && le != 0
      modifies ring, ring.next, ring.prev, `pages, `blocks
      ensures done ==> ListOk() && blocks == after && SameUse(old(pages), pages)
      ensures !done ==> Searching(base, n, q, was, after, next, i + 1) && pages == old(pages) && blocks == old(blocks)
      ensures old(i < |blocks|)
    {
      ring.Links(i + 1);
      next := ring.next[le];
      done := Settle(base, n, le - 1, next, i, q, was, after);
    }

    /** The search loop of default_free_pages: it settles the block, or comes back to the list head. */
    method SearchLoop(base: nat, n: nat, ghost q: nat, ghost was: seq<Page>, ghost after: seq<Block>)
      returns (done: bool, ghost i: nat)
      requires Marked(base, n, q, was, after) && Reached(blocks, q, Block(base, n), 0)
      modifies ring, ring.next, ring.prev, `pages, `blocks
      ensures SameUse(old(pages), pages)
      ensures if done then ListOk() && blocks == after else Searching(base, n, q, was, after, 0, i)
    {
      ring.Links(0);
      var le := ring.next[0];
      ghost var bs := blocks;
      i, done := 0, false;
      while le != 0 && !done
        invariant if done then ListOk() && blocks == after else Searching(base, n, q, was, after, le, i) && blocks == bs
        invariant SameUse(old(pages), pages)
        decreases !done, |bs| - i
      {
        done, le := Round(base, n, le, i, q, was, after);
        i := i + 1;
      }
    }

    /** The block goes where it belongs, at the end if the loop did not settle it. */
    method SearchPlace(base: nat, n: nat, ghost q: nat, ghost was: seq<Page>, ghost after: seq<Block>)
      requires Marked(base, n, q, was, after) && Reached(blocks, q, Block(base, n), 0)
      modifies ring, ring.next, ring.prev, `pages, `blocks
      ensures ListOk() && blocks == after && SameUse(old(pages), pages)
    {
      var done;
      ghost var i;
      done, i := SearchLoop(base, n, q, was, after);
      if !done {
        SettleBetween(base, n, 0, q, was, after);
      }
    }

    /** default_init_memmap of any reserved pages: they become the last block of the list,
        which stays in order and with gaps exactly when they lie above the last block and
        do not touch it. */
    method InitMemmap(base: nat, n: nat)
      requires Sound() && n > 0 && base + n <= |pages|
      requires forall p :: base <= p < base + n ==> pages[p].reserved
      modifies this, ring, ring.next, ring.prev
      ensures Sound() && blocks == old(blocks) + [Block(base, n)] && Opened(old(pages), pages, base, n)
      ensures Valid() <==> old(Valid()) && (old(blocks) == [] || End(old(blocks)[|old(blocks)| - 1]) < base)
    {
      ghost var bs, pages0 := blocks, pages;
      ReservedApart(pages, bs, Block(base, n));
      OpenRange(base, n);
      OpenedOk(pages0, pages, bs, Block(base, n));
      AppendBlock(base, n);
      nrFree := nrFree + n;
      AppendCoalesced(bs, Block(base, n));
      TotalConcat(bs, [Block(base, n)]);
    }

    /** The end of default_init_memmap. */
    method AppendBlock(base: nat, n: nat)
      requires ListOk() && n > 0 && base + n <= |pages| && forall i :: 0 <= i < |blocks| ==> blocks[i].addr != base
      modifies ring, ring.next, ring.prev, `pages, `blocks
      ensures ListOk() && blocks == old(blocks) + [Block(base, n)]
      ensures pages == old(pages)[base := Heading(old(pages)[base], n)]
    {
      ghost var was, items, after := pages, ring.items, blocks + [Block(base, n)];
      ghost var marked, nodes := was[base := Heading(was[base], n)], items + [base + 1];
      AppendRecord(was, blocks, items, Block(base, n));
      pages := pages[base := pages[base].(property := n)];
      pages := pages[base := pages[base].(head := true)];
      assert pages == marked;
      assert items[..|items|] + [base + 1] + items[|items|..] == nodes;
      FreeBetween(base, 0, |items|, after);
    }

    /** The page loop of default_init_memmap. */
    method OpenRange(base: nat, n: nat)
      requires ListOk() && n > 0 && base + n <= |pages|
      requires forall p :: base <= p < base + n ==> pages[p].reserved && !pages[p].head && pages[p].property == 0
      modifies `pages
      ensures ListOk() && Blank(old(pages), pages, base, n)
    {
      ghost var pages0 := pages;
      var p := base;
      while p != base + n
        invariant base <= p <= base + n && Blank(pages0, pages, base, p - base)
      {
        assert pages[p].reserved;
        pages := pages[p := Page(0, false, false, 0)];
        p := p + 1;
      }
      RecordSame(pages0, pages, blocks);
    }
  }

  lemma ReleasedStill(pages: seq<Page>, marked: seq<Page>, pages': seq<Page>, base: nat, n: nat)
    requires Released(pages, marked, base, n) && SameUse(marked, pages')
    ensures Released(pages, pages', base, n)
  {
  }

  lemma Above(bs: seq<Block>, b: Block)
    requires Coalesced(bs) && b.size > 0 && (bs == [] || End(bs[|bs| - 1]) < b.addr)
    ensures Between(bs, |bs|, b)
  {
    assert forall i :: 0 <= i < |bs| - 1 ==> End(bs[i]) < bs[|bs| - 1].addr;
  }

  /** A region that default_init_memmap appends leaves the list in order, with gaps,
      exactly when it starts above the last block and does not touch it. */
  lemma AppendCoalesced(bs: seq<Block>, b: Block)
    requires b.size > 0
    ensures Coalesced(bs + [b]) <==> Coalesced(bs) && (bs == [] || End(bs[|bs| - 1]) < b.addr)
  {
    var cs := bs + [b];
    assert bs != [] ==> cs[|bs| - 1] == bs[|bs| - 1] && cs[|bs|] == b;
    if Coalesced(bs) && (bs == [] || End(bs[|bs| - 1]) < b.addr) {
      Above(bs, b);
    }
    if Coalesced(cs) {
      assert forall i :: 0 <= i < |bs| ==> cs[i] == bs[i];
    }
  }

  lemma AppendRecord(pages: seq<Page>, bs: seq<Block>, items: seq<nat>, b: Block)
    requires Recorded(pages, bs) && Listed(items, bs) && b.size > 0 && End(b) <= |pages|
    requires forall i :: 0 <= i < |bs| ==> bs[i].addr != b.addr
    ensures Recorded(pages[b.addr := Heading(pages[b.addr], b.size)], bs + [b])
    ensures b.addr + 1 !in items && Listed(items + [b.addr + 1], bs + [b])
  {
    NotListed(items, bs, b.addr);
    RecordInsert(pages, bs, |bs|, b);
    assert Insert(bs, |bs|, b) == bs + [b];
  }

  /** Freeing what was just allocated restores the free list. */
  lemma AllocThenFree(bs: seq<Block>, j: nat, n: nat) returns (q: nat)
    requires Coalesced(bs) && j < |bs| && 0 < n <= bs[j].size
    ensures
      var b := Block(bs[j].addr, n);
      Between(Take(bs, j, n), q, b) && Put(Take(bs, j, n), q, b) == bs
  {
    var b, ts := Block(bs[j].addr, n), Take(bs, j, n);
    TakeOk(bs, j, n);
    q := Apart(ts, b);
    PutOk(ts, q, b);
    forall u
      ensures Inside(Put(ts, q, b), u) <==> Inside(bs, u)
    {
      assert Holds(b, u) ==> Holds(bs[j], u);
    }
    Canonical(Put(ts, q, b), bs);
  }

  /** Clearing references does not change what the pages record. */
  lemma RecordSame(pages: seq<Page>, pages': seq<Page>, bs: seq<Block>)
    requires Recorded(pages, bs) && |pages'| == |pages|
    requires forall p :: 0 <= p < |pages| ==> pages'[p].head == pages[p].head && pages'[p].property == pages[p].property
    ensures Recorded(pages', bs)
  {
  }

  /** What the tests of the search say about where b belongs. */
  lemma Which(bs: seq<Block>, q: nat, b: Block, i: nat)
    requires Coalesced(bs) && Between(bs, q, b) && i < |bs| && Reached(bs, q, b, i)
    ensures End(b) == bs[i].addr ==> i == q && (q > 0 ==> End(bs[q - 1]) < b.addr)
    ensures End(bs[i]) == b.addr ==> q == i + 1
    ensures End(bs[i]) < b.addr && i + 1 < |bs| && End(b) < bs[i + 1].addr ==> q == i + 1
    ensures
      || End(b) == bs[i].addr || End(bs[i]) == b.addr
         || (End(bs[i]) < b.addr && i + 1 < |bs| && End(b) < bs[i + 1].addr)
      || Reached(bs, q, b, i + 1)
  {
    assert q > 0 ==> End(bs[q - 1]) <= b.addr;
    assert q < |bs| ==> End(b) <= bs[q].addr;
  }

  /** Pages that overlap no free block are not the head of one. */
  lemma InUse(pages: seq<Page>, bs: seq<Block>, q: nat, b: Block)
    requires Recorded(pages, bs) && Between(bs, q, b) && End(b) <= |pages|
    ensures forall p: nat :: b.addr <= p < End(b) ==> !pages[p].head && pages[p].property == 0
  {
    forall p: nat | b.addr <= p < End(b)
      ensures !pages[p].head && pages[p].property == 0
    {
      assert !IsHead(bs, p);
    }
  }

  lemma {:induction false} EmptyTotal(bs: seq<Block>)
    requires forall i :: 0 <= i < |bs| ==> bs[i].size > 0
    ensures Total(bs) == 0 <==> bs == []
  {
  }

  /** The search of default_free_pages is at block i, and the place of b is at or after it. */
  ghost predicate Reached(bs: seq<Block>, q: nat, b: Block, i: nat) {
    && q <= |bs| && i <= |bs|
    && (q == 0 ==> i == 0 && bs != [] && End(b) == bs[0].addr)
    && (q > 0 ==> i <= q)
    && (q > 0 && i == q ==> End(bs[q - 1]) < b.addr && (q < |bs| ==> End(b) == bs[q].addr))
  }

  // ---------- the four ways to put a block back ----------

  ghost predicate Ready(was: seq<Page>, bs: seq<Block>, items: seq<nat>, q: nat, b: Block) {
    && Coalesced(bs) && Recorded(was, bs) && Listed(items, bs) && Between(bs, q, b) && End(b) <= |was|
    && !was[b.addr].head && was[b.addr].property == 0
  }

  lemma ClearedReady(pages: seq<Page>, was: seq<Page>, bs: seq<Block>, items: seq<nat>, q: nat, b: Block)
    requires Coalesced(bs) && Recorded(pages, bs) && Listed(items, bs) && Between(bs, q, b)
      && End(b) <= |was| == |pages|
    requires forall p :: 0 <= p < |pages| ==> was[p].head == pages[p].head && was[p].property == pages[p].property
    ensures Ready(was, bs, items, q, b)
  {
    InUse(pages, bs, q, b);
    RecordSame(pages, was, bs);
  }

  /** Page base takes over the block of page p. */
  function BelowPages(pages: seq<Page>, base: nat, p: nat): seq<Page>
    requires base < |pages| && p < |pages|
  {
    pages[base := pages[base].(property := pages[base].property + pages[p].property)][p := Plain(pages[p])]
  }

  /** Page p takes over the block of page base. */
  function AbovePages(pages: seq<Page>, base: nat, p: nat): seq<Page>
    requires base < |pages| && p < |pages|
  {
    pages[p := pages[p].(property := pages[p].property + pages[base].property)][base := Plain(pages[base])]
  }

  /** Page p takes over the blocks of base and p0. */
  function BothPages(pages: seq<Page>, base: nat, p: nat, p0: nat): seq<Page>
    requires base < |pages| && p < |pages| && p0 < |pages|
  {
    pages[p := pages[p].(property := pages[p].property + (pages[base].property + pages[p0].property))]
         [p0 := Plain(pages[p0])][base := Plain(pages[base])]
  }

  /** Block q - 1 takes over n pages. */
  function AboveBlocks(bs: seq<Block>, q: nat, n: nat): seq<Block>
    requires 0 < q <= |bs|
  {
    bs[q - 1 := Block(bs[q - 1].addr, bs[q - 1].size + n)]
  }

  /** Block q - 1 takes over n pages and block q. */
  function BothBlocks(bs: seq<Block>, q: nat, n: nat): seq<Block>
    requires 0 < q < |bs|
  {
    (bs[..q] + bs[q + 1..])[q - 1 := Block(bs[q - 1].addr, bs[q - 1].size + (n + bs[q].size))]
  }

  lemma BetweenFinal(was: seq<Page>, bs: seq<Block>, items: seq<nat>, q: nat, b: Block, after: seq<Block>)
    requires Ready(was, bs, items, q, b) && after == Insert(bs, q, b)
    requires (q > 0 ==> End(bs[q - 1]) < b.addr) && (q < |bs| ==> End(b) < bs[q].addr)
    ensures b.addr + 1 !in items && Listed(items[..q] + [b.addr + 1] + items[q..], after)
    ensures Recorded(was[b.addr := Heading(was[b.addr], b.size)], after)
  {
    BetweenApart(bs, q, b);
    NotListed(items, bs, b.addr);
    RecordInsert(was, bs, q, b);
    ListedInsert(items, bs, q, b);
  }

  lemma BelowFinal(was: seq<Page>, bs: seq<Block>, items: seq<nat>, q: nat, b: Block, after: seq<Block>)
    returns (final: seq<Page>)
    requires Ready(was, bs, items, q, b) && q < |bs| && End(b) == bs[q].addr && (q > 0 ==> End(bs[q - 1]) < b.addr)
    requires after == Grow(bs, q, b)
    ensures b.addr + 1 !in items && Listed(items[q := b.addr + 1], after) && Recorded(final, after)
    ensures final == BelowPages(was[b.addr := Heading(was[b.addr], b.size)], b.addr, bs[q].addr)
  {
    BetweenApart(bs, q, b);
    NotListed(items, bs, b.addr);
    var c := Block(b.addr, b.size + bs[q].size);
    RecordMove(was, bs, q, c);
    ListedMove(items, bs, q, c);
    var cleared := was[bs[q].addr := Plain(was[bs[q].addr])];
    final := cleared[c.addr := Heading(cleared[c.addr], c.size)];
  }

  lemma AboveFinal(was: seq<Page>, bs: seq<Block>, items: seq<nat>, q: nat, b: Block, after: seq<Block>)
    returns (final: seq<Page>)
    requires Ready(was, bs, items, q, b) && q > 0 && End(bs[q - 1]) == b.addr && (q < |bs| ==> End(b) < bs[q].addr)
    requires after == AboveBlocks(bs, q, b.size)
    ensures Listed(items, after) && Recorded(final, after)
    ensures final == AbovePages(was[b.addr := Heading(was[b.addr], b.size)], b.addr, bs[q - 1].addr)
  {
    var p := bs[q - 1].addr;
    RecordGrow(was, bs, q - 1, b.size);
    final := was[p := was[p].(property := was[p].property + b.size)];
    assert Recorded(final, after);
    UnmarkAbove(was, b.addr, b.size, p);
  }

  lemma BothFinal(was: seq<Page>, bs: seq<Block>, items: seq<nat>, q: nat, b: Block, after: seq<Block>)
    returns (final: seq<Page>)
    requires Ready(was, bs, items, q, b) && 0 < q < |bs| && End(bs[q - 1]) == b.addr && End(b) == bs[q].addr
    requires after == BothBlocks(bs, q, b.size)
    ensures Listed(items[..q] + items[q + 1..], after) && Recorded(final, after)
    ensures final == BothPages(was[b.addr := Heading(was[b.addr], b.size)], b.addr, bs[q - 1].addr, bs[q].addr)
  {
    var mid, p, p0 := bs[..q] + bs[q + 1..], bs[q - 1].addr, bs[q].addr;
    assert mid[q - 1] == bs[q - 1];
    RecordRemove(was, bs, q);
    TakeOk(bs, q, bs[q].size);
    var less := was[p0 := Plain(was[p0])];
    RecordGrow(less, mid, q - 1, b.size + bs[q].size);
    final := less[p := less[p].(property := less[p].property + (b.size + bs[q].size))];
    assert Recorded(final, after);
    assert was[p0].property == bs[q].size;
    UnmarkBoth(was, b.addr, b.size, p, p0);
  }

  /** Block b ends where block q starts. */
  predicate Touches(bs: seq<Block>, q: nat, b: Block)
    requires q <= |bs|
  {
    q < |bs| && End(b) == bs[q].addr
  }

  /** Block q - 1 ends where block b starts. */
  predicate Touched(bs: seq<Block>, q: nat, b: Block)
    requires q <= |bs|
  {
    q > 0 && End(bs[q - 1]) == b.addr
  }

  /** What putting block b back comes to, case by case. */
  ghost predicate PutIs(bs: seq<Block>, q: nat, b: Block, after: seq<Block>)
    requires q <= |bs|
  {
    && (Touches(bs, q, b) && Touched(bs, q, b) ==> after == BothBlocks(bs, q, b.size))
    && (Touches(bs, q, b) && !Touched(bs, q, b) ==> after == Grow(bs, q, b))
    && (!Touches(bs, q, b) && Touched(bs, q, b) ==> after == AboveBlocks(bs, q, b.size))
    && (!Touches(bs, q, b) && !Touched(bs, q, b) ==> after == Insert(bs, q, b))
  }

  lemma PutCases(bs: seq<Block>, q: nat, b: Block)
    requires q <= |bs|
    ensures PutIs(bs, q, b, Put(bs, q, b))
  {
  }

  lemma UnmarkAbove(was: seq<Page>, base: nat, n: nat, p: nat)
    requires base < |was| && p < |was| && p != base && Plain(was[base]) == was[base]
    ensures AbovePages(was[base := Heading(was[base], n)], base, p) ==
      was[p := was[p].(property := was[p].property + n)]
  {
  }

  lemma UnmarkBoth(was: seq<Page>, base: nat, n: nat, p: nat, p0: nat)
    requires base < |was| && p < |was| && p0 < |was| && p != base && base != p0 && p0 != p
      && Plain(was[base]) == was[base]
    ensures
      var less := was[p0 := Plain(was[p0])];
      BothPages(was[base := Heading(was[base], n)], base, p, p0) ==
        less[p := less[p].(property := less[p].property + (n + was[p0].property))]
  {
  }

  lemma BetweenApart(bs: seq<Block>, q: nat, b: Block)
    requires Between(bs, q, b) && forall i :: 0 <= i < |bs| ==> bs[i].size > 0
    ensures forall i :: 0 <= i < |bs| ==> bs[i].addr != b.addr
  {
  }

  lemma NotListed(items: seq<nat>, bs: seq<Block>, p: nat)
    requires Listed(items, bs) && forall i :: 0 <= i < |bs| ==> bs[i].addr != p
    ensures p + 1 !in items
  {
  }

  lemma ListedInsert(items: seq<nat>, bs: seq<Block>, q: nat, b: Block)
    requires Listed(items, bs) && q <= |bs|
    ensures Listed(items[..q] + [b.addr + 1] + items[q..], Insert(bs, q, b))
  {
  }

  lemma ListedMove(items: seq<nat>, bs: seq<Block>, j: nat, c: Block)
    requires Listed(items, bs) && j < |bs|
    ensures Listed(items[j := c.addr + 1], bs[j := c])
  {
  }

  /** The rest of a block starts at no other block. */
  lemma FreshNode(bs: seq<Block>, j: nat, p: nat)
    requires Coalesced(bs) && j < |bs| && bs[j].addr < p < End(bs[j])
    ensures forall i :: 0 <= i < |bs| ==> bs[i].addr != p
  {
  }
}
