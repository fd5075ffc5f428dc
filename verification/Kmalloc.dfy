/** kmalloc and kfree over the SLOB allocator (kmalloc.c): who owns which memory.
    Addresses count units of 8 bytes. */
module Kmalloc {
  import opened Basics
  import opened FreeBlocks
  import opened Slob

  // ---------- the size of a big allocation ----------

  /** The number of halvings until size is at most 4096. */
  function OrderOf(size: int): nat
    decreases if size > 4096 then size else 0
  {
    if size > 4096 then 1 + OrderOf(size / 2) else 0
  }

  /** find_order. */
  method FindOrder(size: int) returns (order: nat)
    ensures order == OrderOf(size)
  {
    order := 0;
    var s := size;
    while s > 4096
      invariant order + OrderOf(s) == OrderOf(size)
      decreases s
    {
      s := s / 2;
      order := order + 1;
    }
  }

  lemma {:induction false} OrderBounds(n: nat)
    ensures n < 4097 * Pow2(OrderOf(n))
    ensures OrderOf(n) > 0 ==> 4097 * Pow2(OrderOf(n) - 1) <= n
  {
    if n > 4096 {
      OrderBounds(n / 2);
    }
  }

  lemma {:induction false} Pow2Monotone(j: nat, k: nat)
    requires j < k
    ensures 2 * Pow2(j) <= Pow2(k)
  {
    if j < k - 1 {
      Pow2Monotone(j, k - 1);
    }
  }

  /** find_order does not round up: the pages are too small exactly for the sizes just
      above 4096 * 2^k. */
  lemma {:induction false} OrderTooSmall(n: nat)
    ensures 4096 * Pow2(OrderOf(n)) < n <==> exists k: nat :: k > 0 && 4096 * Pow2(k) < n < 4097 * Pow2(k)
  {
    var o := OrderOf(n);
    OrderBounds(n);
    if 4096 * Pow2(o) < n {
      assert o > 0 && 4096 * Pow2(o) < n < 4097 * Pow2(o);
    }
    if k: nat :| k > 0 && 4096 * Pow2(k) < n < 4097 * Pow2(k) {
      if o < k {
        Pow2Monotone(o, k);
      } else if k < o {
        if k < o - 1 {
          Pow2Monotone(k, o - 1);
        }
      }
      assert o == k;
    }
  }

  /** size_t passed as int. */
  function AsInt(size: nat): int
    requires size < 0x1_0000_0000
  {
    if size < 0x8000_0000 then size else size - 0x1_0000_0000
  }

  /** The pages of a big allocation hold less than was asked for exactly in these cases. */
  lemma BigTooSmall(size: nat)
    requires size < 0x1_0000_0000
    ensures
      PGSIZE * Pow2(OrderOf(AsInt(size))) < size <==>
        size >= 0x8000_0000 || exists k: nat :: k > 0 && PGSIZE * Pow2(k) < size < (PGSIZE + 1) * Pow2(k)
  {
    if size < 0x8000_0000 {
      OrderTooSmall(size);
    }
  }

  // ---------- who owns which unit ----------

  ghost predicate InLive(live: map<nat, nat>, u: int) {
    exists a :: a in live && Holds(Block(a, live[a]), u)
  }

  ghost predicate Owned(pages: set<nat>, arena: nat, u: int) {
    u == arena || exists p :: p in pages && Holds(PageBlock(p), u)
  }

  predicate EndsBy(a: nat, size: nat, b: nat) {
    a + size <= b
  }

  /** The free list and the live blocks cover the arena and the pages, each unit once. */
  ghost predicate Partition(bs: seq<Block>, live: map<nat, nat>, pages: set<nat>, arena: nat) {
    && (forall u :: Inside(bs, u) || InLive(live, u) <==> Owned(pages, arena, u))
    && (forall u :: Inside(bs, u) ==> !InLive(live, u))
    && (forall a, b {:trigger EndsBy(a, live[a], b)} :: a in live && b in live && a < b ==> EndsBy(a, live[a], b))
    && (forall a :: a in live ==> live[a] > 0)
  }

  ghost function WithPage(pages: set<nat>, page: Option<nat>): set<nat> {
    if page.Some? then pages + {page.value} else pages
  }

  lemma AllocPartition(bs: seq<Block>, bs': seq<Block>, live: map<nat, nat>, pages: set<nat>, arena: nat,
                       page: Option<nat>, got: Block)
    requires Partition(bs, live, pages, arena) && got.size > 0
    requires forall u :: Holds(got, u) ==> Inside(bs, u) || InPage(page, u)
    requires forall u :: Inside(bs', u) <==> (Inside(bs, u) || InPage(page, u)) && !Holds(got, u)
    requires forall u :: InPage(page, u) ==> !Owned(pages, arena, u)
    ensures got.addr !in live
    ensures Partition(bs', live[got.addr := got.size], WithPage(pages, page), arena)
  {
    var live', pages' := live[got.addr := got.size], WithPage(pages, page);
    assert Holds(got, got.addr);
    forall a | a in live
      ensures a + live[a] <= got.addr || End(got) <= a
    {
      var u := if a < got.addr then got.addr else a;
      assert Holds(Block(a, live[a]), u) ==> InLive(live, u);
      assert Holds(got, u) ==> !InLive(live, u);
    }
    assert got.addr !in live;
    forall u
      ensures InLive(live', u) <==> InLive(live, u) || Holds(got, u)
      ensures Owned(pages', arena, u) <==> Owned(pages, arena, u) || InPage(page, u)
    {
      LiveWith(live, got, u);
      OwnedWith(pages, arena, page, u);
    }
  }

  lemma LiveWith(live: map<nat, nat>, got: Block, u: int)
    requires got.addr !in live
    ensures InLive(live[got.addr := got.size], u) <==> InLive(live, u) || Holds(got, u)
  {
    var live' := live[got.addr := got.size];
    assert live'[got.addr] == got.size && got == Block(got.addr, live'[got.addr]);
    if InLive(live, u) {
      var a :| a in live && Holds(Block(a, live[a]), u);
      assert a in live' && Holds(Block(a, live'[a]), u);
    }
  }

  lemma OwnedWith(pages: set<nat>, arena: nat, page: Option<nat>, u: int)
    ensures Owned(WithPage(pages, page), arena, u) <==> Owned(pages, arena, u) || InPage(page, u)
  {
    var pages' := WithPage(pages, page);
    if p :| p in pages && Holds(PageBlock(p), u) {
      assert p in pages';
    }
    if InPage(page, u) {
      assert page.value in pages' && Holds(PageBlock(page.value), u);
    }
  }

  lemma FreePartition(bs: seq<Block>, bs': seq<Block>, live: map<nat, nat>, pages: set<nat>, arena: nat, a: nat)
    requires Partition(bs, live, pages, arena) && a in live
    requires forall u :: Inside(bs', u) <==> Inside(bs, u) || Holds(Block(a, live[a]), u)
    ensures Partition(bs', live - {a}, pages, arena)
  {
    assert forall b, c :: b in live && c in live && b < c ==> EndsBy(b, live[b], c);
    forall u
      ensures InLive(live, u) <==> InLive(live - {a}, u) || Holds(Block(a, live[a]), u)
      ensures !(InLive(live - {a}, u) && Holds(Block(a, live[a]), u))
    {
      if InLive(live - {a}, u) {
        var c :| c in live - {a} && Holds(Block(c, (live - {a})[c]), u);
        assert c in live && Holds(Block(c, live[c]), u);
      }
      if InLive(live, u) && !Holds(Block(a, live[a]), u) {
        var c :| c in live && Holds(Block(c, live[c]), u);
        assert c in live - {a} && Holds(Block(c, (live - {a})[c]), u);
      }
    }
  }

  // ---------- the allocator ----------

  /** A bigblock_t: node is where it lives itself. */
  datatype Big = Big(node: nat, order: nat, page: nat)

  function PageRange(page: nat, n: nat): (s: set<nat>)
    ensures forall p: nat :: p in s <==> page <= p < page + n
  {
    if n == 0 then {} else PageRange(page, n - 1) + {page + n - 1}
  }

  /** There are n free pages in a row. */
  ghost predicate HasRun(pool: set<nat>, n: nat) {
    exists p: nat :: PageRange(p, n) <= pool
  }

  function BigPages(b: Big): set<nat> {
    PageRange(b.page, Pow2(b.order))
  }

  /** Pages of the page allocator do not hold or touch the variable arena, and page 0 is not one. */
  ghost predicate Clear(arena: nat, p: nat) {
    p > 0 && !Holds(PageBlock(p), arena) && !Holds(PageBlock(p), arena - 1) && !Holds(PageBlock(p), arena + 1)
  }

  ghost predicate AllClear(arena: nat, pages: set<nat>) {
    forall p :: p in pages ==> Clear(arena, p)
  }

  /** A page is free, or joined the free list, or belongs to one big allocation. */
  ghost predicate PagesOk(arena: nat, pool: set<nat>, pages: set<nat>, bigs: seq<Big>) {
    && AllClear(arena, pool) && AllClear(arena, pages)
    && pool !! pages
    && (forall i :: 0 <= i < |bigs| ==> BigPages(bigs[i]) !! pool && BigPages(bigs[i]) !! pages)
    && (forall i, p :: 0 <= i < |bigs| && p in BigPages(bigs[i]) ==> Clear(arena, p))
    && (forall i, j :: 0 <= i < j < |bigs| ==> BigPages(bigs[i]) !! BigPages(bigs[j]))
  }

  /** Each bigblock_t is a live block of its own. */
  ghost predicate NodesOk(live: map<nat, nat>, bigs: seq<Big>) {
    && (forall i :: 0 <= i < |bigs| ==> bigs[i].node in live && JustHold(live[bigs[i].node], BIGBLOCK_SIZE))
    && (forall i, j :: 0 <= i < j < |bigs| ==> bigs[i].node != bigs[j].node)
  }

  /** The header of a live block gives its size. */
  ghost predicate HeadersOk(live: map<nat, nat>, units: map<nat, nat>) {
    forall a :: a in live ==> a in units && units[a] == live[a]
  }

  ghost predicate Accounts(bs: seq<Block>, units: map<nat, nat>, live: map<nat, nat>, pages: set<nat>, arena: nat) {
    ArenaFree(bs, arena) && Partition(bs, live, pages, arena) && HeadersOk(live, units)
  }

  lemma LiveOutside(bs: seq<Block>, live: map<nat, nat>, pages: set<nat>, arena: nat, a: nat)
    requires Partition(bs, live, pages, arena) && a in live
    ensures InLive(live, a) && !Inside(bs, a) && Owned(pages, arena, a)
    ensures Fits(bs, Block(a, live[a]))
  {
    assert Holds(Block(a, live[a]), a);
    forall u | Holds(Block(a, live[a]), u)
      ensures !Inside(bs, u)
    {
      assert InLive(live, u);
    }
  }

  lemma AllocHeaders(bs: seq<Block>, units: map<nat, nat>, joined: Option<nat>, units': map<nat, nat>,
                     got: Block, live: map<nat, nat>, pages: set<nat>, arena: nat)
    requires got.addr in units' && units'[got.addr] == got.size
    requires forall a :: a in units && !Inside(bs, a) && !InPage(joined, a) ==> a in units' && units'[a] == units[a]
    requires Partition(bs, live, pages, arena) && HeadersOk(live, units)
    requires forall u :: InPage(joined, u) ==> !Owned(pages, arena, u)
    ensures HeadersOk(live[got.addr := got.size], units')
  {
    forall a | a in live
      ensures a != got.addr ==> a in units' && units'[a] == live[a]
    {
      LiveOutside(bs, live, pages, arena, a);
    }
  }

  /** A free page joins the list if one is needed and there is one. */
  ghost predicate Joined(pool: set<nat>, pages: set<nat>, pool': set<nat>, pages': set<nat>, needed: bool) {
    if needed && pool != {} then exists p :: p in pool && pool' == pool - {p} && pages' == pages + {p}
    else pool' == pool && pages' == pages
  }

  lemma JoinedNew(pool: set<nat>, pages: set<nat>, pool': set<nat>, pages': set<nat>, needed: bool)
    requires Joined(pool, pages, pool', pages', needed) && pool !! pages
    ensures pages <= pages' && pages' - pages <= pool && pool' == pool - (pages' - pages)
    ensures pages' != pages ==> needed && |pages' - pages| == 1
  {
    if needed && pool != {} {
      var p :| p in pool && pool' == pool - {p} && pages' == pages + {p};
      assert pages' - pages == {p};
    }
  }

  lemma NoPagesNoRun(n: nat)
    requires n > 0
    ensures !HasRun({}, n)
  {
    assert forall p: nat :: p in PageRange(p, n);
  }

  /** slob_alloc keeps the accounts when the block it gives becomes live. */
  lemma AllocAccounts(bs: seq<Block>, units: map<nat, nat>, joined: Option<nat>, bs': seq<Block>, units': map<nat, nat>,
                      got: Block, live: map<nat, nat>, pages: set<nat>, arena: nat)
    requires Slob.Allocated(bs, units, joined, bs', units', got) && got.size > 0 && ArenaFree(bs', arena)
    requires Accounts(bs, units, live, pages, arena)
    requires forall u :: InPage(joined, u) ==> !Owned(pages, arena, u)
    ensures got.addr !in live
    ensures Accounts(bs', units', live[got.addr := got.size], WithPage(pages, joined), arena)
  {
    AllocHeaders(bs, units, joined, units', got, live, pages, arena);
    AllocPartition(bs, bs', live, pages, arena, joined, got);
  }

  /** Stopped: the assertion at the head of slob_alloc. */
  datatype Result = Got(ptr: nat) | NoMemory | Stopped

  const BIGBLOCK_SIZE: nat := 12   // sizeof(bigblock_t)

  class Heap {
    const slob: FreeList
    var bigblocks: seq<Big>        // newest first
    var pool: set<nat>             // free pages of the page allocator
    ghost var pages: set<nat>      // pages that joined the free list, which never leave
    ghost var live: map<nat, nat>  // the blocks that slob_alloc handed out, with their units

    ghost predicate SlobOk()
      reads this, slob
    {
      slob.ListOk() && Accounts(slob.blocks, slob.units, live, pages, slob.arena)
    }

    ghost predicate Valid()
      reads this, slob
    {
      SlobOk() && PagesOk(slob.arena, pool, pages, bigblocks) && NodesOk(live, bigblocks)
    }

    constructor (arena: nat, pool: set<nat>)
      requires forall p :: p in pool ==>
        p > 0 && !Holds(PageBlock(p), arena) && !Holds(PageBlock(p), arena - 1) && !Holds(PageBlock(p), arena + 1)
      ensures Valid() && live == map[] && bigblocks == [] && pages == {} && this.pool == pool
      ensures slob.arena == arena && slob.blocks == [Block(arena, 1)] && fresh(slob)
    {
      slob := new FreeList(arena);
      bigblocks, this.pool, pages, live := [], pool, {}, map[];
      new;
      assert forall u :: Inside(slob.blocks, u) <==> u == arena;
    }

    /** alloc_pages for 2^order pages: some run of so many free pages, if there is one. */
    method AllocPages(order: nat) returns (page: Option<nat>)
      modifies `pool
      ensures page.None? <==> !HasRun(old(pool), Pow2(order))
      ensures page.None? ==> pool == old(pool)
      ensures page.Some? ==>
        PageRange(page.value, Pow2(order)) <= old(pool) && pool == old(pool) - PageRange(page.value, Pow2(order))
    {
      page := None;
      assert forall p: nat :: p in PageRange(p, Pow2(order));
      if p: nat :| p in pool && PageRange(p, Pow2(order)) <= pool {
        page := Some(p);
        pool := pool - PageRange(p, Pow2(order));
      }
    }

    /** A small allocation in a caller's hands: the unit before it is its header. */
    ghost predicate Small(ptr: nat)
      reads this
    {
      ptr > 0 && ptr - 1 in live && forall i :: 0 <= i < |bigblocks| ==> bigblocks[i].node != ptr - 1
    }

    /** A big allocation in a caller's hands, the one that entry i records. */
    ghost predicate Large(ptr: nat, i: nat)
      reads this
    {
      i < |bigblocks| && ptr == bigblocks[i].page * PAGE_UNITS
    }

    /** The arena is what a request of so many bytes gets. */
    ghost predicate GetsArena(size: nat)
      requires slob.ListOk()
      reads this, slob
    {
      size <= 8 && slob.First() == Block(slob.arena, 1)
    }

    /** slob_alloc has handed out the arena: all else is as before, but the list may have lost it. */
    twostate predicate ArenaGone()
      requires old(slob.ListOk())
      reads this, slob
    {
      && slob.ListOk() && live == old(live) && pages == old(pages) && pool == old(pool) && bigblocks == old(bigblocks)
      && slob.blocks == Left(old(slob.blocks), Succ(old(slob.blocks), old(slob.at)), 1)
      && (ArenaFree(slob.blocks, slob.arena) <==> |old(slob.blocks)| == 1)
    }

    /** The block that slob_alloc gave becomes live. */
    ghost method Own(bs: seq<Block>, units: map<nat, nat>, joined: Option<nat>, got: Block)
      requires slob.ListOk() && ArenaFree(slob.blocks, slob.arena) && got.size > 0
      requires Slob.Allocated(bs, units, joined, slob.blocks, slob.units, got)
      requires Accounts(bs, units, live, pages, slob.arena)
      requires forall u :: InPage(joined, u) ==> !Owned(pages, slob.arena, u)
      modifies `live, `pages
      ensures SlobOk() && got.addr !in old(live) && live == old(live)[got.addr := got.size]
      ensures pages == WithPage(old(pages), joined)
    {
      AllocAccounts(bs, units, joined, slob.blocks, slob.units, got, live, pages, slob.arena);
      live := live[got.addr := got.size];
      pages := WithPage(pages, joined);
    }

    /** Some big allocation starts at ptr. */
    ghost predicate IsLarge(ptr: nat)
      reads this
    {
      exists i: nat :: Large(ptr, i)
    }

    /** slob_alloc with a page at hand: the block it gives becomes live, if it is not the arena. */
    method Carve(size: nat, page: Option<nat>) returns (r: Option<nat>, fetched: bool)
      requires SlobOk() && 0 < size && size + UNIT < PGSIZE
      requires page.Some? ==> PageFits(slob.blocks, slob.arena, page.value)
      requires forall u :: InPage(page, u) ==> !Owned(pages, slob.arena, u)
      modifies slob, `pages, `live
      ensures r == Some(slob.arena) <==> old(GetsArena(size))
      ensures r == Some(slob.arena) ==> ArenaGone()
      ensures r != Some(slob.arena) ==> SlobOk()
      ensures fetched <==> page.Some? && NoRoom(old(slob.blocks), size)
      ensures r.None? <==> page.None? && NoRoom(old(slob.blocks), size)
      ensures r.None? ==> live == old(live)
      ensures r.Some? && r.value != slob.arena ==>
        && r.value !in old(live) && r.value in live && live == old(live)[r.value := live[r.value]]
        && JustHold(live[r.value], size)
      ensures pages == WithPage(old(pages), if fetched then page else None)
    {
      ghost var bs, units := slob.blocks, slob.units;
      r, fetched := slob.SlobAlloc(size, page);
      if r.Some? && r.value != slob.arena {
        Own(bs, units, if fetched then page else None, Block(r.value, slob.units[r.value]));
      }
    }

    /** slob_alloc, its page taken from the page allocator. */
    method Alloc(size: nat) returns (r: Option<nat>)
      requires Valid() && 0 < size && size + UNIT < PGSIZE
      modifies slob, `pool, `pages, `live
      ensures r == Some(slob.arena) <==> old(GetsArena(size))
      ensures r == Some(slob.arena) ==> ArenaGone()
      ensures r != Some(slob.arena) ==>
        Valid() && Joined(old(pool), old(pages), pool, pages, NoRoom(old(slob.blocks), size))
      ensures r.None? <==> old(pool) == {} && NoRoom(old(slob.blocks), size)
      ensures r.None? ==> live == old(live)
      ensures r.Some? && r.value != slob.arena ==>
        && r.value !in old(live) && r.value in live && live == old(live)[r.value := live[r.value]]
        && JustHold(live[r.value], size)
    {
      var page: Option<nat> := None;
      if p :| p in pool {
        page := Some(p);
        PoolPageFits(p);
      }
      var fetched;
      r, fetched := Carve(size, page);
      if fetched {
        pool := pool - {page.value};
      }
    }

    /** A free page can join the list. */
    lemma PoolPageFits(p: nat)
      requires Valid() && p in pool
      ensures PageFits(slob.blocks, slob.arena, p)
      ensures forall u :: InPage(Some(p), u) ==> !Owned(pages, slob.arena, u)
    {
      assert Clear(slob.arena, p);
      forall u | Holds(PageBlock(p), u)
        ensures !Owned(pages, slob.arena, u) && !Inside(slob.blocks, u)
      {
        if q :| q in pages && Holds(PageBlock(q), u) {
          assert false;
        }
      }
    }

    /** A live block has been put back. */
    ghost method Disown(bs: seq<Block>, units: map<nat, nat>, q: nat, a: nat)
      requires Coalesced(bs) && Accounts(bs, units, live, pages, slob.arena) && a in live && slob.ListOk()
      requires Between(bs, q, Block(a, live[a])) && slob.blocks == Put(bs, q, Block(a, live[a]))
      requires HeadersKept(bs, units, slob.units, a) && AllClear(slob.arena, pages)
      modifies `live
      ensures SlobOk() && live == old(live) - {a}
    {
      ReleaseAccounts(bs, units, q, slob.blocks, slob.units, live, pages, slob.arena, a);
      live := live - {a};
    }

    /** slob_free of a live block. */
    method Release(a: nat, size: nat)
      requires SlobOk() && a in live && (size > 0 ==> JustHold(live[a], size))
      requires AllClear(slob.arena, pages)
      modifies slob, `live
      ensures SlobOk() && live == old(live) - {a}
    {
      ghost var bs, units := slob.blocks, slob.units;
      ghost var q := ReleasePlace(bs, units, live, pages, slob.arena, a);
      slob.SlobFree(a, size, q, live[a]);
      Disown(bs, units, q, a);
    }

    /** kmalloc of less than a page. A request of 0 bytes gets a single unit. */
    method KmallocSmall(size: nat) returns (r: Result)
      requires Valid() && size < PGSIZE - UNIT
      modifies slob, `pool, `pages, `live
      ensures r == Got(slob.arena + 1) <==> size == 0 && old(slob.First()) == Block(slob.arena, 1)
      ensures r == Got(slob.arena + 1) ==> ArenaGone()
      ensures r != Got(slob.arena + 1) ==> Valid()
      ensures r == Stopped <==> PGSIZE - 2 * UNIT <= size
      ensures r == NoMemory <==>
        size < PGSIZE - 2 * UNIT && old(pool) == {} && NoRoom(old(slob.blocks), size + UNIT)
      ensures !r.Got? ==> live == old(live) && pool == old(pool) && pages == old(pages)
      ensures r.Got? && r.ptr != slob.arena + 1 ==>
        && Small(r.ptr) && r.ptr - 1 !in old(live) && live == old(live)[r.ptr - 1 := live[r.ptr - 1]]
        && JustHold(live[r.ptr - 1], size + UNIT)
        && Joined(old(pool), old(pages), pool, pages, NoRoom(old(slob.blocks), size + UNIT))
    {
      if size + UNIT + UNIT >= PGSIZE {
        return Stopped;
      }
      var m := Alloc(size + UNIT);
      r := if m.Some? then Got(m.value + 1) else NoMemory;
    }

    /** kmalloc of a page or more, once its bigblock_t is there. */
    method GetPages(size: nat, node: nat) returns (r: Result)
      requires Valid() && 0 < size < 0x1_0000_0000
      requires node in live && JustHold(live[node], BIGBLOCK_SIZE)
      requires forall i :: 0 <= i < |bigblocks| ==> bigblocks[i].node != node
      modifies slob, `pool, `live, `bigblocks
      ensures Valid() && r != Stopped && (r == NoMemory <==> !HasRun(old(pool), Pow2(OrderOf(AsInt(size)))))
      ensures !r.Got? ==> live == old(live) - {node} && bigblocks == old(bigblocks) && pool == old(pool)
      ensures r.Got? ==>
        && bigblocks == [Big(node, OrderOf(AsInt(size)), r.ptr / PAGE_UNITS)] + old(bigblocks) && live == old(live)
        && Large(r.ptr, 0) && BigPages(bigblocks[0]) <= old(pool) && pool == old(pool) - BigPages(bigblocks[0])
    {
      var order := FindOrder(AsInt(size));
      ghost var before := pool;
      var page := AllocPages(order);
      if page.Some? {
        AddBig(slob.arena, before, pool, pages, bigblocks, live, Big(node, order, page.value));
        bigblocks := [Big(node, order, page.value)] + bigblocks;
        return Got(page.value * PAGE_UNITS);
      }
      Release(node, BIGBLOCK_SIZE);
      r := NoMemory;
    }

    /** kmalloc of a page or more: it fails exactly when no run of 2^order pages is left
        once the record has its units. */
    method KmallocBig(size: nat) returns (r: Result)
      requires Valid() && PGSIZE - UNIT <= size < 0x1_0000_0000
      modifies slob, this
      ensures Valid() && r != Stopped
      ensures Joined(old(pool), old(pages), old(pool) - (pages - old(pages)), pages,
                     NoRoom(old(slob.blocks), BIGBLOCK_SIZE))
      ensures r == NoMemory <==> !HasRun(old(pool) - (pages - old(pages)), Pow2(OrderOf(AsInt(size))))
      ensures !r.Got? ==> live == old(live) && bigblocks == old(bigblocks) && pool == old(pool) - (pages - old(pages))
      ensures r.Got? ==>
        && Large(r.ptr, 0) && bigblocks[1..] == old(bigblocks) && bigblocks[0].order == OrderOf(AsInt(size))
        && BigPages(bigblocks[0]) <= old(pool) && pool == old(pool) - (pages - old(pages)) - BigPages(bigblocks[0])
        && bigblocks[0].node !in old(live) && bigblocks[0].node in live
        && live == old(live)[bigblocks[0].node := live[bigblocks[0].node]]
        && JustHold(live[bigblocks[0].node], BIGBLOCK_SIZE)
    {
      var node := Alloc(BIGBLOCK_SIZE);
      JoinedNew(old(pool), old(pages), pool, pages, NoRoom(old(slob.blocks), BIGBLOCK_SIZE));
      if node.None? {
        NoPagesNoRun(Pow2(OrderOf(AsInt(size))));
        return NoMemory;
      }
      r := GetPages(size, node.value);
    }

    /** __kmalloc. */
    method Kmalloc(size: nat) returns (r: Result)
      requires Valid() && size < 0x1_0000_0000
      modifies slob, this
      ensures r == Got(slob.arena + 1) <==> size == 0 && old(slob.First()) == Block(slob.arena, 1)
      ensures r == Got(slob.arena + 1) ==> ArenaGone()
      ensures r != Got(slob.arena + 1) ==> Valid()
      ensures old(pages) <= pages
      ensures r == Stopped <==> PGSIZE - 2 * UNIT <= size < PGSIZE - UNIT
      ensures size < PGSIZE - 2 * UNIT ==>
        (r == NoMemory <==> old(pool) == {} && NoRoom(old(slob.blocks), size + UNIT))
      ensures size >= PGSIZE - UNIT ==>
        (r == NoMemory <==> !HasRun(old(pool) - (pages - old(pages)), Pow2(OrderOf(AsInt(size)))))
      ensures pages != old(pages) ==>
        var asked := if size < PGSIZE - UNIT then size + UNIT else BIGBLOCK_SIZE;
        |pages - old(pages)| == 1 && pages - old(pages) <= old(pool) && NoRoom(old(slob.blocks), asked)
      ensures !r.Got? ==> live == old(live) && bigblocks == old(bigblocks) && pool == old(pool) - (pages - old(pages))
      ensures r.Got? && r.ptr != slob.arena + 1 && size < PGSIZE - UNIT ==>
        && Small(r.ptr) && r.ptr - 1 !in old(live) && live == old(live)[r.ptr - 1 := live[r.ptr - 1]]
        && JustHold(live[r.ptr - 1], size + UNIT)
        && bigblocks == old(bigblocks) && pool == old(pool) - (pages - old(pages))
      ensures r.Got? && size >= PGSIZE - UNIT ==>
        && Large(r.ptr, 0) && bigblocks[1..] == old(bigblocks) && bigblocks[0].order == OrderOf(AsInt(size))
        && BigPages(bigblocks[0]) <= old(pool) && pool == old(pool) - (pages - old(pages)) - BigPages(bigblocks[0])
        && bigblocks[0].node !in old(live) && bigblocks[0].node in live
        && live == old(live)[bigblocks[0].node := live[bigblocks[0].node]]
        && JustHold(live[bigblocks[0].node], BIGBLOCK_SIZE)
    {
      if size < PGSIZE - UNIT {
        r := KmallocSmall(size);
        if r.Got? && r.ptr != slob.arena + 1 {
          JoinedNew(old(pool), old(pages), pool, pages, NoRoom(old(slob.blocks), size + UNIT));
        }
      } else {
        r := KmallocBig(size);
        if r.Got? {
          LargeIsNotArena(r.ptr, 0);
        }
        JoinedNew(old(pool), old(pages), old(pool) - (pages - old(pages)), pages,
                  NoRoom(old(slob.blocks), BIGBLOCK_SIZE));
      }
    }

    /** The end of kfree for a big allocation. */
    method FreeBig(k: nat)
      requires Valid() && k < |bigblocks|
      modifies slob, `bigblocks, `pool, `live
      ensures Valid() && live == old(live) - {old(bigblocks)[k].node}
      ensures bigblocks == old(bigblocks)[..k] + old(bigblocks)[k + 1..]
        && pool == old(pool) + BigPages(old(bigblocks)[k])
    {
      var bb := bigblocks[k];
      RemoveBig(slob.arena, pool, pages, bigblocks, live, k);
      bigblocks := bigblocks[..k] + bigblocks[k + 1..];
      pool := pool + BigPages(bb);
      Release(bb.node, BIGBLOCK_SIZE);
    }

    /** A small allocation of at least one byte is not at the start of big pages. */
    lemma SmallIsNotLarge(ptr: nat)
      requires Valid() && Small(ptr) && live[ptr - 1] > 1
      ensures !IsLarge(ptr)
    {
      LiveOutside(slob.blocks, live, pages, slob.arena, ptr - 1);
      assert Holds(Block(ptr - 1, live[ptr - 1]), ptr) && InLive(live, ptr);
    }

    lemma LargeIsNotArena(ptr: nat, i: nat)
      requires Valid() && Large(ptr, i)
      ensures ptr != slob.arena + 1
    {
      var p := bigblocks[i].page;
      assert p in BigPages(bigblocks[i]) && Clear(slob.arena, p) && Holds(PageBlock(p), ptr);
    }

    /** The search of kfree, done for the start of a page only: the number of the bigblock_t for ptr,
        or their number. */
    method FindBig(ptr: nat) returns (k: nat)
      ensures if IsLarge(ptr) then Large(ptr, k) else k == |bigblocks|
    {
      if ptr % PAGE_UNITS != 0 {
        return |bigblocks|;
      }
      k := 0;
      while k < |bigblocks| && bigblocks[k].page * PAGE_UNITS != ptr
        invariant k <= |bigblocks| && forall j :: 0 <= j < k ==> !Large(ptr, j)
      {
        k := k + 1;
      }
      assert k < |bigblocks| ==> Large(ptr, k);
    }

    /** kfree of a pointer that Kmalloc gave, or of a null pointer. Where big pages start, it is they
        that are freed, also if kmalloc(0) gave the pointer. */
    method Kfree(ptr: nat, ghost i: nat)
      requires Valid() && (ptr == 0 || Small(ptr) || Large(ptr, i))
      modifies slob, this
      ensures Valid() && pages == old(pages)
      ensures ptr == 0 ==> live == old(live) && bigblocks == old(bigblocks) && pool == old(pool)
      ensures ptr != 0 && !old(IsLarge(ptr)) ==>
        live == old(live) - {ptr - 1} && bigblocks == old(bigblocks) && pool == old(pool)
      ensures ptr != 0 && old(Small(ptr)) && old(live)[ptr - 1] > 1 ==>
        live == old(live) - {ptr - 1} && bigblocks == old(bigblocks) && pool == old(pool)
      ensures ptr != 0 && old(Large(ptr, i)) ==>
        && live == old(live) - {old(bigblocks)[i].node} && bigblocks == old(bigblocks)[..i] + old(bigblocks)[i + 1..]
        && pool == old(pool) + BigPages(old(bigblocks)[i])
    {
      if ptr == 0 {
        return;
      }
      if Small(ptr) && live[ptr - 1] > 1 {
        SmallIsNotLarge(ptr);
      }
      var k := FindBig(ptr);
      if k < |bigblocks| {
        OnlyOneLarge(slob.arena, pool, pages, bigblocks, i, k);
        FreeBig(k);
      } else {
        assert !Large(ptr, i);
        Release(ptr - 1, 0);
      }
    }
  }

  lemma OnlyOneLarge(arena: nat, pool: set<nat>, pages: set<nat>, bigs: seq<Big>, i: nat, k: nat)
    requires PagesOk(arena, pool, pages, bigs) && k < |bigs|
    ensures i < |bigs| && bigs[i].page == bigs[k].page ==> i == k
  {
    if i < |bigs| && bigs[i].page == bigs[k].page {
      assert bigs[i].page in BigPages(bigs[i]) && bigs[i].page in BigPages(bigs[k]);
    }
  }

  /** Where a live block goes back. */
  lemma ReleasePlace(bs: seq<Block>, units: map<nat, nat>, live: map<nat, nat>, pages: set<nat>, arena: nat, a: nat)
    returns (q: nat)
    requires Coalesced(bs) && Accounts(bs, units, live, pages, arena) && a in live && AllClear(arena, pages)
    ensures Between(bs, q, Block(a, live[a])) && (|bs| > 1 || a + live[a] != bs[0].addr) && a > 0
    ensures a in units && units[a] == live[a]
  {
    LiveOutside(bs, live, pages, arena, a);
    LiveClear(bs, live, pages, arena, a);
    var i := ArenaBlock(bs, arena);
    q := Apart(bs, Block(a, live[a]));
  }

  /** slob_free of a live block keeps the accounts. */
  lemma ReleaseAccounts(bs: seq<Block>, units: map<nat, nat>, q: nat, bs': seq<Block>, units': map<nat, nat>,
                        live: map<nat, nat>, pages: set<nat>, arena: nat, a: nat)
    requires Coalesced(bs) && Accounts(bs, units, live, pages, arena) && a in live
    requires Between(bs, q, Block(a, live[a])) && bs' == Put(bs, q, Block(a, live[a])) && AllClear(arena, pages)
    requires HeadersKept(bs, units, units', a)
    ensures Accounts(bs', units', live - {a}, pages, arena)
  {
    PutOk(bs, q, Block(a, live[a]));
    FreePartition(bs, bs', live, pages, arena, a);
    ReleaseHeaders(bs, live, pages, arena, a, units, units');
    forall u | Holds(Block(a, live[a]), u)
      ensures u != arena - 1 && u != arena + 1
    {
      assert InLive(live, u) && Owned(pages, arena, u);
    }
  }

  /** A live block is not at address 0, and does not end where the arena begins. */
  lemma LiveClear(bs: seq<Block>, live: map<nat, nat>, pages: set<nat>, arena: nat, a: nat)
    requires Partition(bs, live, pages, arena) && a in live && AllClear(arena, pages) && ArenaFree(bs, arena)
    ensures a + live[a] != arena && a > 0
  {
    LiveOutside(bs, live, pages, arena, a);
    var u := a + live[a] - 1;
    assert Holds(Block(a, live[a]), u);
    assert InLive(live, u) && Owned(pages, arena, u);
  }

  lemma ReleaseHeaders(bs: seq<Block>, live: map<nat, nat>, pages: set<nat>, arena: nat, a: nat,
                       units: map<nat, nat>, units': map<nat, nat>)
    requires Partition(bs, live, pages, arena) && a in live && HeadersOk(live, units)
    requires HeadersKept(bs, units, units', a)
    ensures HeadersOk(live - {a}, units')
  {
    forall c | c in live && c != a
      ensures c in units' && units'[c] == live[c]
    {
      LiveOutside(bs, live, pages, arena, c);
    }
  }

  lemma AddBig(arena: nat, pool: set<nat>, pool': set<nat>, pages: set<nat>, bigs: seq<Big>, live: map<nat, nat>,
               b: Big)
    requires PagesOk(arena, pool, pages, bigs) && BigPages(b) <= pool && pool' == pool - BigPages(b)
    requires b.node in live && JustHold(live[b.node], BIGBLOCK_SIZE) && NodesOk(live, bigs)
    requires forall i :: 0 <= i < |bigs| ==> bigs[i].node != b.node
    ensures PagesOk(arena, pool', pages, [b] + bigs) && NodesOk(live, [b] + bigs)
  {
  }

  lemma RemoveBig(arena: nat, pool: set<nat>, pages: set<nat>, bigs: seq<Big>, live: map<nat, nat>, k: nat)
    requires PagesOk(arena, pool, pages, bigs) && k < |bigs| && NodesOk(live, bigs)
    ensures PagesOk(arena, pool + BigPages(bigs[k]), pages, bigs[..k] + bigs[k + 1..])
    ensures NodesOk(live - {bigs[k].node}, bigs[..k] + bigs[k + 1..])
  {
    var rest := bigs[..k] + bigs[k + 1..];
    assert forall i :: 0 <= i < |rest| ==> rest[i] == bigs[if i < k then i else i + 1];
  }
}
