/** Demand paging with FIFO swapping for one address space (swap.c, swap_fifo.c,
    do_pgfault, pgdir_alloc_page and the reclaim loop of alloc_pages). Pages and
    frames are named by their numbers. */
module DemandPaging {
  import opened Basics

  const TABLE_PAGES: nat := 1024   // pages mapped by one page table
  const GROUP_BYTES: nat := 0x40_0000   // bytes mapped by one page table

  type Byte = b: int | 0 <= b < 256
  type Contents = c: seq<Byte> | |c| == PGSIZE witness seq(PGSIZE, i => 0)

  /** A page table entry; an absent key of Paging.pte is a zero entry. A swap entry
      names its slot; the machine word is slot << 8, with the present bit clear. */
  datatype Pte = Present(frame: nat, writable: bool) | Swapped(slot: nat)

  datatype Flags = Flags(read: bool, write: bool, exec: bool)

  /** struct Page. */
  datatype Page = Page(ref: int, praVaddr: nat)

  /** Refused: -E_INVAL, the access is not allowed. NoVictim: a frame is wanted and
      the FIFO is empty, where swap_out goes on with a pointer that was never set.
      BadSlot: the panic of swap_offset. */
  datatype Error = Refused | NoVictim | BadSlot

  datatype Outcome<+T> = Ok(value: T) | Fail(error: Error)

  datatype Access = Read(addr: nat) | Write(addr: nat, byte: Byte)

  /** What happens to the address space: its process touches memory, or kernel code
      evicts the oldest page, takes a frame or gives one back. */
  datatype Event = Touch(access: Access) | Evict | Take | GiveBack

  function Pdx(v: nat): nat {
    v / TABLE_PAGES
  }

  function SlotOf(v: nat): nat {
    v + 1
  }

  // ---------- what the tables say ----------

  /** Every frame has one use: free, kept by the kernel, a page table, or resident. */
  ghost predicate FramesOk(free: set<nat>, held: set<nat>, tables: map<nat, nat>, fifo: seq<nat>, pages: seq<Page>) {
    && (forall f {:trigger f in free} :: f in free ==>
         f < |pages| && f !in held && f !in fifo && f !in tables.Values && pages[f].ref == 0)
    && (forall f {:trigger f in held} :: f in held ==>
         f < |pages| && f !in fifo && f !in tables.Values && pages[f].ref == 0)
    && (forall f {:trigger f in fifo} :: f in fifo ==> f < |pages| && f !in tables.Values && pages[f].ref == 1)
    && NoDuplicates(fifo)
    && |free| + |held| + |tables| + |fifo| == |pages|
    && |tables.Values| == |tables|
  }

  /** The FIFO lists exactly the resident pages, each with the address that maps it. */
  ghost predicate FifoOk(pte: map<nat, Pte>, fifo: seq<nat>, pages: seq<Page>) {
    && (forall f {:trigger f in fifo} :: f in fifo ==>
         f < |pages| && pages[f].praVaddr in pte && pte[pages[f].praVaddr].Present?
           && pte[pages[f].praVaddr].frame == f)
    && (forall v {:trigger v in pte} :: v in pte && pte[v].Present? ==>
         pte[v].frame < |pages| && pte[v].frame in fifo && pages[pte[v].frame].praVaddr == v)
  }

  /** Pages belong to a vma and have its write permission; a swapped page is in its own slot. */
  ghost predicate PteOk(v: nat, e: Pte, area: map<nat, Flags>, tables: map<nat, nat>, disk: map<nat, Contents>) {
    && v in area && Pdx(v) in tables
    && (e.Present? ==> e.writable == area[v].write)
    && (e.Swapped? ==> e.slot == v + 1 && e.slot in disk)
  }

  ghost predicate PtesOk(pte: map<nat, Pte>, area: map<nat, Flags>, tables: map<nat, nat>, disk: map<nat, Contents>) {
    forall v {:trigger PteOk(v, pte[v], area, tables, disk)} :: v in pte ==> PteOk(v, pte[v], area, tables, disk)
  }

  ghost predicate Readable(pte: map<nat, Pte>, mem: seq<Contents>, disk: map<nat, Contents>) {
    forall v {:trigger v in pte} :: v in pte ==> if pte[v].Present? then pte[v].frame < |mem| else pte[v].slot in disk
  }

  /** The contents of each page of the address space. */
  ghost function ViewOf(pte: map<nat, Pte>, mem: seq<Contents>, disk: map<nat, Contents>): map<nat, Contents>
    requires Readable(pte, mem, disk)
  {
    map v | v in pte :: if pte[v].Present? then mem[pte[v].frame] else disk[pte[v].slot]
  }

  // ---------- eviction ----------

  lemma EvictFrames(free: set<nat>, held: set<nat>, tables: map<nat, nat>, fifo: seq<nat>, pages: seq<Page>)
    requires FramesOk(free, held, tables, fifo, pages) && fifo != []
    ensures fifo[0] in fifo && fifo[0] < |pages| && fifo[0] !in fifo[1..]
    ensures FramesOk(free + {fifo[0]}, held, tables, fifo[1..], pages[fifo[0] := pages[fifo[0]].(ref := 0)])
  {
    assert fifo[0] in fifo;
    assert forall f :: f in fifo[1..] ==> f in fifo;
  }

  lemma EvictFifo(pte: map<nat, Pte>, fifo: seq<nat>, pages: seq<Page>)
    requires FifoOk(pte, fifo, pages) && fifo != [] && NoDuplicates(fifo) && fifo[0] in fifo
    ensures
      var f := fifo[0];
      var v := pages[f].praVaddr;
      && v in pte && pte[v].Present? && pte[v].frame == f
      && FifoOk(pte[v := Swapped(SlotOf(v))], fifo[1..], pages[f := pages[f].(ref := 0)])
  {
    var f := fifo[0];
    assert forall g :: g in fifo[1..] <==> g in fifo && g != f;
  }

  lemma EvictView(pte: map<nat, Pte>, mem: seq<Contents>, disk: map<nat, Contents>, v: nat,
                  area: map<nat, Flags>, tables: map<nat, nat>)
    requires Readable(pte, mem, disk) && v in pte && pte[v].Present? && PtesOk(pte, area, tables, disk)
    ensures
      var pte', disk' := pte[v := Swapped(SlotOf(v))], disk[SlotOf(v) := mem[pte[v].frame]];
      PtesOk(pte', area, tables, disk') && Readable(pte', mem, disk')
        && ViewOf(pte', mem, disk') == ViewOf(pte, mem, disk)
  {
    var pte', disk' := pte[v := Swapped(SlotOf(v))], disk[SlotOf(v) := mem[pte[v].frame]];
    forall w | w in pte'
      ensures PteOk(w, pte'[w], area, tables, disk')
    {
      assert PteOk(w, pte[w], area, tables, disk);
    }
    forall w | w in pte'
      ensures if pte'[w].Present? then pte'[w].frame < |mem| else pte'[w].slot in disk'
    {
    }
    forall w | w in pte'
      ensures ViewOf(pte', mem, disk')[w] == ViewOf(pte, mem, disk)[w]
    {
      assert PteOk(w, pte[w], area, tables, disk);
    }
  }

  /** What eviction does to the tables. */
  lemma Evicted(free: set<nat>, held: set<nat>, tables: map<nat, nat>, fifo: seq<nat>, pages: seq<Page>,
                pte: map<nat, Pte>, mem: seq<Contents>, disk: map<nat, Contents>, area: map<nat, Flags>)
    requires FramesOk(free, held, tables, fifo, pages) && FifoOk(pte, fifo, pages) && fifo != []
    requires |mem| == |pages| && PtesOk(pte, area, tables, disk) && Readable(pte, mem, disk)
    ensures fifo[0] in fifo && fifo[0] < |mem| && pages[fifo[0]].praVaddr in pte
    ensures
      var f, v := fifo[0], pages[fifo[0]].praVaddr;
      var pages', pte', disk' := pages[f := pages[f].(ref := 0)], pte[v := Swapped(SlotOf(v))],
        disk[SlotOf(v) := mem[f]];
      && pte[v].Present? && FramesOk(free + {f}, held, tables, fifo[1..], pages') && FifoOk(pte', fifo[1..], pages')
      && PtesOk(pte', area, tables, disk') && Readable(pte', mem, disk')
      && ViewOf(pte', mem, disk') == ViewOf(pte, mem, disk)
  {
    EvictFrames(free, held, tables, fifo, pages);
    EvictFifo(pte, fifo, pages);
    EvictView(pte, mem, disk, pages[fifo[0]].praVaddr, area, tables);
  }

  /** From p to q pages were only moved out. */
  ghost predicate OnlyEvicts(p: map<nat, Pte>, q: map<nat, Pte>) {
    q.Keys == p.Keys && forall v :: v in p && p[v].Swapped? ==> q[v] == p[v]
  }

  // ---------- taking a frame ----------

  lemma TakeFrames(free: set<nat>, held: set<nat>, tables: map<nat, nat>, fifo: seq<nat>, pages: seq<Page>, f: nat)
    requires FramesOk(free, held, tables, fifo, pages) && f in free
    ensures FramesOk(free - {f}, held + {f}, tables, fifo, pages)
  {
  }

  lemma TableFrames(free: set<nat>, held: set<nat>, tables: map<nat, nat>, fifo: seq<nat>, pages: seq<Page>, f: nat,
                    d: nat)
    requires FramesOk(free, held, tables, fifo, pages) && f in held && d !in tables
    ensures FramesOk(free, held - {f}, tables[d := f], fifo, pages[f := pages[f].(ref := 1)])
  {
    var t := tables[d := f];
    assert forall g :: g in t.Values <==> g in tables.Values || g == f by {
      assert t[d] == f && forall e :: e in tables ==> t[e] == tables[e];
    }
    assert t.Values == tables.Values + {f};
  }

  lemma TablePtes(pte: map<nat, Pte>, fifo: seq<nat>, pages: seq<Page>, tables: map<nat, nat>, f: nat, d: nat,
                  area: map<nat, Flags>, disk: map<nat, Contents>)
    requires FifoOk(pte, fifo, pages) && f < |pages| && PtesOk(pte, area, tables, disk)
    ensures FifoOk(pte, fifo, pages[f := pages[f].(ref := 1)]) && PtesOk(pte, area, tables[d := f], disk)
  {
    forall v | v in pte
      ensures PteOk(v, pte[v], area, tables[d := f], disk)
    {
      assert PteOk(v, pte[v], area, tables, disk);
    }
  }

  // ---------- mapping a frame ----------

  lemma InsertFrames(free: set<nat>, held: set<nat>, tables: map<nat, nat>, fifo: seq<nat>, pages: seq<Page>, f: nat,
                     v: nat)
    requires FramesOk(free, held, tables, fifo, pages) && f in held
    ensures FramesOk(free, held - {f}, tables, fifo + [f], pages[f := Page(1, v)])
  {
    assert forall g :: g in fifo + [f] <==> g in fifo || g == f;
  }

  lemma InsertFifo(pte: map<nat, Pte>, fifo: seq<nat>, pages: seq<Page>, f: nat, v: nat, w: bool)
    requires FifoOk(pte, fifo, pages) && f < |pages| && f !in fifo
    requires v in pte ==> pte[v].Swapped?
    ensures FifoOk(pte[v := Present(f, w)], fifo + [f], pages[f := Page(1, v)])
  {
    assert forall g :: g in fifo + [f] <==> g in fifo || g == f;
  }

  lemma InsertView(pte: map<nat, Pte>, mem: seq<Contents>, disk: map<nat, Contents>, v: nat, f: nat,
                   area: map<nat, Flags>, tables: map<nat, nat>)
    requires Readable(pte, mem, disk) && PtesOk(pte, area, tables, disk)
    requires f < |mem| && v in area && Pdx(v) in tables
    ensures
      var pte' := pte[v := Present(f, area[v].write)];
      && PtesOk(pte', area, tables, disk) && Readable(pte', mem, disk)
      && ViewOf(pte', mem, disk) == ViewOf(pte, mem, disk)[v := mem[f]]
  {
    var pte' := pte[v := Present(f, area[v].write)];
    forall w | w in pte'
      ensures PteOk(w, pte'[w], area, tables, disk)
    {
      assert w != v ==> PteOk(w, pte[w], area, tables, disk);
    }
  }

  /** Filling a frame that maps nothing changes no page. */
  lemma LoadView(pte: map<nat, Pte>, mem: seq<Contents>, disk: map<nat, Contents>, f: nat, c: Contents)
    requires Readable(pte, mem, disk) && f < |mem|
    requires forall v :: v in pte && pte[v].Present? ==> pte[v].frame != f
    ensures Readable(pte, mem[f := c], disk) && ViewOf(pte, mem[f := c], disk) == ViewOf(pte, mem, disk)
  {
  }

  /** Writing a resident page changes that page alone. */
  lemma WriteView(pte: map<nat, Pte>, mem: seq<Contents>, disk: map<nat, Contents>, fifo: seq<nat>, pages: seq<Page>,
                  v: nat, c: Contents)
    requires Readable(pte, mem, disk) && v in pte && pte[v].Present? && FifoOk(pte, fifo, pages)
    ensures
      var mem' := mem[pte[v].frame := c];
      Readable(pte, mem', disk) && ViewOf(pte, mem', disk) == ViewOf(pte, mem, disk)[v := c]
  {
    var f := pte[v].frame;
    assert forall w :: w in pte && pte[w].Present? && pte[w].frame == f ==> pages[f].praVaddr == w;
  }

  // ---------- the address space ----------

  class Paging {
    const area: map<nat, Flags>    // the flags of the vma that holds each page
    const maxSwapOffset: nat
    const npage: nat               // the number of frames
    var mem: seq<Contents>         // physical memory, by frame
    var pages: seq<Page>           // the array pages
    var free: set<nat>
    var held: set<nat>             // frames kept by kernel code
    var tables: map<nat, nat>      // the page directory: the frame of each page table
    var pte: map<nat, Pte>
    var fifo: seq<nat>             // pra_list_head, oldest first
    var disk: map<nat, Contents>   // the swap device

    /** An address space without pages; a frame may hold anything. */
    constructor (mem: seq<Contents>, maxSwapOffset: nat, area: map<nat, Flags>)
      ensures Valid() && View() == map[] && held == {} && tables == map[]
      ensures this.mem == mem && npage == |mem| && this.maxSwapOffset == maxSwapOffset && this.area == area
    {
      AllBelowSize(|mem|);
      this.mem, npage, this.maxSwapOffset, this.area := mem, |mem|, maxSwapOffset, area;
      pages := seq(|mem|, f => Page(0, 0));
      free, held, tables := AllBelow(|mem|), {}, map[];
      pte, fifo, disk := map[], [], map[];
    }

    ghost predicate Valid()
      reads this
    {
      && |mem| == |pages| == npage
      && FramesOk(free, held, tables, fifo, pages)
      && FifoOk(pte, fifo, pages)
      && PtesOk(pte, area, tables, disk)
      && Readable(pte, mem, disk)
    }

    ghost function View(): map<nat, Contents>
      reads this
      requires Valid()
    {
      ViewOf(pte, mem, disk)
    }

    /** Every page has a slot on the swap device. */
    ghost predicate SwapFits() {
      forall v :: v in area ==> v + 1 < maxSwapOffset
    }

    /** The page that is evicted next. */
    ghost function Victim(): (v: nat)
      reads this
      requires Valid() && fifo != []
      ensures v in pte && v in area && pte[v] == Present(fifo[0], area[v].write)
    {
      assert fifo[0] in fifo;
      assert PteOk(pages[fifo[0]].praVaddr, pte[pages[fifo[0]].praVaddr], area, tables, disk);
      pages[fifo[0]].praVaddr
    }

    /** The end of swap_out, for a page that has a slot. */
    method PageOut()
      requires Valid() && fifo != [] && SlotOf(Victim()) < maxSwapOffset
      modifies `fifo, `disk, `pte, `free, `pages
      ensures Valid() && View() == old(View())
      ensures fifo == old(fifo)[1..] && free == old(free) + {old(fifo)[0]}
      ensures pte == old(pte)[old(Victim()) := Swapped(SlotOf(old(Victim())))]
    {
      Evicted(free, held, tables, fifo, pages, pte, mem, disk, area);
      WriteOut(fifo[0], pages[fifo[0]].praVaddr, View());
    }

    /** The writes: the page goes to its slot, its entry names the slot, and its frame is free. */
    method WriteOut(f: nat, v: nat, ghost view: map<nat, Contents>)
      requires fifo != [] && f < |pages| == |mem| == npage
      requires FramesOk(free + {f}, held, tables, fifo[1..], pages[f := pages[f].(ref := 0)])
      requires FifoOk(pte[v := Swapped(SlotOf(v))], fifo[1..], pages[f := pages[f].(ref := 0)])
      requires PtesOk(pte[v := Swapped(SlotOf(v))], area, tables, disk[SlotOf(v) := mem[f]])
      requires Readable(pte[v := Swapped(SlotOf(v))], mem, disk[SlotOf(v) := mem[f]])
      requires ViewOf(pte[v := Swapped(SlotOf(v))], mem, disk[SlotOf(v) := mem[f]]) == view
      modifies `fifo, `disk, `pte, `free, `pages
      ensures Valid() && View() == view && fifo == old(fifo)[1..] && free == old(free) + {f}
      ensures pte == old(pte)[v := Swapped(SlotOf(v))]
    {
      disk := disk[SlotOf(v) := mem[f]];
      fifo, pte := fifo[1..], pte[v := Swapped(SlotOf(v))];
      free, pages := free + {f}, pages[f := pages[f].(ref := 0)];
    }

    /** swap_out of one page, the oldest. */
    method SwapOut() returns (r: Outcome<()>)
      requires Valid()
      modifies `fifo, `disk, `pte, `free, `pages
      ensures r ==
        if old(fifo) == [] then Fail(NoVictim)
        else if old(Victim()) + 1 < maxSwapOffset then Ok(()) else Fail(BadSlot)
      ensures r == Fail(BadSlot) ==> !SwapFits()
      ensures r == Fail(NoVictim) ==> free == old(free) && fifo == old(fifo) && pages == old(pages)
      ensures r.Ok? ==> Valid() && View() == old(View())
      ensures r.Ok? ==> fifo == old(fifo)[1..] && free == old(free) + {old(fifo)[0]}
      ensures r.Ok? ==> pte == old(pte)[old(Victim()) := Swapped(old(Victim()) + 1)]
    {
      if |fifo| == 0 {
        return Fail(NoVictim);
      }
      assert fifo[0] in fifo;
      if SlotOf(pages[fifo[0]].praVaddr) >= maxSwapOffset {
        fifo := fifo[1..];
        return Fail(BadSlot);
      }
      PageOut();
      r := Ok(());
    }

    /** Frames in other hands: when nothing is free or resident, all of them. */
    ghost predicate Exhausted()
      reads this
    {
      free == {} && fifo == [] && |held| + |tables| == npage
    }

    /** The loop of alloc_pages: evict until a frame is free. */
    method Reclaim() returns (r: Outcome<()>)
      requires Valid()
      modifies `fifo, `disk, `pte, `free, `pages
      ensures r == Fail(NoVictim) ==> Exhausted()
      ensures r == Fail(BadSlot) ==> !SwapFits()
      ensures r ==
        if old(free) != {} then Ok(())
        else if old(fifo) == [] then Fail(NoVictim)
        else if old(Victim()) + 1 < maxSwapOffset then Ok(()) else Fail(BadSlot)
      ensures r.Ok? ==> Valid() && View() == old(View()) && free != {} && OnlyEvicts(old(pte), pte)
    {
      r := Ok(());
      while |free| == 0
        invariant r == Ok(()) && Valid() && View() == old(View()) && OnlyEvicts(old(pte), pte)
        invariant free == {} ==> free == old(free) && fifo == old(fifo) && pte == old(pte) && pages == old(pages)
        invariant free != {} && old(free) == {} ==> old(fifo) != [] && SlotOf(old(Victim())) < maxSwapOffset
        decreases |fifo|
      {
        r := SwapOut();
        if r.Fail? {
          return;
        }
      }
    }

    /** alloc_page; the frame is the caller's. */
    method AllocPage() returns (r: Outcome<nat>)
      requires Valid()
      modifies `fifo, `disk, `pte, `free, `pages, `held
      ensures r == Fail(NoVictim) ==> Exhausted()
      ensures r == Fail(BadSlot) ==> !SwapFits()
      ensures r == Fail(NoVictim) <==> old(free == {} && fifo == [])
      ensures r == Fail(BadSlot) <==> old(free == {} && fifo != [] && Victim() + 1 >= maxSwapOffset)
      ensures r != Fail(Refused)
      ensures r.Ok? ==> Valid() && View() == old(View()) && OnlyEvicts(old(pte), pte)
      ensures r.Ok? ==> r.value !in old(held) && held == old(held) + {r.value}
      ensures r.Fail? ==> held == old(held)
    {
      var reclaimed := Reclaim();
      if reclaimed.Fail? {
        return Fail(reclaimed.error);
      }
      var f :| f in free;
      TakeFrames(free, held, tables, fifo, pages, f);
      free, held := free - {f}, held + {f};
      r := Ok(f);
    }

    /** A frame becomes the page table for entry d of the page directory. */
    method AddTable(d: nat, f: nat)
      requires Valid() && f in held && d !in tables
      modifies `pages, `held, `tables
      ensures Valid() && View() == old(View()) && held == old(held) - {f} && tables == old(tables)[d := f]
    {
      TableFrames(free, held, tables, fifo, pages, f, d);
      TablePtes(pte, fifo, pages, tables, f, d, area, disk);
      pages := pages[f := pages[f].(ref := 1)];
      held := held - {f};
      tables := tables[d := f];
    }

    /** get_pte with create: the page table for v exists. */
    method MakeTable(v: nat) returns (r: Outcome<()>)
      requires Valid()
      modifies `fifo, `disk, `pte, `free, `pages, `held, `tables
      ensures r == Fail(NoVictim) ==> Exhausted()
      ensures r == Fail(BadSlot) ==> !SwapFits()
      ensures r != Fail(Refused)
      ensures r.Ok? ==> Valid() && View() == old(View()) && OnlyEvicts(old(pte), pte)
      ensures held == old(held)
      ensures tables.Keys == if r.Ok? then old(tables).Keys + {Pdx(v)} else old(tables).Keys
    {
      if Pdx(v) !in tables {
        var f := AllocPage();
        if f.Fail? {
          return Fail(f.error);
        }
        AddTable(Pdx(v), f.value);
      }
      r := Ok(());
    }

    /** page_insert of a frame that maps nothing yet, swap_map_swappable, and pra_vaddr. */
    method MapPage(v: nat, f: nat)
      requires Valid() && f in held && v in area && Pdx(v) in tables && (v in pte ==> pte[v].Swapped?)
      modifies `pte, `pages, `held, `fifo
      ensures Valid() && View() == old(View())[v := mem[f]] && held == old(held) - {f}
      ensures pte == old(pte)[v := Present(f, area[v].write)] && fifo == old(fifo) + [f]
    {
      InsertFrames(free, held, tables, fifo, pages, f, v);
      InsertFifo(pte, fifo, pages, f, v, area[v].write);
      InsertView(pte, mem, disk, v, f, area, tables);
      pages := pages[f := pages[f].(ref := pages[f].ref + 1)];
      pte := pte[v := Present(f, area[v].write)];
      fifo := fifo + [f];
      pages := pages[f := pages[f].(praVaddr := v)];
      assert pages[f].ref == 1;
      assert pages == old(pages)[f := Page(1, v)];
      held := held - {f};
    }

    /** swap_in: a fresh frame gets the swapped contents of page v. */
    method SwapIn(v: nat) returns (r: Outcome<nat>)
      requires Valid() && v in pte && pte[v].Swapped?
      modifies `fifo, `disk, `pte, `free, `pages, `held, `mem
      ensures r == Fail(NoVictim) ==> Exhausted()
      ensures r == Fail(BadSlot) ==> !SwapFits()
      ensures r != Fail(Refused)
      ensures r.Ok? ==> Valid() && View() == old(View()) && OnlyEvicts(old(pte), pte)
      ensures r.Ok? ==> r.value !in old(held) && held == old(held) + {r.value} && mem[r.value] == View()[v]
      ensures r.Fail? ==> held == old(held)
    {
      r := AllocPage();
      if r.Ok? {
        LoadView(pte, mem, disk, r.value, disk[pte[v].slot]);
        mem := mem[r.value := disk[pte[v].slot]];
      }
    }

    /** A frame with the contents that page v is to have: those it was swapped out with,
        or whatever the frame holds if the page is new. */
    method FrameFor(v: nat) returns (r: Outcome<nat>)
      requires Valid() && (v in pte ==> pte[v].Swapped?)
      modifies `fifo, `disk, `pte, `free, `pages, `held, `mem
      ensures r == Fail(NoVictim) ==> Exhausted()
      ensures r == Fail(BadSlot) ==> !SwapFits()
      ensures r != Fail(Refused)
      ensures r.Ok? ==> Valid() && View() == old(View()) && OnlyEvicts(old(pte), pte)
      ensures r.Ok? ==> r.value !in old(held) && held == old(held) + {r.value}
      ensures r.Ok? && v in pte ==> mem[r.value] == View()[v]
      ensures r.Fail? ==> held == old(held)
    {
      if v !in pte {
        r := AllocPage();
      } else {
        r := SwapIn(v);
      }
    }

    /** The page directory got no table but that one; the tables that were there stay. */
    ghost predicate GrowsBy(before: map<nat, nat>, d: nat)
      reads `tables
    {
      before.Keys <= tables.Keys <= before.Keys + {d}
    }

    /** The servicing part of do_pgfault, for an access that is allowed. */
    method Service(v: nat) returns (r: Outcome<()>)
      requires Valid() && v in area && (v in pte ==> pte[v].Swapped?)
      modifies this
      ensures r != Fail(Refused)
      ensures r == Fail(NoVictim) ==> Exhausted()
      ensures r == Fail(BadSlot) ==> !SwapFits()
      ensures r.Ok? ==> Valid() && v in pte && pte[v].Present?
      ensures r.Ok? ==> View() == old(View())[v := View()[v]] && (v in old(View()) ==> View()[v] == old(View())[v])
      ensures held == old(held) && GrowsBy(old(tables), v / TABLE_PAGES)
    {
      var table := MakeTable(v);
      if table.Fail? {
        return Fail(table.error);
      }
      var f := FrameFor(v);
      if f.Fail? {
        return Fail(f.error);
      }
      MapPage(v, f.value);
      r := Ok(());
    }

    /** do_pgfault at page v with the error code that the processor gives: present says
        that the page is mapped, so that it was a write to a read-only page. */
    method DoPgfault(v: nat, present: bool, write: bool) returns (r: Outcome<()>)
      requires Valid()
      requires present <==> v in pte && pte[v].Present?
      requires present ==> write && !pte[v].writable
      modifies this
      ensures r == Fail(Refused) <==> !Allowed(area, v, write)
      ensures r == Fail(Refused) ==> Valid() && View() == old(View()) && pte == old(pte)
      ensures r == Fail(NoVictim) ==> Exhausted()
      ensures r == Fail(BadSlot) ==> !SwapFits()
      ensures r.Ok? ==> Valid() && v in pte && pte[v].Present?
      ensures r.Ok? ==> View() == old(View())[v := View()[v]] && (v in old(View()) ==> View()[v] == old(View())[v])
      ensures held == old(held) && GrowsBy(old(tables), v / TABLE_PAGES)
    {
      assert v in pte ==> PteOk(v, pte[v], area, tables, disk);
      if v !in area {
        return Fail(Refused);
      }
      if write {
        if !area[v].write {
          return Fail(Refused);
        }
      } else if !(area[v].read || area[v].exec) {
        return Fail(Refused);
      }
      r := Service(v);
    }

    /** The state says no: a read of a resident page does not fault. */
    ghost predicate Refuses(a: Access)
      reads this
    {
      var v := a.addr / PGSIZE;
      !Allowed(area, v, a.Write?) && !(a.Read? && v in pte && pte[v].Present?)
    }

    /** The store itself. */
    method Store(v: nat, offset: nat, byte: Byte)
      requires Valid() && v in pte && pte[v].Present? && pte[v].writable && offset < PGSIZE
      modifies `mem
      ensures Valid() && View() == old(View())[v := old(View())[v][offset := byte]]
    {
      var f := pte[v].frame;
      var c: Contents := mem[f][offset := byte];
      WriteView(pte, mem, disk, fifo, pages, v, c);
      mem := mem[f := c];
    }

    /** The load itself. */
    function Load(v: nat, offset: nat): (b: Byte)
      requires Valid() && v in pte && pte[v].Present? && offset < PGSIZE
      reads this
      ensures b == View()[v][offset]
    {
      mem[pte[v].frame][offset]
    }

    /** What the processor does before an access: fault unless the page is mapped with
        the permission. */
    method Map(v: nat, write: bool) returns (r: Outcome<()>)
      requires Valid()
      modifies this
      ensures r == Fail(Refused) <==> !Allowed(area, v, write) && !(!write && old(v in pte && pte[v].Present?))
      ensures r == Fail(Refused) ==> Valid() && View() == old(View()) && pte == old(pte)
      ensures r == Fail(NoVictim) ==> Exhausted()
      ensures r == Fail(BadSlot) ==> !SwapFits()
      ensures r.Ok? ==> Valid() && v in pte && pte[v].Present? && (write ==> pte[v].writable) && Pdx(v) in tables
      ensures r.Ok? ==> View() == old(View())[v := View()[v]] && (v in old(View()) ==> View()[v] == old(View())[v])
      ensures held == old(held) && GrowsBy(old(tables), v / TABLE_PAGES)
    {
      assert v in pte ==> PteOk(v, pte[v], area, tables, disk);
      var present := v in pte && pte[v].Present?;
      if !present || (write && !pte[v].writable) {
        r := DoPgfault(v, present, write);
        if r.Ok? {
          assert PteOk(v, pte[v], area, tables, disk);
        }
      } else {
        r := Ok(());
      }
    }

    /** A load or store, with the page faults it causes. */
    method Touch(a: Access) returns (r: Outcome<Byte>)
      requires Valid()
      modifies this
      ensures r == Fail(Refused) <==> old(Refuses(a))
      ensures r == Fail(Refused) ==> Valid() && View() == old(View()) && pte == old(pte)
      ensures r == Fail(NoVictim) ==> Exhausted()
      ensures r == Fail(BadSlot) ==> !SwapFits()
      ensures r.Ok? ==> Valid() && a.addr / GROUP_BYTES in tables
      ensures r.Ok? ==> LikeMemory(a, r.value, old(View()), View())
      ensures held == old(held) && GrowsBy(old(tables), a.addr / GROUP_BYTES)
    {
      var v := a.addr / PGSIZE;
      GroupOfPage(a.addr);
      var mapped := Map(v, a.Write?);
      if mapped.Fail? {
        return Fail(mapped.error);
      }
      ghost var view := View();
      if a.Write? {
        Store(v, a.addr % PGSIZE, a.byte);
      }
      AccessLikeMemory(a, old(View()), view, View());
      r := Ok(Load(v, a.addr % PGSIZE));
    }

    /** free_page of a frame that kernel code kept. */
    method FreePage(f: nat)
      requires Valid() && f in held
      modifies `held, `free
      ensures Valid() && View() == old(View()) && held == old(held) - {f} && free == old(free) + {f}
    {
      held, free := held - {f}, free + {f};
    }

    /** Something else in the kernel happens. */
    method KernelStep(e: Event) returns (r: Outcome<Byte>)
      requires Valid() && !e.Touch?
      modifies this
      ensures r == Fail(NoVictim) ==> Exhausted()
      ensures r == Fail(BadSlot) ==> !SwapFits()
      ensures r != Fail(Refused)
      ensures r.Ok? ==> Valid() && View() == old(View())
      ensures tables == old(tables) && |held| == if r.Ok? then HeldNext(|old(held)|, e) else |old(held)|
    {
      r := Ok(0);
      if e.Take? {
        var f := AllocPage();
        if f.Fail? { r := Fail(f.error); }
      } else if e.Evict? && |fifo| > 0 {
        var out := SwapOut();
        if out.Fail? { r := Fail(out.error); }
      } else if e.GiveBack? && |held| > 0 {
        var f :| f in held;
        FreePage(f);
      }
    }

    /** Any event. */
    method Happens(e: Event) returns (r: Outcome<Byte>)
      requires Valid()
      modifies this
      ensures GoesOn(r) ==> Valid() && ViewAfter(e, r, old(View()), View())
      ensures r == Fail(NoVictim) ==> Exhausted()
      ensures r == Fail(BadSlot) ==> !SwapFits()
      ensures tables.Keys <= old(tables).Keys + GroupsOf(e)
      ensures |held| == if r.Ok? then HeldNext(|old(held)|, e) else |old(held)|
      ensures r == Fail(Refused) ==> e.Touch?
    {
      if e.Touch? {
        r := Touch(e.access);
      } else {
        r := KernelStep(e);
      }
    }

    /** After the results so far of a run that started with n frames held and these page tables. */
    ghost predicate InRun(events: seq<Event>, results: seq<Outcome<Byte>>, n: nat, first: set<nat>)
      reads this
    {
      && |results| <= |events| && Valid()
      && (forall i :: 0 <= i < |results| ==> GoesOn(results[i]))
      && Transparent(events, results) && RemembersAll(View(), events, results)
      && Taken(events, |results|, n, |held|, first, tables.Keys)
    }

    /** The results of such a run are complete. */
    ghost predicate RunEnds(events: seq<Event>, results: seq<Outcome<Byte>>, n: nat, first: set<nat>)
      reads this
    {
      && |results| <= |events| && AllButLastGoOn(results) && Transparent(events, results)
      && (|results| < |events| ==> results != [] && !GoesOn(results[|results| - 1]))
      && (results == [] || GoesOn(results[|results| - 1]) ==> Valid())
      && (results != [] && results[|results| - 1] == Fail(NoVictim) ==> Exhausted())
      && (results != [] && results[|results| - 1] == Fail(BadSlot) ==> !SwapFits())
      && |held| <= MostHeld(n, events) && tables.Keys <= first + GroupsIn(events)
    }

    /** The next event of a run. */
    method Next(events: seq<Event>, results: seq<Outcome<Byte>>, ghost n: nat, ghost first: set<nat>)
      returns (more: seq<Outcome<Byte>>)
      requires InRun(events, results, n, first) && |results| < |events|
      modifies this
      ensures |more| == |results| + 1
      ensures if GoesOn(more[|more| - 1]) then InRun(events, more, n, first) else RunEnds(events, more, n, first)
    {
      ghost var view, tablesBefore, heldBefore := View(), tables.Keys, |held|;
      var r := Happens(events[|results|]);
      TakenStep(events, |results|, r, n, heldBefore, |held|, first, tablesBefore, tables.Keys);
      TransparentStep(events, results, r, view, if GoesOn(r) then View() else view);
      more := results + [r];
    }

    method RunOn(events: seq<Event>, ghost n: nat, ghost first: set<nat>) returns (results: seq<Outcome<Byte>>)
      requires InRun(events, [], n, first)
      modifies this
      ensures RunEnds(events, results, n, first)
    {
      results := [];
      while |results| < |events|
        invariant InRun(events, results, n, first)
      {
        results := Next(events, results, n, first);
        if !GoesOn(results[|results| - 1]) {
          return;
        }
      }
    }

    /** Any run from here: the results of the events, up to the first after which the
        kernel does not go on. */
    method Run(events: seq<Event>) returns (results: seq<Outcome<Byte>>)
      requires Valid()
      modifies this
      ensures |results| <= |events|
      ensures forall i :: 0 <= i < |results| - 1 ==> results[i].Ok? || results[i] == Fail(Refused)
      ensures |results| < |events| ==>
        results != [] && (results[|results| - 1] == Fail(NoVictim) || results[|results| - 1] == Fail(BadSlot))
      ensures Transparent(events, results)
      ensures results != [] && results[|results| - 1] == Fail(NoVictim) ==> Exhausted()
      ensures results != [] && results[|results| - 1] == Fail(BadSlot) ==> !SwapFits()
      ensures results == [] || GoesOn(results[|results| - 1]) ==> Valid()
      ensures |held| <= MostHeld(|old(held)|, events) && tables.Keys <= old(tables).Keys + GroupsIn(events)
      ensures MostHeld(|old(held)|, events) + |old(tables).Keys + GroupsIn(events)| < npage ==>
        forall i :: 0 <= i < |results| ==> results[i] != Fail(NoVictim)
    {
      NoneTaken(events, |held|, tables.Keys);
      ghost var n, first := |held|, tables.Keys;
      results := RunOn(events, n, first);
      if results != [] && results[|results| - 1] == Fail(NoVictim) {
        SubsetSize(tables.Keys, first + GroupsIn(events));
      }
    }
  }

  /** From an empty address space on, memory suffices for every run in which kernel code leaves more
      frames than the accesses need page tables, one for each group of 1024 pages that they are in:
      one frame is enough for all their pages, as long as each has a slot on the swap device. */
  method RunFromStart(mem: seq<Contents>, maxSwapOffset: nat, area: map<nat, Flags>, events: seq<Event>)
    returns (p: Paging, results: seq<Outcome<Byte>>)
    ensures fresh(p) && p.area == area && p.maxSwapOffset == maxSwapOffset && p.npage == |mem|
    ensures |results| <= |events| && Transparent(events, results)
    ensures |p.tables| <= |GroupsIn(events)|
    ensures MostHeld(0, events) + |GroupsIn(events)| < |mem| ==>
      forall i :: 0 <= i < |results| ==> results[i] != Fail(NoVictim)
    ensures MostHeld(0, events) + |GroupsIn(events)| < |mem| && p.SwapFits() ==>
      && |results| == |events| && p.Valid()
      && forall i :: 0 <= i < |results| ==> results[i].Ok? || results[i] == Fail(Refused)
  {
    p := new Paging(mem, maxSwapOffset, area);
    assert p.tables.Keys + GroupsIn(events) == GroupsIn(events);
    results := p.Run(events);
    SubsetSize(p.tables.Keys, GroupsIn(events));
  }

  /** What an event does to the pages, if the kernel goes on after it. */
  ghost predicate ViewAfter(e: Event, r: Outcome<Byte>, before: map<nat, Contents>, after: map<nat, Contents>) {
    if e.Touch? && r.Ok? then LikeMemory(e.access, r.value, before, after) else after == before
  }

  // ---------- frames that are taken ----------

  lemma {:induction false} FewerValues(m: map<nat, nat>)
    ensures |m.Values| <= |m|
  {
    if m != map[] {
      var d :| d in m;
      var rest := m - {d};
      FewerValues(rest);
      assert m.Keys == rest.Keys + {d};
      assert m.Values <= rest.Values + {m[d]} by {
        forall f | f in m.Values
          ensures f in rest.Values + {m[d]}
        {
          var e :| e in m && m[e] == f;
          assert e != d ==> e in rest && rest[e] == f;
        }
      }
      SubsetSize(m.Values, rest.Values + {m[d]});
    }
  }

  lemma Shared(m: map<nat, nat>, d: nat, e: nat)
    requires d in m && e in m && d != e && m[d] == m[e]
    ensures |m.Values| < |m|
  {
    var rest := m - {d};
    FewerValues(rest);
    assert m.Keys == rest.Keys + {d} && rest[e] == m[d];
    forall f | f in m.Values
      ensures f in rest.Values
    {
      var c :| c in m && m[c] == f;
      assert c != d ==> c in rest && rest[c] == f;
    }
    SubsetSize(m.Values, rest.Values);
  }

  /** Pages find the same page table exactly when they are in the same aligned group of 1024. */
  lemma OneTablePerGroup(p: Paging, v: nat, w: nat)
    requires p.Valid() && v in p.pte && w in p.pte
    ensures Pdx(v) in p.tables && Pdx(w) in p.tables
    ensures p.tables[Pdx(v)] == p.tables[Pdx(w)] <==> v / 1024 == w / 1024
  {
    assert PteOk(v, p.pte[v], p.area, p.tables, p.disk) && PteOk(w, p.pte[w], p.area, p.tables, p.disk);
    if Pdx(v) != Pdx(w) && p.tables[Pdx(v)] == p.tables[Pdx(w)] {
      Shared(p.tables, Pdx(v), Pdx(w));
    }
  }

  lemma GroupOfPage(addr: nat)
    ensures addr / PGSIZE / TABLE_PAGES == addr / GROUP_BYTES == Pdx(addr / PGSIZE)
  {
    DivisionIs(addr / PGSIZE, TABLE_PAGES, addr / GROUP_BYTES);
  }

  /** The aligned group of 1024 pages that an access is in. */
  function GroupsOf(e: Event): set<nat> {
    if e.Touch? then {e.access.addr / GROUP_BYTES} else {}
  }

  /** The groups that the accesses are in. */
  function GroupsIn(events: seq<Event>): set<nat> {
    set i, g | 0 <= i < |events| && g in GroupsOf(events[i]) :: g
  }

  /** How many frames kernel code holds after an event, if it was n before. */
  function HeldNext(n: nat, e: Event): nat {
    match e
    case Take => n + 1
    case GiveBack => if n > 0 then n - 1 else n
    case _ => n
  }

  function HeldAfter(n: nat, events: seq<Event>): nat {
    if events == [] then n else HeldNext(HeldAfter(n, events[..|events| - 1]), events[|events| - 1])
  }

  /** How many frames it ever holds. */
  function MostHeld(n: nat, events: seq<Event>): nat {
    if events == [] then n
    else
      var before, now := MostHeld(n, events[..|events| - 1]), HeldAfter(n, events);
      if before < now then now else before
  }

  lemma {:induction false} MostHeldIsMost(n: nat, events: seq<Event>, k: nat)
    requires k <= |events|
    ensures HeldAfter(n, events[..k]) <= MostHeld(n, events)
  {
    if k == |events| {
      assert events[..k] == events;
    } else {
      var fewer := events[..|events| - 1];
      MostHeldIsMost(n, fewer, k);
      assert fewer[..k] == events[..k];
    }
  }

  /** After k events kernel code holds `held` frames, n at first, and there are tables for the
      entries `now` of the page directory, for `first` at first. */
  ghost predicate Taken(events: seq<Event>, k: nat, n: nat, held: nat, first: set<nat>, now: set<nat>) {
    k <= |events| && held == HeldAfter(n, events[..k]) && held <= MostHeld(n, events) && now <= first + GroupsIn(events)
  }

  lemma NoneTaken(events: seq<Event>, n: nat, first: set<nat>)
    ensures Taken(events, 0, n, n, first, first)
  {
    MostHeldIsMost(n, events, 0);
  }

  lemma TakenStep(events: seq<Event>, k: nat, r: Outcome<Byte>, n: nat, held: nat, held': nat,
                  first: set<nat>, now: set<nat>, now': set<nat>)
    requires Taken(events, k, n, held, first, now) && k < |events|
    requires held' == if r.Ok? then HeldNext(held, events[k]) else held
    requires now' <= now + GroupsOf(events[k]) && (r == Fail(Refused) ==> events[k].Touch?)
    ensures held' <= MostHeld(n, events) && now' <= first + GroupsIn(events)
    ensures GoesOn(r) ==> Taken(events, k + 1, n, held', first, now')
  {
    assert events[..k + 1][..k] == events[..k];
    MostHeldIsMost(n, events, k);
    MostHeldIsMost(n, events, k + 1);
  }

  /** The vma of page v exists and permits the access. */
  predicate Allowed(area: map<nat, Flags>, v: nat, write: bool) {
    v in area && if write then area[v].write else area[v].read || area[v].exec
  }

  /** An access does to the pages what it would do to plain memory, where a page that
      was never touched holds anything: it gives the byte at the address, and nothing
      changes but that byte of a store and the new page. */
  ghost predicate LikeMemory(a: Access, b: Byte, before: map<nat, Contents>, after: map<nat, Contents>) {
    var v, o := a.addr / PGSIZE, a.addr % PGSIZE;
    && v in after && b == after[v][o] && after == before[v := after[v]]
    && match a
       case Read(_) => v in before ==> after == before
       case Write(_, byte) => b == byte && (v in before ==> after[v] == before[v][o := byte])
  }

  lemma AccessLikeMemory(a: Access, before: map<nat, Contents>, mapped: map<nat, Contents>, after: map<nat, Contents>)
    requires a.addr / PGSIZE in mapped && mapped == before[a.addr / PGSIZE := mapped[a.addr / PGSIZE]]
    requires a.addr / PGSIZE in before ==> mapped[a.addr / PGSIZE] == before[a.addr / PGSIZE]
    requires
      var v, o := a.addr / PGSIZE, a.addr % PGSIZE;
      after == if a.Write? then mapped[v := mapped[v][o := a.byte]] else mapped
    ensures LikeMemory(a, after[a.addr / PGSIZE][a.addr % PGSIZE], before, after)
  {
    var v := a.addr / PGSIZE;
    assert v in before ==> mapped == before;
  }

  /** The kernel goes on after this result. */
  predicate GoesOn(r: Outcome<Byte>) {
    r.Ok? || r.error == Refused
  }

  ghost predicate AllButLastGoOn(results: seq<Outcome<Byte>>) {
    forall i :: 0 <= i < |results| - 1 ==> GoesOn(results[i])
  }

  /** The byte that the latest successful access to addr read or wrote. */
  ghost function LastByte(events: seq<Event>, results: seq<Outcome<Byte>>, addr: nat): Outcome<Byte>
    requires |results| <= |events|
    decreases |results|
  {
    if results == [] then Fail(Refused)
    else
      var n := |results| - 1;
      if events[n].Touch? && events[n].access.addr == addr && results[n].Ok? then results[n]
      else LastByte(events, results[..n], addr)
  }

  /** Whether an access is refused depends on paging only for reads of pages that may
      be written but not read: they succeed exactly while the page is resident. */
  lemma RefusalIsStatic(p: Paging, a: Access)
    requires p.Valid()
    ensures
      var v := a.addr / PGSIZE;
      p.Refuses(a) != !Allowed(p.area, v, a.Write?) <==>
        a.Read? && v in p.pte && p.pte[v].Present? && v in p.area && !p.area[v].read && !p.area[v].exec
  {
    var v := a.addr / PGSIZE;
    assert v in p.pte ==> PteOk(v, p.pte[v], p.area, p.tables, p.disk);
  }

  /** Paging does not show: a load gives the byte that the latest access to that
      address read or wrote, and a store gives its own. */
  ghost predicate Transparent(events: seq<Event>, results: seq<Outcome<Byte>>)
    requires |results| <= |events|
  {
    forall i :: 0 <= i < |results| && events[i].Touch? && results[i].Ok? ==>
      match events[i].access
      case Read(addr) => LastByte(events, results[..i], addr).Ok? ==> results[i] == LastByte(events, results[..i], addr)
      case Write(_, byte) => results[i] == Ok(byte)
  }

  ghost predicate Remembers(view: map<nat, Contents>, addr: nat, b: Outcome<Byte>) {
    b.Ok? ==> addr / PGSIZE in view && view[addr / PGSIZE][addr % PGSIZE] == b.value
  }

  ghost predicate RemembersAll(view: map<nat, Contents>, events: seq<Event>, results: seq<Outcome<Byte>>)
    requires |results| <= |events|
  {
    forall addr :: Remembers(view, addr, LastByte(events, results, addr))
  }

  /** One more event keeps the run transparent. */
  lemma TransparentStep(events: seq<Event>, results: seq<Outcome<Byte>>, r: Outcome<Byte>,
                        before: map<nat, Contents>, after: map<nat, Contents>)
    requires |results| < |events| && Transparent(events, results) && RemembersAll(before, events, results)
    requires ViewAfter(events[|results|], r, before, after)
    ensures Transparent(events, results + [r]) && RemembersAll(after, events, results + [r])
  {
    var n := |results|;
    var rs := results + [r];
    assert rs[..n] == results;
    forall i | 0 <= i < n
      ensures rs[..i] == results[..i]
    {
    }
    var e := events[n];
    if e.Touch? && r.Ok? && e.access.Read? {
      assert Remembers(before, e.access.addr, LastByte(events, results, e.access.addr));
    }
    forall addr: nat
      ensures Remembers(after, addr, LastByte(events, rs, addr))
    {
      assert Remembers(before, addr, LastByte(events, results, addr));
      if e.Touch? && r.Ok? && e.access.addr != addr {
        assert e.access.addr / PGSIZE != addr / PGSIZE || e.access.addr % PGSIZE != addr % PGSIZE;
      }
    }
  }
}
