/** dup_mmap as a whole: the areas of vmm.c and the pages of pmm.c together, and what copy_mm
    makes of it. */
module ForkMemory {
  import opened Basics
  import V = Vmas
  import P = PageTable

  /** The area is made of whole pages of user memory, as mm_map sees to. */
  predicate WholePages(v: V.Vma) {
    v.start % PGSIZE == 0 && v.end % PGSIZE == 0 && V.UserAccess(v.start, v.end)
  }

  predicate AllWhole(vmas: seq<V.Vma>) {
    forall i :: 0 <= i < |vmas| ==> WholePages(vmas[i])
  }

  function FirstPage(v: V.Vma): nat
    requires WholePages(v)
  {
    v.start / PGSIZE
  }

  function EndPage(v: V.Vma): nat
    requires WholePages(v)
  {
    v.end / PGSIZE
  }

  /** Page p is in one of the areas from number i on. */
  ghost predicate InAreas(vmas: seq<V.Vma>, i: nat, p: nat) {
    exists j :: i <= j < |vmas| && vmas[j].start <= p * PGSIZE < vmas[j].end
  }

  /** A page of area i is in no later one. */
  lemma PageIn(vmas: seq<V.Vma>, i: nat, p: nat)
    requires i < |vmas| && WholePages(vmas[i]) && V.Sorted(vmas)
    ensures InAreas(vmas, i, p) <==> InAreas(vmas, i + 1, p) || FirstPage(vmas[i]) <= p < EndPage(vmas[i])
    ensures FirstPage(vmas[i]) <= p < EndPage(vmas[i]) ==> !InAreas(vmas, i + 1, p)
  {
    assert vmas[i].start <= p * PGSIZE < vmas[i].end <==> FirstPage(vmas[i]) <= p < EndPage(vmas[i]);
  }

  // ---------- which pages are copied ----------

  /** What is to become of page k: the child gets fresh copies of the present pages of those areas. */
  ghost predicate DupAt<C>(flat0: map<P.Key, P.Entry>, data0: seq<C>, flat: map<P.Key, P.Entry>, data: seq<C>,
                           to: nat, from: nat, vmas: seq<V.Vma>, i: nat, k: P.Key) {
    if k.dir == to && InAreas(vmas, i, k.page) && P.At(flat0, P.Key(from, k.page)).Map?
    then P.FreshCopy(flat0, data0, flat, data, to, from, k.page)
    else P.KeptAt(flat0, data0, flat, data, k)
  }

  ghost predicate Dupped<C(!new)>(flat0: map<P.Key, P.Entry>, data0: seq<C>, flat: map<P.Key, P.Entry>, data: seq<C>,
                                  to: nat, from: nat, vmas: seq<V.Vma>, i: nat) {
    forall k {:trigger DupAt(flat0, data0, flat, data, to, from, vmas, i, k)} ::
      DupAt(flat0, data0, flat, data, to, from, vmas, i, k)
  }

  /** A fresh copy stays one when other pages of the child are copied. */
  lemma FreshStays<C(!new)>(flat0: map<P.Key, P.Entry>, data0: seq<C>, flat1: map<P.Key, P.Entry>, data1: seq<C>,
                            flat: map<P.Key, P.Entry>, data: seq<C>, to: nat, from: nat, start: nat, end: nat, p: nat)
    requires P.FreshCopy(flat0, data0, flat1, data1, to, from, p) && !(start <= p < end)
    requires P.Copied(flat1, data1, flat, data, to, from, start, end) && to != from
    ensures P.FreshCopy(flat0, data0, flat, data, to, from, p)
  {
    var k := P.Key(to, p);
    assert P.CopiedAt(flat1, data1, flat, data, to, from, start, end, k);
    var f := P.At(flat1, k).frame;
    assert k in P.Users(flat, f);
    forall other | other in P.Users(flat, f)
      ensures other == k
    {
      assert P.CopiedAt(flat1, data1, flat, data, to, from, start, end, other);
      assert other in P.Users(flat1, f) || P.Users(flat, f) == {other};
    }
  }

  /** One more area. */
  lemma DupNext<C(!new)>(flat0: map<P.Key, P.Entry>, data0: seq<C>, flat1: map<P.Key, P.Entry>, data1: seq<C>,
                         flat: map<P.Key, P.Entry>, data: seq<C>, to: nat, from: nat, vmas: seq<V.Vma>, i: nat)
    requires i < |vmas| && WholePages(vmas[i]) && V.Sorted(vmas) && to != from
    requires Dupped(flat0, data0, flat1, data1, to, from, vmas, i + 1)
    requires P.Copied(flat1, data1, flat, data, to, from, FirstPage(vmas[i]), EndPage(vmas[i]))
    ensures Dupped(flat0, data0, flat, data, to, from, vmas, i)
  {
    var start, end := FirstPage(vmas[i]), EndPage(vmas[i]);
    forall k
      ensures DupAt(flat0, data0, flat, data, to, from, vmas, i, k)
    {
      PageIn(vmas, i, k.page);
      assert DupAt(flat0, data0, flat1, data1, to, from, vmas, i + 1, k);
      assert DupAt(flat0, data0, flat1, data1, to, from, vmas, i + 1, P.Key(from, k.page));
      assert P.CopiedAt(flat1, data1, flat, data, to, from, start, end, k);
      assert P.CopiedAt(flat1, data1, flat, data, to, from, start, end, P.Key(from, k.page));
      if k.dir == to && InAreas(vmas, i + 1, k.page) && P.At(flat0, P.Key(from, k.page)).Map? {
        FreshStays(flat0, data0, flat1, data1, flat, data, to, from, start, end, k.page);
      }
    }
  }

  lemma NothingDupped<C(!new)>(ref: seq<int>, free: set<nat>, tables: set<nat>, flat: map<P.Key, P.Entry>, data: seq<C>,
                               to: nat, from: nat, vmas: seq<V.Vma>)
    requires P.RefsOk(ref, free, tables, flat) && |data| == |ref|
    ensures Dupped(flat, data, flat, data, to, from, vmas, |vmas|)
  {
    forall k
      ensures DupAt(flat, data, flat, data, to, from, vmas, |vmas|, k)
    {
      if P.At(flat, k).Map? {
        P.MappedIsUsed(ref, free, tables, flat, k);
      }
    }
  }

  /** Page k when the copying ended early: a fresh copy in an area that the child got, or as before. */
  ghost predicate PartAt<C>(flat0: map<P.Key, P.Entry>, data0: seq<C>, flat: map<P.Key, P.Entry>, data: seq<C>,
                            to: nat, from: nat, vmas: seq<V.Vma>, i: nat, k: P.Key) {
    || (k.dir == to && InAreas(vmas, i, k.page) && P.FreshCopy(flat0, data0, flat, data, to, from, k.page))
    || P.KeptAt(flat0, data0, flat, data, k)
  }

  ghost predicate Part<C(!new)>(flat0: map<P.Key, P.Entry>, data0: seq<C>, flat: map<P.Key, P.Entry>, data: seq<C>,
                                to: nat, from: nat, vmas: seq<V.Vma>, i: nat) {
    forall k {:trigger PartAt(flat0, data0, flat, data, to, from, vmas, i, k)} ::
      PartAt(flat0, data0, flat, data, to, from, vmas, i, k)
  }

  lemma DuppedIsPart<C(!new)>(flat0: map<P.Key, P.Entry>, data0: seq<C>, flat: map<P.Key, P.Entry>, data: seq<C>,
                              to: nat, from: nat, vmas: seq<V.Vma>, i: nat)
    requires Dupped(flat0, data0, flat, data, to, from, vmas, i)
    ensures Part(flat0, data0, flat, data, to, from, vmas, i)
  {
    forall k
      ensures PartAt(flat0, data0, flat, data, to, from, vmas, i, k)
    {
      assert DupAt(flat0, data0, flat, data, to, from, vmas, i, k);
    }
  }

  /** A part of one more area. */
  lemma PartNext<C(!new)>(flat0: map<P.Key, P.Entry>, data0: seq<C>, flat1: map<P.Key, P.Entry>, data1: seq<C>,
                          flat: map<P.Key, P.Entry>, data: seq<C>, to: nat, from: nat, vmas: seq<V.Vma>, i: nat,
                          reached: nat)
    requires i < |vmas| && WholePages(vmas[i]) && V.Sorted(vmas) && to != from
    requires FirstPage(vmas[i]) <= reached <= EndPage(vmas[i])
    requires Dupped(flat0, data0, flat1, data1, to, from, vmas, i + 1)
    requires P.Copied(flat1, data1, flat, data, to, from, FirstPage(vmas[i]), reached)
    ensures Part(flat0, data0, flat, data, to, from, vmas, i)
  {
    var start := FirstPage(vmas[i]);
    forall k
      ensures PartAt(flat0, data0, flat, data, to, from, vmas, i, k)
    {
      PageIn(vmas, i, k.page);
      assert DupAt(flat0, data0, flat1, data1, to, from, vmas, i + 1, k);
      assert DupAt(flat0, data0, flat1, data1, to, from, vmas, i + 1, P.Key(from, k.page));
      assert P.CopiedAt(flat1, data1, flat, data, to, from, start, reached, k);
      assert P.CopiedAt(flat1, data1, flat, data, to, from, start, reached, P.Key(from, k.page));
      if k.dir == to && InAreas(vmas, i + 1, k.page) && P.At(flat0, P.Key(from, k.page)).Map? {
        FreshStays(flat0, data0, flat1, data1, flat, data, to, from, start, reached, k.page);
      }
    }
  }

  // ---------- what it costs ----------

  /** Address space dir has the same entries. */
  ghost predicate SameSpace(flat0: map<P.Key, P.Entry>, flat1: map<P.Key, P.Entry>, dir: nat) {
    forall p: nat {:trigger P.Key(dir, p)} :: P.At(flat1, P.Key(dir, p)) == P.At(flat0, P.Key(dir, p))
  }

  ghost predicate Empty(flat: map<P.Key, P.Entry>, dir: nat) {
    forall p: nat :: !P.At(flat, P.Key(dir, p)).Map?
  }

  /** The present pages of the areas from number i on. */
  ghost function DupPages(flat: map<P.Key, P.Entry>, from: nat, vmas: seq<V.Vma>, i: nat): set<nat> {
    set k | k in flat && k.dir == from && flat[k].Map? && InAreas(vmas, i, k.page) :: k.page
  }

  ghost function DupTables(flat: map<P.Key, P.Entry>, to: nat, from: nat, vmas: seq<V.Vma>, i: nat): set<P.DirKey> {
    P.TablesOf(to, DupPages(flat, from, vmas, i))
  }

  /** The frames that the child takes: one for each present page of those areas, and one for each
      page table that it does not have. */
  ghost function DupCost(flat: map<P.Key, P.Entry>, pde: map<P.DirKey, nat>, to: nat, from: nat, vmas: seq<V.Vma>,
                         i: nat): nat {
    P.PagesCost(pde, to, DupPages(flat, from, vmas, i))
  }

  /** The pages that dup_mmap copies before it comes to page p of area i. */
  ghost function Sooner(flat: map<P.Key, P.Entry>, from: nat, vmas: seq<V.Vma>, i: nat, p: nat): set<nat>
    requires i < |vmas| && WholePages(vmas[i])
  {
    DupPages(flat, from, vmas, i + 1) + P.Present(flat, from, FirstPage(vmas[i]), p)
  }

  lemma InSooner(flat: map<P.Key, P.Entry>, from: nat, vmas: seq<V.Vma>, i: nat, p: nat, q: nat)
    requires i < |vmas| && WholePages(vmas[i])
    ensures q in Sooner(flat, from, vmas, i, p) <==>
      P.At(flat, P.Key(from, q)).Map? && (InAreas(vmas, i + 1, q) || FirstPage(vmas[i]) <= q < p)
  {
    InDupPages(flat, from, vmas, i + 1, q);
  }

  lemma AllSooner(flat: map<P.Key, P.Entry>, from: nat, vmas: seq<V.Vma>, i: nat)
    requires i < |vmas| && WholePages(vmas[i]) && V.Sorted(vmas)
    ensures Sooner(flat, from, vmas, i, EndPage(vmas[i])) == DupPages(flat, from, vmas, i)
  {
    forall q: nat
      ensures q in Sooner(flat, from, vmas, i, EndPage(vmas[i])) <==> q in DupPages(flat, from, vmas, i)
    {
      PageIn(vmas, i, q);
      InSooner(flat, from, vmas, i, EndPage(vmas[i]), q);
      InDupPages(flat, from, vmas, i, q);
    }
  }

  /** The pages up to p of area i are those of the later areas and those of copy_range so far. */
  lemma SoonerSize(flat0: map<P.Key, P.Entry>, flat1: map<P.Key, P.Entry>, from: nat, vmas: seq<V.Vma>, i: nat, p: nat)
    requires i < |vmas| && WholePages(vmas[i]) && V.Sorted(vmas) && p <= EndPage(vmas[i])
    requires SameSpace(flat0, flat1, from)
    ensures
      var now := P.Present(flat1, from, FirstPage(vmas[i]), p);
      && Sooner(flat0, from, vmas, i, p) == DupPages(flat0, from, vmas, i + 1) + now
      && |Sooner(flat0, from, vmas, i, p)| == |DupPages(flat0, from, vmas, i + 1)| + |now|
  {
    var later, now := DupPages(flat0, from, vmas, i + 1), P.Present(flat1, from, FirstPage(vmas[i]), p);
    forall q: nat
      ensures q in now <==> q in P.Present(flat0, from, FirstPage(vmas[i]), p)
      ensures !(q in later && q in now)
    {
      PageIn(vmas, i, q);
      assert P.At(flat1, P.Key(from, q)) == P.At(flat0, P.Key(from, q));
      InDupPages(flat0, from, vmas, i + 1, q);
    }
    assert later !! now && Sooner(flat0, from, vmas, i, p) == later + now;
  }

  lemma InDupPages(flat: map<P.Key, P.Entry>, from: nat, vmas: seq<V.Vma>, i: nat, p: nat)
    ensures p in DupPages(flat, from, vmas, i) <==> P.At(flat, P.Key(from, p)).Map? && InAreas(vmas, i, p)
  {
    if P.At(flat, P.Key(from, p)).Map? && InAreas(vmas, i, p) {
      assert P.Key(from, p) in flat && P.Key(from, p).page == p;
    }
  }

  lemma SizeOfNew<T>(have: set<T>, later: set<T>, now: set<T>)
    ensures |(later + now) - have| == |later - have| + |now - (have + later)|
  {
    assert (later + now) - have == (later - have) + (now - (have + later));
  }

  /** What the pages up to p of area i cost is the cost of the later areas and of the rest after them. */
  lemma SoonerCost(flat0: map<P.Key, P.Entry>, flat1: map<P.Key, P.Entry>, pde0: map<P.DirKey, nat>,
                   pde1: map<P.DirKey, nat>, to: nat, from: nat, vmas: seq<V.Vma>, i: nat, p: nat)
    requires i < |vmas| && WholePages(vmas[i]) && V.Sorted(vmas) && p <= EndPage(vmas[i])
    requires SameSpace(flat0, flat1, from)
    requires pde1.Keys == pde0.Keys + DupTables(flat0, to, from, vmas, i + 1)
    ensures
      var start, sooner := FirstPage(vmas[i]), Sooner(flat0, from, vmas, i, p);
      && P.TablesOf(to, sooner) == DupTables(flat0, to, from, vmas, i + 1) + P.TablesFor(flat1, to, from, start, p)
      && P.PagesCost(pde0, to, sooner) ==
           DupCost(flat0, pde0, to, from, vmas, i + 1) + P.Cost(flat1, pde1, to, from, start, p)
  {
    SoonerSize(flat0, flat1, from, vmas, i, p);
    var later, now := DupPages(flat0, from, vmas, i + 1), P.Present(flat1, from, FirstPage(vmas[i]), p);
    TablesOfBoth(to, later, now);
    SizeOfNew(pde0.Keys, P.TablesOf(to, later), P.TablesOf(to, now));
  }

  lemma TablesOfBoth(to: nat, a: set<nat>, b: set<nat>)
    ensures P.TablesOf(to, a + b) == P.TablesOf(to, a) + P.TablesOf(to, b)
  {
  }

  /** The cost of the areas from number i on is the cost of the later ones and of area i after them. */
  lemma DupCostNext(flat0: map<P.Key, P.Entry>, flat1: map<P.Key, P.Entry>, pde0: map<P.DirKey, nat>,
                    pde1: map<P.DirKey, nat>, to: nat, from: nat, vmas: seq<V.Vma>, i: nat)
    requires i < |vmas| && WholePages(vmas[i]) && V.Sorted(vmas)
    requires SameSpace(flat0, flat1, from)
    requires pde1.Keys == pde0.Keys + DupTables(flat0, to, from, vmas, i + 1)
    ensures
      var start, end := FirstPage(vmas[i]), EndPage(vmas[i]);
      && DupTables(flat0, to, from, vmas, i) ==
           DupTables(flat0, to, from, vmas, i + 1) + P.TablesFor(flat1, to, from, start, end)
      && DupCost(flat0, pde0, to, from, vmas, i) ==
           DupCost(flat0, pde0, to, from, vmas, i + 1) + P.Cost(flat1, pde1, to, from, start, end)
  {
    AllSooner(flat0, from, vmas, i);
    SoonerCost(flat0, flat1, pde0, pde1, to, from, vmas, i, EndPage(vmas[i]));
  }

  lemma CostGrows(pde: map<P.DirKey, nat>, to: nat, few: set<nat>, many: set<nat>)
    requires few <= many
    ensures P.PagesCost(pde, to, few) <= P.PagesCost(pde, to, many)
  {
    SubsetSize(few, many);
    assert P.TablesOf(to, few) <= P.TablesOf(to, many);
    SubsetSize(P.TablesOf(to, few) - pde.Keys, P.TablesOf(to, many) - pde.Keys);
  }

  lemma TablesOfOne(to: nat, few: set<nat>, p: nat)
    ensures P.TablesOf(to, few + {p}) == P.TablesOf(to, few) + {P.DirKeyOf(P.Key(to, p))}
  {
    TablesOfBoth(to, few, {p});
    assert P.TablesOf(to, {p}) == {P.DirKeyOf(P.Key(to, p))};
  }

  /** A page more costs a frame, and one more if it needs a page table. */
  lemma PriceOfPage(pde: map<P.DirKey, nat>, to: nat, few: set<nat>, p: nat)
    requires p !in few
    ensures P.PagesCost(pde, to, few + {p}) ==
      P.PagesCost(pde, to, few) + if P.DirKeyOf(P.Key(to, p)) in pde.Keys + P.TablesOf(to, few) then 1 else 2
  {
    TablesOfOne(to, few, p);
    P.OneMore(P.TablesOf(to, few), pde.Keys, P.DirKeyOf(P.Key(to, p)));
  }

  // ---------- where the memory runs out ----------

  /** dup_mmap comes to page p of area i, which does not fit: the free frames are enough for all pages copied
      sooner and not for this one. */
  ghost predicate RunsOutAt<C>(was: P.Before<C>, to: nat, from: nat, vmas: seq<V.Vma>, memory: nat, i: nat, p: nat)
    requires AllWhole(vmas)
  {
    && i < |vmas| && |vmas| - i <= memory && FirstPage(vmas[i]) <= p < EndPage(vmas[i])
    && P.At(was.flat, P.Key(from, p)).Map?
    && var sooner := Sooner(was.flat, from, vmas, i, p);
       P.PagesCost(was.pde, to, sooner) <= |was.free| < P.PagesCost(was.pde, to, sooner + {p})
  }

  /** There is no frame for the page table of page p, when none of the pages copied sooner shares it. */
  ghost predicate ForTable<C>(was: P.Before<C>, to: nat, from: nat, vmas: seq<V.Vma>, i: nat, p: nat)
    requires i < |vmas| && WholePages(vmas[i])
  {
    var sooner := Sooner(was.flat, from, vmas, i, p);
    && P.DirKeyOf(P.Key(to, p)) !in was.pde.Keys + P.TablesOf(to, sooner)
    && |was.free| == P.PagesCost(was.pde, to, sooner)
  }

  /** vma_create gets no memory for an area, and all the later areas fit. */
  ghost predicate OutOfAreas<C>(was: P.Before<C>, to: nat, from: nat, vmas: seq<V.Vma>, memory: nat) {
    exists k: nat :: k > 0 && k + memory == |vmas| && FitFrom(was, to, from, vmas, k)
  }

  /** There are frames for the areas from number k on. */
  ghost predicate FitFrom<C>(was: P.Before<C>, to: nat, from: nat, vmas: seq<V.Vma>, k: nat) {
    DupCost(was.flat, was.pde, to, from, vmas, k) <= |was.free|
  }

  ghost predicate LacksTable<C>(was: P.Before<C>, to: nat, from: nat, vmas: seq<V.Vma>, memory: nat)
    requires AllWhole(vmas)
  {
    exists i: nat, p: nat :: RunsOutAt(was, to, from, vmas, memory, i, p) && ForTable(was, to, from, vmas, i, p)
  }

  /** There is a page table for page p, of an earlier page or the last free frame, and no frame for the page. */
  ghost predicate LacksPage<C>(was: P.Before<C>, to: nat, from: nat, vmas: seq<V.Vma>, memory: nat)
    requires AllWhole(vmas)
  {
    exists i: nat, p: nat :: RunsOutAt(was, to, from, vmas, memory, i, p) && !ForTable(was, to, from, vmas, i, p)
  }

  /** Pages do not fit if memory runs out at one of them that comes last. */
  lemma DoNotFit<C>(was: P.Before<C>, to: nat, from: nat, vmas: seq<V.Vma>, memory: nat, i: nat, p: nat,
                    pages: set<nat>)
    requires AllWhole(vmas) && RunsOutAt(was, to, from, vmas, memory, i, p)
    requires Sooner(was.flat, from, vmas, i, p) + {p} <= pages
    ensures P.PagesCost(was.pde, to, pages) > |was.free|
  {
    CostGrows(was.pde, to, Sooner(was.flat, from, vmas, i, p) + {p}, pages);
  }

  lemma SoonerInAreas(flat: map<P.Key, P.Entry>, from: nat, vmas: seq<V.Vma>, i: nat, p: nat, k: nat)
    requires AllWhole(vmas) && V.Sorted(vmas) && i < |vmas| && k <= i
    requires FirstPage(vmas[i]) <= p < EndPage(vmas[i]) && P.At(flat, P.Key(from, p)).Map?
    ensures Sooner(flat, from, vmas, i, p) + {p} <= DupPages(flat, from, vmas, k)
  {
    forall q: nat | q in Sooner(flat, from, vmas, i, p) || q == p
      ensures q in DupPages(flat, from, vmas, k)
    {
      InSooner(flat, from, vmas, i, p, q);
      PageIn(vmas, i, q);
      InFewer(vmas, k, i, q);
      InDupPages(flat, from, vmas, k, q);
    }
  }

  lemma InFewer(vmas: seq<V.Vma>, k: nat, i: nat, q: nat)
    requires k <= i
    ensures InAreas(vmas, i, q) ==> InAreas(vmas, k, q)
  {
  }

  lemma SoonerInSooner(flat: map<P.Key, P.Entry>, from: nat, vmas: seq<V.Vma>, i: nat, p: nat, j: nat, q: nat)
    requires AllWhole(vmas) && V.Sorted(vmas) && i < |vmas| && (j < i || (j == i && p < q))
    requires FirstPage(vmas[i]) <= p < EndPage(vmas[i]) && P.At(flat, P.Key(from, p)).Map?
    ensures Sooner(flat, from, vmas, i, p) + {p} <= Sooner(flat, from, vmas, j, q)
  {
    if j < i {
      SoonerInAreas(flat, from, vmas, i, p, j + 1);
    } else {
      forall x: nat | x in Sooner(flat, from, vmas, i, p) || x == p
        ensures x in Sooner(flat, from, vmas, j, q)
      {
        InSooner(flat, from, vmas, i, p, x);
        InSooner(flat, from, vmas, j, q, x);
      }
    }
  }

  /** The areas do not fit from number k on if memory runs out in one of them, */
  lemma AreasDoNotFit<C>(was: P.Before<C>, to: nat, from: nat, vmas: seq<V.Vma>, memory: nat, i: nat, p: nat, k: nat)
    requires AllWhole(vmas) && V.Sorted(vmas) && RunsOutAt(was, to, from, vmas, memory, i, p) && k <= i
    ensures !FitFrom(was, to, from, vmas, k)
  {
    SoonerInAreas(was.flat, from, vmas, i, p, k);
    DoNotFit(was, to, from, vmas, memory, i, p, DupPages(was.flat, from, vmas, k));
  }

  /** and it runs out at one page only. */
  lemma RunsOutOnce<C>(was: P.Before<C>, to: nat, from: nat, vmas: seq<V.Vma>, memory: nat, i: nat, p: nat, j: nat,
                       q: nat)
    requires AllWhole(vmas) && V.Sorted(vmas)
    requires RunsOutAt(was, to, from, vmas, memory, i, p) && RunsOutAt(was, to, from, vmas, memory, j, q)
    ensures i == j && p == q
  {
    if j < i || (j == i && p < q) {
      SoonerInSooner(was.flat, from, vmas, i, p, j, q);
      DoNotFit(was, to, from, vmas, memory, i, p, Sooner(was.flat, from, vmas, j, q));
    } else if i < j || (i == j && q < p) {
      SoonerInSooner(was.flat, from, vmas, j, q, i, p);
      DoNotFit(was, to, from, vmas, memory, j, q, Sooner(was.flat, from, vmas, i, p));
    }
  }

  /** dup_mmap ends in one way only. */
  lemma OutAtIsNotFit<C>(was: P.Before<C>, to: nat, from: nat, vmas: seq<V.Vma>, memory: nat, i: nat, p: nat)
    requires AllWhole(vmas) && V.Sorted(vmas) && RunsOutAt(was, to, from, vmas, memory, i, p)
    ensures !FitFrom(was, to, from, vmas, 0) && !OutOfAreas(was, to, from, vmas, memory)
  {
    AreasDoNotFit(was, to, from, vmas, memory, i, p, 0);
    forall k: nat | k > 0 && k + memory == |vmas|
      ensures !FitFrom(was, to, from, vmas, k)
    {
      AreasDoNotFit(was, to, from, vmas, memory, i, p, k);
    }
  }

  lemma ShortIsNotFit<C>(was: P.Before<C>, to: nat, from: nat, vmas: seq<V.Vma>, memory: nat)
    requires AllWhole(vmas) && V.Sorted(vmas)
    requires LacksTable(was, to, from, vmas, memory) || LacksPage(was, to, from, vmas, memory)
    ensures !FitFrom(was, to, from, vmas, 0) && !OutOfAreas(was, to, from, vmas, memory)
  {
    var i: nat, p: nat :| RunsOutAt(was, to, from, vmas, memory, i, p);
    OutAtIsNotFit(was, to, from, vmas, memory, i, p);
  }

  lemma TableOrPage<C>(was: P.Before<C>, to: nat, from: nat, vmas: seq<V.Vma>, memory: nat, i: nat, p: nat)
    requires AllWhole(vmas) && V.Sorted(vmas) && RunsOutAt(was, to, from, vmas, memory, i, p)
    ensures LacksTable(was, to, from, vmas, memory) <==> ForTable(was, to, from, vmas, i, p)
    ensures LacksPage(was, to, from, vmas, memory) <==> !ForTable(was, to, from, vmas, i, p)
  {
    forall j: nat, q: nat {:trigger RunsOutAt(was, to, from, vmas, memory, j, q)} |
      RunsOutAt(was, to, from, vmas, memory, j, q)
      ensures j == i && q == p
    {
      RunsOutOnce(was, to, from, vmas, memory, i, p, j, q);
    }
  }

  lemma DupCostGrows(flat: map<P.Key, P.Entry>, pde: map<P.DirKey, nat>, to: nat, from: nat, vmas: seq<V.Vma>, i: nat)
    ensures DupCost(flat, pde, to, from, vmas, i) <= DupCost(flat, pde, to, from, vmas, 0)
  {
    assert DupPages(flat, from, vmas, i) <= DupPages(flat, from, vmas, 0);
    SubsetSize(DupPages(flat, from, vmas, i), DupPages(flat, from, vmas, 0));
    SubsetSize(DupTables(flat, to, from, vmas, i) - pde.Keys, DupTables(flat, to, from, vmas, 0) - pde.Keys);
  }

  /** The areas from number i on have been paid for. */
  ghost predicate DupPaid<C>(was: P.Before<C>, to: nat, from: nat, vmas: seq<V.Vma>, i: nat, pde: map<P.DirKey, nat>,
                             free: set<nat>) {
    Empty(was.flat, to) ==>
      && pde.Keys == was.pde.Keys + DupTables(was.flat, to, from, vmas, i)
      && |free| + DupCost(was.flat, was.pde, to, from, vmas, i) == |was.free|
  }

  lemma NothingToPay<C>(was: P.Before<C>, to: nat, from: nat, vmas: seq<V.Vma>)
    ensures DupPaid(was, to, from, vmas, |vmas|, was.pde, was.free)
  {
    assert DupPages(was.flat, from, vmas, |vmas|) == {};
    assert DupTables(was.flat, to, from, vmas, |vmas|) == {};
  }

  /** Before area i is copied the parent's pages are those of the start, and the child has none there. */
  lemma AreaAsBefore<C(!new)>(was: P.Before<C>, to: nat, from: nat, vmas: seq<V.Vma>, i: nat,
                              flat1: map<P.Key, P.Entry>, data1: seq<C>)
    requires i < |vmas| && WholePages(vmas[i]) && V.Sorted(vmas) && to != from
    requires Dupped(was.flat, was.data, flat1, data1, to, from, vmas, i + 1)
    ensures SameSpace(was.flat, flat1, from)
    ensures Empty(was.flat, to) ==> P.NonePresent(flat1, to, FirstPage(vmas[i]), EndPage(vmas[i]))
  {
    forall p: nat
      ensures P.At(flat1, P.Key(from, p)) == P.At(was.flat, P.Key(from, p))
      ensures Empty(was.flat, to) && FirstPage(vmas[i]) <= p < EndPage(vmas[i]) ==> !P.At(flat1, P.Key(to, p)).Map?
    {
      PageIn(vmas, i, p);
      assert DupAt(was.flat, was.data, flat1, data1, to, from, vmas, i + 1, P.Key(from, p));
      assert DupAt(was.flat, was.data, flat1, data1, to, from, vmas, i + 1, P.Key(to, p));
    }
  }

  lemma DupPaidNext<C(!new)>(was: P.Before<C>, to: nat, from: nat, vmas: seq<V.Vma>, i: nat, flat1: map<P.Key, P.Entry>,
                             pde1: map<P.DirKey, nat>, free1: set<nat>, pde: map<P.DirKey, nat>, free: set<nat>)
    requires i < |vmas| && WholePages(vmas[i]) && V.Sorted(vmas)
    requires SameSpace(was.flat, flat1, from)
    requires DupPaid(was, to, from, vmas, i + 1, pde1, free1)
    requires Empty(was.flat, to) ==>
      P.Paid(flat1, pde1, free1, to, from, FirstPage(vmas[i]), EndPage(vmas[i]), pde, free)
    ensures DupPaid(was, to, from, vmas, i, pde, free)
  {
    if Empty(was.flat, to) {
      DupCostNext(was.flat, flat1, was.pde, pde1, to, from, vmas, i);
      var start, end := FirstPage(vmas[i]), EndPage(vmas[i]);
      PaidTogether(was.pde.Keys, DupTables(was.flat, to, from, vmas, i + 1),
                   P.TablesFor(flat1, to, from, start, end), pde1.Keys, pde.Keys);
    }
  }

  lemma PaidTogether<T>(have: set<T>, later: set<T>, now: set<T>, pde1: set<T>, pde: set<T>)
    requires pde1 == have + later && pde == pde1 + now
    ensures pde == have + (later + now)
  {
  }

  lemma DupTooDear<C(!new)>(was: P.Before<C>, to: nat, from: nat, vmas: seq<V.Vma>, i: nat, flat1: map<P.Key, P.Entry>,
                            pde1: map<P.DirKey, nat>, free1: set<nat>)
    requires i < |vmas| && WholePages(vmas[i]) && V.Sorted(vmas)
    requires SameSpace(was.flat, flat1, from)
    requires DupPaid(was, to, from, vmas, i + 1, pde1, free1) && Empty(was.flat, to)
    requires |free1| < P.Cost(flat1, pde1, to, from, FirstPage(vmas[i]), EndPage(vmas[i]))
    ensures |was.free| < DupCost(was.flat, was.pde, to, from, vmas, 0)
  {
    DupCostNext(was.flat, flat1, was.pde, pde1, to, from, vmas, i);
    DupCostGrows(was.flat, was.pde, to, from, vmas, i);
  }

  /** Counting from the start, what was taken and which tables there are when copy_range comes to page p. */
  lemma SoonerPaid<C(!new)>(was: P.Before<C>, to: nat, from: nat, vmas: seq<V.Vma>, i: nat, now: P.Before<C>, p: nat)
    requires i < |vmas| && AllWhole(vmas) && V.Sorted(vmas) && SameSpace(was.flat, now.flat, from)
    requires DupPaid(was, to, from, vmas, i + 1, now.pde, now.free) && Empty(was.flat, to) && p <= EndPage(vmas[i])
    ensures
      var start, sooner := FirstPage(vmas[i]), Sooner(was.flat, from, vmas, i, p);
      && was.pde.Keys + P.TablesOf(to, sooner) == now.pde.Keys + P.TablesFor(now.flat, to, from, start, p)
      && P.PagesCost(was.pde, to, sooner) - |was.free| == P.CostOf(now, to, from, start, p) - |now.free|
  {
    SoonerCost(was.flat, now.flat, was.pde, now.pde, to, from, vmas, i, p);
    var now1 := P.TablesFor(now.flat, to, from, FirstPage(vmas[i]), p);
    PaidTogether(was.pde.Keys, DupTables(was.flat, to, from, vmas, i + 1), now1, now.pde.Keys, now.pde.Keys + now1);
  }

  /** Where copy_range is short for area i, dup_mmap is. */
  lemma DupShort<C(!new)>(was: P.Before<C>, to: nat, from: nat, vmas: seq<V.Vma>, i: nat, now: P.Before<C>, p: nat,
                          r: P.CopyResult)
    requires i < |vmas| && AllWhole(vmas) && V.Sorted(vmas) && SameSpace(was.flat, now.flat, from)
    requires DupPaid(was, to, from, vmas, i + 1, now.pde, now.free) && Empty(was.flat, to)
    requires FirstPage(vmas[i]) <= p < EndPage(vmas[i]) && P.ShortAt(now, to, from, FirstPage(vmas[i]), p, r)
    ensures RunsOutAt(was, to, from, vmas, |vmas| - i, i, p)
    ensures r == P.NoMemory <==> ForTable(was, to, from, vmas, i, p)
  {
    SoonerPaid(was, to, from, vmas, i, now, p);
    PageIn(vmas, i, p);
    InSooner(was.flat, from, vmas, i, p, p);
    PriceOfPage(was.pde, to, Sooner(was.flat, from, vmas, i, p), p);
    assert P.At(now.flat, P.Key(from, p)) == P.At(was.flat, P.Key(from, p));
  }

  // ---------- what the child holds ----------

  predicate Reaches(v: V.Vma, index: nat)
    requires WholePages(v)
  {
    P.Pdx(FirstPage(v)) <= index < P.Pdx(EndPage(v) + P.ENTRIES - 1)
  }

  /** One of the areas from number i on reaches page table number index. */
  ghost predicate Reached(vmas: seq<V.Vma>, i: nat, index: nat)
    requires AllWhole(vmas)
  {
    exists j :: i <= j < |vmas| && Reaches(vmas[j], index)
  }

  /** No table of anybody was replaced, new ones are the child's and reached by its areas, and if the
      child had no pages, what it holds now was free. */
  ghost predicate DupGrown<C>(was: P.Before<C>, to: nat, vmas: seq<V.Vma>, i: nat, flat: map<P.Key, P.Entry>,
                              pde: map<P.DirKey, nat>, free: set<nat>)
    requires AllWhole(vmas)
  {
    && (forall d :: d in was.pde ==> d in pde && pde[d] == was.pde[d])
    && (forall d :: d in pde && d !in was.pde ==> d.dir == to && Reached(vmas, i, d.index))
    && (Empty(was.flat, to) ==> P.SameFrames(was.flat, was.pde, was.free, to, flat, pde, free))
  }

  lemma DupGrownNext<C>(was: P.Before<C>, to: nat, vmas: seq<V.Vma>, i: nat, now: P.Before<C>,
                        flat: map<P.Key, P.Entry>, pde: map<P.DirKey, nat>, free: set<nat>)
    requires AllWhole(vmas) && i < |vmas| && DupGrown(was, to, vmas, i + 1, now.flat, now.pde, now.free)
    requires Empty(was.flat, to) ==> P.NonePresent(now.flat, to, FirstPage(vmas[i]), EndPage(vmas[i]))
    requires P.Grown(now, to, FirstPage(vmas[i]), EndPage(vmas[i]), flat, pde, free)
    ensures DupGrown(was, to, vmas, i, flat, pde, free)
  {
    forall d | d in pde && d !in was.pde
      ensures d.dir == to && Reached(vmas, i, d.index)
    {
      if d in now.pde {
        var j :| i + 1 <= j < |vmas| && Reaches(vmas[j], d.index);
        assert i <= j < |vmas| && Reaches(vmas[j], d.index);
      } else {
        assert Reaches(vmas[i], d.index);
      }
    }
    if Empty(was.flat, to) {
      forall f: nat
        ensures f in free || P.HeldBy(flat, pde, to, f) <==> f in was.free || P.HeldBy(was.flat, was.pde, to, f)
      {
        assert f in now.free || P.HeldBy(now.flat, now.pde, to, f) <==>
          f in was.free || P.HeldBy(was.flat, was.pde, to, f);
      }
    }
  }

  // ---------- dup_mmap ----------

  /** The areas from number i on are copied. */
  ghost predicate DupProgress<C(!new)>(was: P.Before<C>, to: nat, from: nat, vmas: seq<V.Vma>, i: nat,
                                       flat: map<P.Key, P.Entry>, data: seq<C>, pde: map<P.DirKey, nat>, free: set<nat>)
    requires AllWhole(vmas)
  {
    && Dupped(was.flat, was.data, flat, data, to, from, vmas, i) && DupPaid(was, to, from, vmas, i, pde, free)
    && DupGrown(was, to, vmas, i, flat, pde, free)
  }

  /** The areas after number i are copied, and perhaps a part of that one. */
  ghost predicate DupPart<C(!new)>(was: P.Before<C>, to: nat, from: nat, vmas: seq<V.Vma>, i: nat,
                                   flat: map<P.Key, P.Entry>, data: seq<C>, pde: map<P.DirKey, nat>, free: set<nat>)
    requires AllWhole(vmas)
  {
    Part(was.flat, was.data, flat, data, to, from, vmas, i) && DupGrown(was, to, vmas, i, flat, pde, free)
  }

  /** copy_range for area i. */
  method CopyArea<C(!new)>(mmu: P.Mmu<C>, to: nat, from: nat, vmas: seq<V.Vma>, i: nat, ghost next: nat,
                           ghost was: P.Before<C>)
    returns (r: P.CopyResult, ghost p: nat)
    requires mmu.Valid() && to != from && V.Sorted(vmas) && AllWhole(vmas) && i < |vmas| && next == i + 1
    requires DupProgress(was, to, from, vmas, next, mmu.flat, mmu.data, mmu.pde, mmu.free)
    modifies mmu`pde, mmu`table, mmu`ref, mmu`free, mmu`data, mmu`flat
    ensures mmu.Valid()
    ensures r == P.Done ==> DupProgress(was, to, from, vmas, i, mmu.flat, mmu.data, mmu.pde, mmu.free)
    ensures r != P.Done ==> DupPart(was, to, from, vmas, i, mmu.flat, mmu.data, mmu.pde, mmu.free) && mmu.free == {}
    ensures r != P.Done && Empty(was.flat, to) ==> |was.free| < DupCost(was.flat, was.pde, to, from, vmas, 0)
    ensures r != P.Done ==> FirstPage(vmas[i]) <= p < EndPage(vmas[i]) && P.At(was.flat, P.Key(from, p)).Map?
    ensures r != P.Done ==> (r == P.NoMemory <==> P.DirKeyOf(P.Key(to, p)) !in mmu.pde)
    ensures r != P.Done && Empty(was.flat, to) ==>
      && RunsOutAt(was, to, from, vmas, |vmas| - i, i, p)
      && (r == P.NoMemory <==> ForTable(was, to, from, vmas, i, p))
  {
    ghost var now := P.Before(mmu.flat, mmu.data, mmu.pde, mmu.free);
    AreaAsBefore(was, to, from, vmas, i, now.flat, now.data);
    r, p := mmu.CopyRange(to, from, FirstPage(vmas[i]), EndPage(vmas[i]));
    DupGrownNext(was, to, vmas, i, now, mmu.flat, mmu.pde, mmu.free);
    if r == P.Done {
      DupNext(was.flat, was.data, now.flat, now.data, mmu.flat, mmu.data, to, from, vmas, i);
      DupPaidNext(was, to, from, vmas, i, now.flat, now.pde, now.free, mmu.pde, mmu.free);
    } else {
      PartNext(was.flat, was.data, now.flat, now.data, mmu.flat, mmu.data, to, from, vmas, i, p);
      if Empty(was.flat, to) {
        DupTooDear(was, to, from, vmas, i, now.flat, now.pde, now.free);
        DupShort(was, to, from, vmas, i, now, p, r);
      }
    }
  }

  /** NoMemory: -E_NO_MEM. Stopped: the assertion in copy_range that alloc_page gave a page. */
  datatype Result = Done | NoMemory | Stopped

  /** Each end of dup_mmap into a child without pages comes exactly when it should. */
  ghost predicate Ends<C>(was: P.Before<C>, to: nat, from: nat, vmas: seq<V.Vma>, memory: nat, r: Result)
    requires AllWhole(vmas)
  {
    Empty(was.flat, to) ==>
      && (r == Done <==> |vmas| <= memory && FitFrom(was, to, from, vmas, 0))
      && (r == NoMemory <==> OutOfAreas(was, to, from, vmas, memory) || LacksTable(was, to, from, vmas, memory))
      && (r == Stopped <==> LacksPage(was, to, from, vmas, memory))
  }

  lemma EndsDone<C>(was: P.Before<C>, to: nat, from: nat, vmas: seq<V.Vma>, memory: nat, pde: map<P.DirKey, nat>,
                    free: set<nat>)
    requires AllWhole(vmas) && V.Sorted(vmas) && |vmas| <= memory && DupPaid(was, to, from, vmas, 0, pde, free)
    ensures Ends(was, to, from, vmas, memory, Done)
  {
    if LacksTable(was, to, from, vmas, memory) || LacksPage(was, to, from, vmas, memory) {
      ShortIsNotFit(was, to, from, vmas, memory);
    }
  }

  lemma EndsOutOfAreas<C>(was: P.Before<C>, to: nat, from: nat, vmas: seq<V.Vma>, memory: nat, k: nat,
                          pde: map<P.DirKey, nat>, free: set<nat>)
    requires AllWhole(vmas) && V.Sorted(vmas) && DupPaid(was, to, from, vmas, k, pde, free)
    requires k > 0 && k + memory == |vmas|
    ensures Ends(was, to, from, vmas, memory, NoMemory)
  {
    if Empty(was.flat, to) {
      assert FitFrom(was, to, from, vmas, k);
    }
    if LacksTable(was, to, from, vmas, memory) || LacksPage(was, to, from, vmas, memory) {
      ShortIsNotFit(was, to, from, vmas, memory);
    }
  }

  lemma EndsShort<C>(was: P.Before<C>, to: nat, from: nat, vmas: seq<V.Vma>, memory: nat, i: nat, p: nat, r: Result)
    requires AllWhole(vmas) && V.Sorted(vmas) && i < |vmas| && |vmas| - i <= memory && r != Done
    requires Empty(was.flat, to) ==>
      RunsOutAt(was, to, from, vmas, |vmas| - i, i, p) && (r == NoMemory <==> ForTable(was, to, from, vmas, i, p))
    ensures Ends(was, to, from, vmas, memory, r)
  {
    if Empty(was.flat, to) {
      assert RunsOutAt(was, to, from, vmas, memory, i, p);
      OutAtIsNotFit(was, to, from, vmas, memory, i, p);
      TableOrPage(was, to, from, vmas, memory, i, p);
    }
  }

  /** dup_mmap from an address space into a new one; vmas says for how many areas vma_create
      gets memory. The child has the parent's areas, and fresh copies of their present pages; without
      enough memory, the later areas and a part of the pages. */
  method DupMmap<C(!new)>(to: V.Mm, from: V.Mm, mmu: P.Mmu<C>, toDir: nat, fromDir: nat, vmas: nat)
    returns (r: Result, ghost left: nat, ghost stop: Option<nat>)
    requires to.Valid() && from.Valid() && to != from && to.vmas == [] && mmu.Valid() && toDir != fromDir
    requires AllWhole(from.vmas)
    modifies to`vmas, to`mapCount, mmu`pde, mmu`table, mmu`ref, mmu`free, mmu`data, mmu`flat
    ensures to.Valid() && mmu.Valid() && left <= |from.vmas| && to.vmas == from.vmas[left..]
    ensures r != Done && stop.None? ==> r == NoMemory && |from.vmas| - left == vmas < |from.vmas|
    ensures r != Done && stop.Some? ==>
      && left < |from.vmas| && FirstPage(from.vmas[left]) <= stop.value < EndPage(from.vmas[left])
      && mmu.free == {} && P.At(old(mmu.flat), P.Key(fromDir, stop.value)).Map?
      && (r == NoMemory <==> P.DirKeyOf(P.Key(toDir, stop.value)) !in mmu.pde)
    ensures r == Done ==>
      left == 0 && Dupped(old(mmu.flat), old(mmu.data), mmu.flat, mmu.data, toDir, fromDir, from.vmas, 0)
    ensures r != Done ==>
      DupPart(P.Before(old(mmu.flat), old(mmu.data), old(mmu.pde), old(mmu.free)), toDir, fromDir, from.vmas, left,
              mmu.flat, mmu.data, mmu.pde, mmu.free)
    ensures r == Done ==> |from.vmas| <= vmas
    ensures Empty(old(mmu.flat), toDir) ==>
      (r == Done <==>
        && |from.vmas| <= vmas
        && |old(mmu.free)| >= DupCost(old(mmu.flat), old(mmu.pde), toDir, fromDir, from.vmas, 0))
    ensures
      Ends(P.Before(old(mmu.flat), old(mmu.data), old(mmu.pde), old(mmu.free)), toDir, fromDir, from.vmas, vmas, r)
  {
    ghost var was := P.Before(mmu.flat, mmu.data, mmu.pde, mmu.free);
    var i := |from.vmas|;
    NothingDupped(mmu.ref, mmu.free, mmu.table.Keys, mmu.flat, mmu.data, toDir, fromDir, from.vmas);
    NothingToPay(was, toDir, fromDir, from.vmas);
    while i > 0
      invariant 0 <= i <= |from.vmas| && |from.vmas| - i <= vmas
      invariant to.Valid() && to.vmas == from.vmas[i..] && mmu.Valid()
      invariant DupProgress(was, toDir, fromDir, from.vmas, i, mmu.flat, mmu.data, mmu.pde, mmu.free)
    {
      ghost var next := i;
      i := i - 1;
      var ok := to.DupVma(from, i, |from.vmas| - i <= vmas);
      if !ok {
        DuppedIsPart(was.flat, was.data, mmu.flat, mmu.data, toDir, fromDir, from.vmas, next);
        EndsOutOfAreas(was, toDir, fromDir, from.vmas, vmas, next, mmu.pde, mmu.free);
        return NoMemory, next, None;
      }
      var copied;
      ghost var p;
      copied, p := CopyArea(mmu, toDir, fromDir, from.vmas, i, next, was);
      if copied != P.Done {
        r := if copied == P.NoMemory then NoMemory else Stopped;
        EndsShort(was, toDir, fromDir, from.vmas, vmas, i, p, r);
        return r, i, Some(p);
      }
    }
    EndsDone(was, toDir, fromDir, from.vmas, vmas, mmu.pde, mmu.free);
    r, left, stop := Done, 0, None;
  }

  // ---------- copy_mm ----------

  /** Every page is mapped as before and holds what it held. */
  ghost predicate AllKept<C(!new)>(flat0: map<P.Key, P.Entry>, data0: seq<C>, flat: map<P.Key, P.Entry>, data: seq<C>) {
    forall k {:trigger P.KeptAt(flat0, data0, flat, data, k)} :: P.KeptAt(flat0, data0, flat, data, k)
  }

  function Extents(vmas: seq<V.Vma>): (es: seq<P.Extent>)
    requires AllWhole(vmas)
    ensures |es| == |vmas| && forall i :: 0 <= i < |vmas| ==> es[i] == P.Extent(FirstPage(vmas[i]), EndPage(vmas[i]))
  {
    seq(|vmas|, i requires 0 <= i < |vmas| => P.Extent(FirstPage(vmas[i]), EndPage(vmas[i])))
  }

  /** The page directory of address space dir is new. */
  ghost predicate NoTables(pde: map<P.DirKey, nat>, dir: nat) {
    forall d :: d in pde ==> d.dir != dir
  }

  lemma NoTablesNoPages(pde: map<P.DirKey, nat>, table: map<nat, seq<P.Entry>>, flat: map<P.Key, P.Entry>, dir: nat)
    requires P.Refines(pde, table, flat) && NoTables(pde, dir)
    ensures (forall k :: k in flat ==> k.dir != dir) && Empty(flat, dir)
  {
    forall k | k in flat
      ensures k.dir != dir
    {
      assert P.Walk(pde, table, k) == P.At(flat, k);
    }
  }

  /** A present page of the child is the only user of its frame and lies in one of its areas. */
  lemma ChildPage<C(!new)>(was: P.Before<C>, to: nat, from: nat, vmas: seq<V.Vma>, i: nat, flat: map<P.Key, P.Entry>,
                           data: seq<C>, k: P.Key)
    requires AllWhole(vmas) && i <= |vmas| && Part(was.flat, was.data, flat, data, to, from, vmas, i)
    requires Empty(was.flat, to) && k in flat && k.dir == to && flat[k].Map?
    ensures P.Users(flat, flat[k].frame) == {k}
    ensures P.InVmas(k, to, Extents(vmas[i..]), |vmas| - i)
  {
    assert PartAt(was.flat, was.data, flat, data, to, from, vmas, i, k);
    assert k == P.Key(to, k.page) && !P.At(was.flat, P.Key(to, k.page)).Map?;
    var j :| i <= j < |vmas| && vmas[j].start <= k.page * PGSIZE < vmas[j].end;
    var es := Extents(vmas[i..]);
    assert vmas[i..][j - i] == vmas[j] && es[j - i] == P.Extent(FirstPage(vmas[j]), EndPage(vmas[j]));
    assert P.InVma(k, to, es[j - i]);
  }

  /** What exit_mmap needs of the child. */
  lemma ChildIsTidy<C(!new)>(was: P.Before<C>, to: nat, from: nat, vmas: seq<V.Vma>, i: nat, flat: map<P.Key, P.Entry>,
                             data: seq<C>)
    requires AllWhole(vmas) && i <= |vmas| && Part(was.flat, was.data, flat, data, to, from, vmas, i)
    requires Empty(was.flat, to)
    ensures P.Tidy(flat, to, Extents(vmas[i..]))
    ensures forall j :: 0 <= j < |vmas| - i ==> P.VmaOk(Extents(vmas[i..])[j])
  {
    var es := Extents(vmas[i..]);
    forall k | k in flat && flat[k].Map? && P.Owned(P.DirKeyOf(k), to, es, |es|)
      ensures P.InVmas(k, to, es, |es|)
    {
      ChildPage(was, to, from, vmas, i, flat, data, k);
    }
    forall j | 0 <= j < |es|
      ensures P.VmaOk(es[j])
    {
      assert vmas[i..][j] == vmas[i + j] && WholePages(vmas[i + j]);
    }
  }

  /** The areas of the child reach all its page tables. */
  lemma ChildTables<C(!new)>(was: P.Before<C>, to: nat, vmas: seq<V.Vma>, i: nat, flat: map<P.Key, P.Entry>,
                             pde: map<P.DirKey, nat>, free: set<nat>)
    requires AllWhole(vmas) && i <= |vmas| && NoTables(was.pde, to) && DupGrown(was, to, vmas, i, flat, pde, free)
    ensures forall d :: d in pde && d.dir == to ==> P.Owned(d, to, Extents(vmas[i..]), |vmas| - i)
  {
    var es := Extents(vmas[i..]);
    forall d | d in pde && d.dir == to
      ensures P.Owned(d, to, es, |es|)
    {
      var j :| i <= j < |vmas| && Reaches(vmas[j], d.index);
      assert vmas[i..][j - i] == vmas[j] && P.HasTable(d, to, es[j - i]);
    }
  }

  /** Once the child is gone, everything is as before the fork. */
  lemma AsBefore<C(!new)>(was: P.Before<C>, to: nat, from: nat, vmas: seq<V.Vma>, i: nat, flat1: map<P.Key, P.Entry>,
                          data1: seq<C>, pde1: map<P.DirKey, nat>, free1: set<nat>, flat: map<P.Key, P.Entry>,
                          pde: map<P.DirKey, nat>, free: set<nat>)
    requires AllWhole(vmas) && i <= |vmas| && DupPart(was, to, from, vmas, i, flat1, data1, pde1, free1)
    requires NoTables(was.pde, to) && Empty(was.flat, to)
    requires forall k :: k in was.flat ==> k.dir != to && !was.flat[k].Zero?
    requires forall k :: k in flat1 ==> !flat1[k].Zero?
    requires P.Gone(pde1, flat1, free1, to, pde, flat, free)
    ensures flat == was.flat && pde == was.pde && free == was.free
  {
    forall k
      ensures k in flat <==> k in was.flat
      ensures k in flat ==> flat[k] == was.flat[k]
    {
      assert PartAt(was.flat, was.data, flat1, data1, to, from, vmas, i, k);
    }
    forall f: nat
      ensures f in free <==> f in was.free
    {
      assert f in free1 || P.HeldBy(flat1, pde1, to, f) <==> f in was.free || P.HeldBy(was.flat, was.pde, to, f);
      if k :| k in P.Users(flat1, f) && k.dir == to {
        ChildPage(was, to, from, vmas, i, flat1, data1, k);
      }
    }
  }

  /** copy_mm for a page directory that is new: when dup_mmap gets no memory, exit_mmap of what the
      child got gives everything back, and no page of anybody else has changed. */
  method CopyMm<C(!new)>(to: V.Mm, from: V.Mm, mmu: P.Mmu<C>, toDir: nat, fromDir: nat, vmas: nat)
    returns (r: Result)
    requires to.Valid() && from.Valid() && to != from && to.vmas == [] && mmu.Valid() && toDir != fromDir
    requires AllWhole(from.vmas) && NoTables(mmu.pde, toDir)
    modifies to`vmas, to`mapCount, mmu`pde, mmu`table, mmu`ref, mmu`free, mmu`data, mmu`flat
    ensures mmu.Valid()
    ensures r == Done <==>
      && |from.vmas| <= vmas
      && |old(mmu.free)| >= DupCost(old(mmu.flat), old(mmu.pde), toDir, fromDir, from.vmas, 0)
    ensures r == Done ==>
      && to.vmas == from.vmas
      && Dupped(old(mmu.flat), old(mmu.data), mmu.flat, mmu.data, toDir, fromDir, from.vmas, 0)
    ensures
      Ends(P.Before(old(mmu.flat), old(mmu.data), old(mmu.pde), old(mmu.free)), toDir, fromDir, from.vmas, vmas, r)
    ensures r == NoMemory ==> mmu.flat == old(mmu.flat) && mmu.pde == old(mmu.pde) && mmu.free == old(mmu.free)
    ensures r == NoMemory ==> AllKept(old(mmu.flat), old(mmu.data), mmu.flat, mmu.data)
  {
    ghost var was := P.Before(mmu.flat, mmu.data, mmu.pde, mmu.free);
    NoTablesNoPages(mmu.pde, mmu.table, mmu.flat, toDir);
    ghost var left, stop;
    r, left, stop := DupMmap(to, from, mmu, toDir, fromDir, vmas);
    if r == NoMemory {
      ExitChild(mmu, toDir, fromDir, from.vmas, left, to.vmas, was);
    }
  }

  /** exit_mmap of the child. */
  method ExitChild<C(!new)>(mmu: P.Mmu<C>, to: nat, from: nat, ghost vmas: seq<V.Vma>, ghost i: nat, own: seq<V.Vma>,
                            ghost was: P.Before<C>)
    requires mmu.Valid() && AllWhole(vmas) && i <= |vmas| && own == vmas[i..]
    requires DupPart(was, to, from, vmas, i, mmu.flat, mmu.data, mmu.pde, mmu.free)
    requires NoTables(was.pde, to) && Empty(was.flat, to)
    requires forall k :: k in was.flat ==> k.dir != to && !was.flat[k].Zero?
    modifies mmu`pde, mmu`table, mmu`ref, mmu`free, mmu`flat
    ensures mmu.Valid() && mmu.flat == was.flat && mmu.pde == was.pde && mmu.free == was.free
    ensures AllKept(was.flat, was.data, mmu.flat, mmu.data)
  {
    ghost var now, table := P.Before(mmu.flat, mmu.data, mmu.pde, mmu.free), mmu.table;
    ChildIsTidy(was, to, from, vmas, i, mmu.flat, mmu.data);
    ChildTables(was, to, vmas, i, mmu.flat, mmu.pde, mmu.free);
    mmu.ExitMmap(to, Extents(own));
    P.GoneExactly(now.pde, table, now.flat, now.free, to, Extents(own), mmu.pde, mmu.flat, mmu.free);
    AsBefore(was, to, from, vmas, i, now.flat, now.data, now.pde, now.free, mmu.flat, mmu.pde, mmu.free);
    forall k
      ensures P.KeptAt(was.flat, was.data, mmu.flat, mmu.data, k)
    {
      assert PartAt(was.flat, was.data, now.flat, now.data, to, from, vmas, i, k);
    }
  }
}
