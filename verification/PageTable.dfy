/** Two-level page tables with reference counts (pmm.c), for any number of address
    spaces. Only the user half of a page directory is modelled; pages and frames are
    named by their numbers. A page number is 10 bits of directory index and 10 bits of
    table index, as in 32-bit paging (Intel SDM volume 3A, section 4.3). */
module PageTable {
  import opened Basics

  const ENTRIES: nat := 1024
  const USER_PAGES: nat := 0xB0000   // USERTOP / PGSIZE

  /** A page table entry. Kept is not present but not zero: a swap entry. */
  datatype Entry = Zero | Map(frame: nat, perm: nat) | Kept(slot: nat)

  datatype Key = Key(dir: nat, page: nat)

  function Pdx(v: nat): nat {
    v / 1024
  }

  function Ptx(v: nat): nat {
    v % 1024
  }

  /** The pages that map frame f. */
  ghost function Users(flat: map<Key, Entry>, f: nat): set<Key> {
    set k | k in flat && flat[k].Map? && flat[k].frame == f
  }

  ghost function At(flat: map<Key, Entry>, k: Key): Entry {
    if k in flat then flat[k] else Zero
  }

  ghost function Set(flat: map<Key, Entry>, k: Key, e: Entry): map<Key, Entry> {
    if e.Zero? then flat - {k} else flat[k := e]
  }

  /** What replacing one entry does to the pages that map f. */
  lemma SetUsers(flat: map<Key, Entry>, k: Key, e: Entry, f: nat)
    ensures
      Users(Set(flat, k, e), f) == (Users(flat, f) - {k}) + (if e.Map? && e.frame == f then {k} else {})
    ensures
      |Users(Set(flat, k, e), f)| == |Users(flat, f)|
        - (if At(flat, k).Map? && At(flat, k).frame == f then 1 else 0) + (if e.Map? && e.frame == f then 1 else 0)
  {
    var s, t := Users(flat, f), Users(Set(flat, k, e), f);
    SetUsersSet(flat, k, e, f);
    assert k in s <==> At(flat, k).Map? && At(flat, k).frame == f;
    assert |s - {k}| == |s| - if k in s then 1 else 0;
  }

  lemma SetUsersSet(flat: map<Key, Entry>, k: Key, e: Entry, f: nat)
    ensures Users(Set(flat, k, e), f) == (Users(flat, f) - {k}) + (if e.Map? && e.frame == f then {k} else {})
  {
  }

  datatype DirKey = DirKey(dir: nat, index: nat)

  /** Two pages have the same page table exactly when they are in one address space and in one aligned group
      of 1024, and the same place in a table exactly when they are a multiple of 1024 apart. */
  lemma TableOfPage(j: Key, k: Key)
    ensures DirKeyOf(j) == DirKeyOf(k) <==>
      j.dir == k.dir && exists g: nat :: 1024 * g <= j.page < 1024 * g + 1024 && 1024 * g <= k.page < 1024 * g + 1024
    ensures Ptx(j.page) == Ptx(k.page) <==> exists g: int :: j.page - k.page == 1024 * g
    ensures Ptx(j.page) < 1024
  {
    var g := j.page / 1024;
    assert 1024 * g <= j.page < 1024 * g + 1024;
    var h := g - k.page / 1024;
    assert Ptx(j.page) == Ptx(k.page) ==> j.page - k.page == 1024 * h;
  }

  function DirKeyOf(k: Key): DirKey {
    DirKey(k.dir, Pdx(k.page))
  }

  /** The walk that the processor and get_pte do. */
  function Walk(pde: map<DirKey, nat>, table: map<nat, seq<Entry>>, k: Key): Entry {
    if DirKeyOf(k) in pde && pde[DirKeyOf(k)] in table && |table[pde[DirKeyOf(k)]]| == ENTRIES
    then table[pde[DirKeyOf(k)]][Ptx(k.page)] else Zero
  }

  /** Each present directory entry has a page table of its own. */
  ghost predicate TablesOk(pde: map<DirKey, nat>, table: map<nat, seq<Entry>>) {
    && (forall d :: d in pde ==> pde[d] in table && |table[pde[d]]| == ENTRIES)
    && (forall d, e :: d in pde && e in pde && d != e ==> pde[d] != pde[e])
  }

  /** The tables spell out the flat map. */
  ghost predicate Refines(pde: map<DirKey, nat>, table: map<nat, seq<Entry>>, flat: map<Key, Entry>) {
    && (forall k {:trigger Walk(pde, table, k)} :: Walk(pde, table, k) == At(flat, k))
    && (forall k :: k in flat ==> !flat[k].Zero?)
  }

  /** Writing one entry in place changes one page of one address space. */
  lemma WriteRefines(pde: map<DirKey, nat>, table: map<nat, seq<Entry>>, flat: map<Key, Entry>, k: Key, e: Entry)
    requires TablesOk(pde, table) && Refines(pde, table, flat) && DirKeyOf(k) in pde
    ensures
      var t := pde[DirKeyOf(k)];
      var table' := table[t := table[t][Ptx(k.page) := e]];
      TablesOk(pde, table') && Refines(pde, table', Set(flat, k, e))
  {
    var t := pde[DirKeyOf(k)];
    var table' := table[t := table[t][Ptx(k.page) := e]];
    forall j
      ensures Walk(pde, table', j) == At(Set(flat, k, e), j)
    {
      assert Walk(pde, table, j) == At(flat, j);
      if j != k && DirKeyOf(j) == DirKeyOf(k) {
        assert Ptx(j.page) != Ptx(k.page);
      }
    }
  }

  /** A cleared page table in a free directory entry maps nothing new. */
  lemma NewTableRefines(pde: map<DirKey, nat>, table: map<nat, seq<Entry>>, flat: map<Key, Entry>, d: DirKey, f: nat)
    requires TablesOk(pde, table) && Refines(pde, table, flat) && d !in pde && f !in table
    ensures
      var pde', table' := pde[d := f], table[f := seq(ENTRIES, i => Zero)];
      TablesOk(pde', table') && Refines(pde', table', flat)
  {
    var pde', table' := pde[d := f], table[f := seq(ENTRIES, i => Zero)];
    forall j
      ensures Walk(pde', table', j) == At(flat, j)
    {
      assert Walk(pde, table, j) == At(flat, j);
    }
  }

  // ---------- frames ----------

  /** ref[f] is the number of present entries that name frame f. */
  ghost predicate CountOk(ref: seq<int>, flat: map<Key, Entry>, f: nat)
    requires f < |ref|
  {
    ref[f] == |Users(flat, f)|
  }

  /** ref counts the pages that map a frame; a page table counts as used once. */
  ghost predicate RefsOk(ref: seq<int>, free: set<nat>, tables: set<nat>, flat: map<Key, Entry>) {
    && (forall f :: f in free ==> f < |ref| && f !in tables && ref[f] == 0)
    && (forall f :: f in tables ==> f < |ref| && ref[f] == 1)
    && (forall k :: k in flat && flat[k].Map? ==> flat[k].frame < |ref| && flat[k].frame !in tables)
    && (forall f: nat {:trigger CountOk(ref, flat, f)} :: f < |ref| && f !in tables ==> CountOk(ref, flat, f))
  }

  /** A frame that some page maps has a positive count, so it is not free. */
  lemma MappedIsUsed(ref: seq<int>, free: set<nat>, tables: set<nat>, flat: map<Key, Entry>, k: Key)
    requires RefsOk(ref, free, tables, flat) && At(flat, k).Map?
    ensures flat[k].frame < |ref| && flat[k].frame !in tables && ref[flat[k].frame] > 0 && flat[k].frame !in free
  {
    assert k in Users(flat, flat[k].frame) && CountOk(ref, flat, flat[k].frame);
  }

  /** The counts after the entry of page k is replaced. */
  function Recount(ref: seq<int>, was: Entry, e: Entry): seq<int>
    requires (was.Map? ==> was.frame < |ref|) && (e.Map? ==> e.frame < |ref|)
  {
    var up := if e.Map? then ref[e.frame := ref[e.frame] + 1] else ref;
    if was.Map? then up[was.frame := up[was.frame] - 1] else up
  }

  /** The frames that are free after it. */
  function Refree(ref: seq<int>, free: set<nat>, was: Entry): set<nat>
    requires was.Map? ==> was.frame < |ref|
  {
    if was.Map? && ref[was.frame] == 0 then free + {was.frame} else free
  }

  lemma SetRefs(ref: seq<int>, free: set<nat>, tables: set<nat>, flat: map<Key, Entry>, k: Key, e: Entry)
    requires RefsOk(ref, free, tables, flat)
    requires e.Map? ==> e.frame < |ref| && e.frame !in free && e.frame !in tables
    ensures
      var was := At(flat, k);
      && (was.Map? ==> was.frame < |ref|)
      && var ref' := Recount(ref, was, e);
         RefsOk(ref', Refree(ref', free, was), tables, Set(flat, k, e))
  {
    var was := At(flat, k);
    if was.Map? {
      MappedIsUsed(ref, free, tables, flat, k);
    }
    var ref' := Recount(ref, was, e);
    forall f: nat | f < |ref| && f !in tables
      ensures CountOk(ref', Set(flat, k, e), f)
    {
      assert CountOk(ref, flat, f);
      SetCount(ref, flat, k, e, f);
    }
  }

  lemma SetCount(ref: seq<int>, flat: map<Key, Entry>, k: Key, e: Entry, f: nat)
    requires f < |ref| && CountOk(ref, flat, f)
    requires (At(flat, k).Map? ==> At(flat, k).frame < |ref|) && (e.Map? ==> e.frame < |ref|)
    ensures CountOk(Recount(ref, At(flat, k), e), Set(flat, k, e), f)
  {
    SetUsers(flat, k, e, f);
  }

  /** The frame that nobody maps any more once e replaces the entry of page k. */
  ghost function LosesLastUser(flat: map<Key, Entry>, k: Key, e: Entry): set<nat> {
    var was := At(flat, k);
    if was.Map? && !(e.Map? && e.frame == was.frame) && Users(flat, was.frame) == {k} then {was.frame} else {}
  }

  /** A frame is given up exactly when the replaced entry was the only one that mapped it. */
  lemma LastUser(ref: seq<int>, free: set<nat>, tables: set<nat>, flat: map<Key, Entry>, k: Key, e: Entry)
    requires RefsOk(ref, free, tables, flat)
    requires e.Map? ==> e.frame < |ref| && e.frame !in free && e.frame !in tables
    requires At(flat, k).Map?
    ensures
      var f := flat[k].frame;
      && f < |ref| && f !in free && f !in tables && ref[f] > 0
      && (Recount(ref, flat[k], e)[f] == 0 <==> Users(flat, f) == {k} && !(e.Map? && e.frame == f))
  {
    var f := flat[k].frame;
    MappedIsUsed(ref, free, tables, flat, k);
    var s := Users(flat, f);
    assert CountOk(ref, flat, f) && k in s && |s - {k}| == |s| - 1;
    if |s| == 1 {
      assert s - {k} == {};
    }
  }

  class Mmu<Contents(!new)> {
    var pde: map<DirKey, nat>          // present directory entries: the frame of the page table
    var table: map<nat, seq<Entry>>    // the page tables, by frame
    var ref: seq<int>                  // Page.ref, by frame
    var free: set<nat>
    var data: seq<Contents>            // what each frame holds
    ghost var flat: map<Key, Entry>    // what the tables say

    ghost predicate Valid()
      reads this
    {
      && TablesOk(pde, table) && Refines(pde, table, flat) && table.Keys == pde.Values
      && |data| == |ref| && RefsOk(ref, free, table.Keys, flat)
    }

    constructor (data: seq<Contents>, free: set<nat>)
      requires forall f :: f in free ==> f < |data|
      ensures Valid() && flat == map[] && pde == map[] && this.free == free && this.data == data
    {
      pde, table, flat := map[], map[], map[];
      this.data, this.free, ref := data, free, seq(|data|, i => 0);
    }

    /** alloc_page. */
    method AllocPage() returns (f: Option<nat>)
      requires Valid()
      modifies `free
      ensures Valid() && (f.None? <==> old(free) == {})
      ensures f.None? ==> free == old(free)
      ensures f.Some? ==> f.value in old(free) && free == old(free) - {f.value}
    {
      if |free| == 0 {
        return None;
      }
      var p :| p in free;
      free := free - {p};
      f := Some(p);
    }

    /** get_pte: whether there is an entry for k, made if create asks for it. */
    method GetPte(k: Key, create: bool) returns (ok: bool)
      requires Valid()
      modifies `free, `pde, `table, `ref
      ensures Valid() && ok == (DirKeyOf(k) in pde)
      ensures DirKeyOf(k) in old(pde) || !create || old(free) == {} ==>
        pde == old(pde) && table == old(table) && ref == old(ref) && free == old(free)
      ensures DirKeyOf(k) !in old(pde) && create && old(free) != {} ==>
        && DirKeyOf(k) in pde && pde == old(pde)[DirKeyOf(k) := pde[DirKeyOf(k)]]
        && pde[DirKeyOf(k)] in old(free) && free == old(free) - {pde[DirKeyOf(k)]}
        && ref == old(ref)[pde[DirKeyOf(k)] := 1]
    {
      if DirKeyOf(k) in pde {
        return true;
      }
      if !create {
        return false;
      }
      var f := AllocPage();
      if f.None? {
        return false;
      }
      NewTableRefines(pde, table, flat, DirKeyOf(k), f.value);
      NewTableRefs(ref, old(free), table, flat, f.value);
      NewTableValues(pde, DirKeyOf(k), f.value);
      ref := ref[f.value := 1];
      table := table[f.value := seq(ENTRIES, i => Zero)];
      pde := pde[DirKeyOf(k) := f.value];
      ok := true;
    }

    /** page_ref_dec, and free_page for a frame that nobody uses any more. */
    method Unref(f: nat)
      requires f < |ref| && f !in free
      modifies `ref, `free
      ensures ref == old(ref)[f := old(ref)[f] - 1]
      ensures free == old(free) + if old(ref)[f] == 1 then {f} else {}
    {
      ref := ref[f := ref[f] - 1];
      if ref[f] == 0 {
        free := free + {f};
      }
    }

    /** The write of entry e for page k, the counts being those of the new entry already. */
    method WriteEntry(k: Key, row: seq<Entry>, ghost e: Entry)
      requires DirKeyOf(k) in pde && pde[DirKeyOf(k)] in table && table.Keys == pde.Values && |data| == |ref|
      requires
        var table' := table[pde[DirKeyOf(k)] := row];
        TablesOk(pde, table') && Refines(pde, table', Set(flat, k, e)) && RefsOk(ref, free, table.Keys, Set(flat, k, e))
      modifies `table, `flat
      ensures Valid() && flat == Set(old(flat), k, e)
    {
      table := table[pde[DirKeyOf(k)] := row];
      flat := Set(flat, k, e);
    }

    /** page_remove_pte. */
    method RemovePte(k: Key)
      requires Valid() && DirKeyOf(k) in pde
      modifies `table, `ref, `free, `flat
      ensures Valid() && flat == if At(old(flat), k).Map? then old(flat) - {k} else old(flat)
      ensures free == old(free) + LosesLastUser(old(flat), k, Zero)
    {
      var t := pde[DirKeyOf(k)];
      var e := table[t][Ptx(k.page)];
      assert e == Walk(pde, table, k) == At(flat, k);
      if e.Map? {
        LastUser(ref, free, table.Keys, flat, k, Zero);
        SetRefs(ref, free, table.Keys, flat, k, Zero);
        WriteRefines(pde, table, flat, k, Zero);
        Unref(e.frame);
        WriteEntry(k, table[t][Ptx(k.page) := Zero], Zero);
      }
    }

    /** page_insert of frame f at page k; false is -E_NO_MEM. */
    method PageInsert(k: Key, f: nat, perm: nat) returns (ok: bool)
      requires Valid() && f < |ref| && f !in free && f !in table
      modifies `free, `pde, `table, `ref, `flat
      ensures Valid() && (ok <==> DirKeyOf(k) in old(pde) || old(free) != {})
      ensures !ok ==> flat == old(flat) && free == old(free) && pde == old(pde)
      ensures ok ==> flat == old(flat)[k := Map(f, perm)]
      ensures ok && DirKeyOf(k) in old(pde) ==>
        pde == old(pde) && free == old(free) + LosesLastUser(old(flat), k, Map(f, perm))
      ensures ok && DirKeyOf(k) !in old(pde) ==>
        && pde.Keys == old(pde).Keys + {DirKeyOf(k)} && pde[DirKeyOf(k)] in old(free)
           && free == old(free) - {pde[DirKeyOf(k)]}
    {
      assert Walk(pde, table, k) == At(flat, k);
      ok := GetPte(k, true);
      if !ok {
        return;
      }
      PutEntry(k, f, perm);
      assert DirKeyOf(k) !in old(pde) ==> !At(old(flat), k).Map?;
    }

    /** page_insert, once the page table is there. */
    method PutEntry(k: Key, f: nat, perm: nat)
      requires Valid() && f < |ref| && f !in free && f !in table && DirKeyOf(k) in pde
      modifies `free, `table, `ref, `flat
      ensures Valid() && flat == old(flat)[k := Map(f, perm)]
      ensures free == old(free) + LosesLastUser(old(flat), k, Map(f, perm))
    {
      ghost var entry := Map(f, perm);
      var t := pde[DirKeyOf(k)];
      var e := table[t][Ptx(k.page)];
      assert e == Walk(pde, table, k) == At(flat, k);
      SetRefs(ref, free, table.Keys, flat, k, entry);
      WriteRefines(pde, table, flat, k, entry);
      if e.Map? {
        LastUser(ref, free, table.Keys, flat, k, entry);
      }
      ghost var ref1, row1 := Recount(ref, e, entry), table[t][Ptx(k.page) := entry];
      ref := ref[f := ref[f] + 1];
      var row := table[t];
      if e.Map? {
        if e.frame == f {
          ref := ref[f := ref[f] - 1];
        } else {
          Unref(e.frame);
          row := row[Ptx(k.page) := Zero];
        }
      }
      row := row[Ptx(k.page) := Map(f, perm)];
      assert ref == ref1 && row == row1;
      WriteEntry(k, row, entry);
    }

    /** One round of unmap_range: page v, or all the pages of a missing page table. */
    method UnmapNext(dir: nat, v: nat) returns (w: nat)
      requires Valid()
      modifies `table, `ref, `free, `flat
      ensures Valid() && v < w && flat == Unmapped(old(flat), dir, v, w) && Freed(old(free), old(flat), free, flat)
      ensures w > v + 1 ==> flat == old(flat)
    {
      if DirKey(dir, Pdx(v)) !in pde {
        w := (v / ENTRIES + 1) * ENTRIES;
        NothingMapped(pde, table, flat, dir, v, w);
      } else {
        ghost var k := Key(dir, v);
        assert DirKeyOf(k) == DirKey(dir, Pdx(v)) && Walk(pde, table, k) == At(flat, k);
        UnmappedOne(flat, k);
        RemoveFreed(free, flat, k);
        if table[pde[DirKey(dir, Pdx(v))]][Ptx(v)] != Zero {
          RemovePte(Key(dir, v));
        }
        w := v + 1;
      }
    }

    /** unmap_range: every present entry of pages start .. end goes; swap entries stay. */
    method UnmapRange(dir: nat, start: nat, end: nat)
      requires Valid() && 0 < start < end <= USER_PAGES
      modifies `table, `ref, `free, `flat
      ensures Valid() && flat == Unmapped(old(flat), dir, start, end) && Freed(old(free), old(flat), free, flat)
    {
      var v := start;
      assert flat == Unmapped(flat, dir, start, v);
      while v != 0 && v < end
        invariant 0 < start <= v && Valid() && flat == Unmapped(old(flat), dir, start, if v < end then v else end)
        invariant Freed(old(free), old(flat), free, flat)
        decreases end - v
      {
        ghost var free1, flat1, v1 := free, flat, v;
        v := UnmapNext(dir, v);
        UnmappedTwice(old(flat), dir, start, v1, if v < end then v else end);
        UnmappedLess(flat1, dir, v1, v, end);
        FreedTwice(old(free), old(flat), free1, flat1, free, flat);
      }
    }

    /** A page table without present entries is freed. */
    method DropAt(d: DirKey)
      requires Valid() && d in pde && forall k :: k in flat && DirKeyOf(k) == d ==> !flat[k].Map?
      modifies `pde, `table, `ref, `free, `flat
      ensures Valid() && pde == old(pde) - {d} && free == old(free) + {old(pde)[d]}
      ensures flat == Without(old(flat), d.dir, d.index, d.index + 1)
    {
      var f := pde[d];
      DropTable(pde, table, ref, free, flat, d);
      assert f !in free;
      free, ref := free + {f}, ref[f := 0];
      pde := pde - {d};
      table := table - {f};
      flat := Without(flat, d.dir, d.index, d.index + 1);
    }

    /** One round of exit_range: the page table of directory entry i is freed. */
    method FreeTable(dir: nat, i: nat)
      requires Valid() && NoneMapped(flat, dir, i, i + 1)
      modifies `pde, `table, `ref, `free, `flat
      ensures Valid() && flat == Without(old(flat), dir, i, i + 1) && pde == WithoutTables(old(pde), dir, i, i + 1)
      ensures free == old(free) + FramesOf(old(pde), dir, i, i + 1)
    {
      ghost var d := DirKey(dir, i);
      NoneInTable(flat, dir, i);
      OneTable(pde, flat, d);
      if DirKey(dir, i) in pde {
        DropAt(DirKey(dir, i));
      } else {
        NoTableNoEntries(pde, table, flat, d);
      }
    }

    /** One more round, as a step from where exit_range began. */
    method ExitNext(dir: nat, i: nat, ghost lo: nat, ghost hi: nat,
                    ghost pde0: map<DirKey, nat>, ghost flat0: map<Key, Entry>, ghost free0: set<nat>) returns (j: nat)
      requires Valid() && lo <= i < hi && NoneMapped(flat0, dir, lo, hi)
        && Exited(pde0, flat0, free0, dir, lo, i, pde, flat, free)
      modifies `pde, `table, `ref, `free, `flat
      ensures j == i + 1 && Valid() && Exited(pde0, flat0, free0, dir, lo, j, pde, flat, free)
    {
      ghost var pde1, flat1, free1 := pde, flat, free;
      OneMoreTable(pde0, flat0, dir, lo, i, hi);
      FreeTable(dir, i);
      ExitedNext(pde0, flat0, free0, dir, lo, i, hi, pde1, flat1, free1, pde, flat, free);
      j := i + 1;
    }

    /** exit_range: the page tables of start .. end are freed, the last one whole. */
    method ExitRange(dir: nat, start: nat, end: nat)
      requires Valid() && 0 < start < end <= USER_PAGES
      requires NoneMapped(flat, dir, Pdx(start), Pdx(end + ENTRIES - 1))
      modifies `pde, `table, `ref, `free, `flat
      ensures Valid()
      ensures Exited(old(pde), old(flat), old(free), dir, Pdx(start), Pdx(end + ENTRIES - 1), pde, flat, free)
    {
      FirstTable(start, end);
      ExitTables(dir, Pdx(start), end, Pdx(end + ENTRIES - 1));
    }

    /** The loop of exit_range. */
    method ExitTables(dir: nat, lo: nat, end: nat, ghost hi: nat)
      requires Valid() && lo < hi && NoneMapped(flat, dir, lo, hi) && LastIs(end, hi)
      modifies `pde, `table, `ref, `free, `flat
      ensures Valid() && Exited(old(pde), old(flat), old(free), dir, lo, hi, pde, flat, free)
    {
      var i, more := lo, true;
      ghost var pde0, flat0, free0 := pde, flat, free;
      NoTables(pde, flat, dir, lo);
      while more
        decreases hi - i
        invariant more <==> i != hi
        invariant lo <= i <= hi && Valid() && Exited(pde0, flat0, free0, dir, lo, i, pde, flat, free)
      {
        i := ExitNext(dir, i, lo, hi, pde0, flat0, free0);
        more := MoreTables(i, end, hi);
      }
    }

    /** exit_mmap, first loop: the pages of every vma go. */
    method UnmapAll(dir: nat, vmas: seq<Extent>)
      requires Valid() && forall i :: 0 <= i < |vmas| ==> VmaOk(vmas[i])
      modifies `table, `ref, `free, `flat
      ensures Valid() && Freed(old(free), old(flat), free, flat) && flat == UnmappedAll(old(flat), dir, vmas, |vmas|)
    {
      ghost var free0, flat0 := free, flat;
      var i := 0;
      assert flat == UnmappedAll(flat0, dir, vmas, 0);
      while i != |vmas|
        invariant 0 <= i <= |vmas| && Valid() && Freed(free0, flat0, free, flat)
          && flat == UnmappedAll(flat0, dir, vmas, i)
        decreases |vmas| - i
      {
        i := UnmapVma(dir, vmas, i, free0, flat0);
      }
    }

    /** One round of it. */
    method UnmapVma(dir: nat, vmas: seq<Extent>, i: nat, ghost free0: set<nat>, ghost flat0: map<Key, Entry>)
      returns (j: nat)
      requires Valid() && i < |vmas| && VmaOk(vmas[i]) && Freed(free0, flat0, free, flat)
        && flat == UnmappedAll(flat0, dir, vmas, i)
      modifies `table, `ref, `free, `flat
      ensures j == i + 1 && Valid() && Freed(free0, flat0, free, flat) && flat == UnmappedAll(flat0, dir, vmas, j)
    {
      ghost var free1, flat1 := free, flat;
      UnmapRange(dir, vmas[i].start, vmas[i].end);
      FreedTwice(free0, flat0, free1, flat1, free, flat);
      UnmappedMore(flat0, dir, vmas, i);
      j := i + 1;
    }

    /** exit_range of vma i, when the page tables of the earlier ones are gone. */
    method ExitVma(dir: nat, vmas: seq<Extent>, i: nat, ghost flat0: map<Key, Entry>)
      requires Valid() && i < |vmas| && VmaOk(vmas[i]) && NoPresent(flat0, dir, vmas)
      requires flat == FlatLess(flat0, dir, vmas, i)
      modifies `pde, `table, `ref, `free, `flat
      ensures Valid()
      ensures Exited(old(pde), old(flat), old(free), dir, Pdx(vmas[i].start), Pdx(vmas[i].end + ENTRIES - 1),
                     pde, flat, free)
    {
      NoneLeft(flat0, flat, dir, vmas, i);
      ExitRange(dir, vmas[i].start, vmas[i].end);
    }

    /** One round of the second loop: the page tables of vma i go. */
    method FreeVma(dir: nat, vmas: seq<Extent>, i: nat, ghost pde0: map<DirKey, nat>, ghost flat0: map<Key, Entry>,
                   ghost free0: set<nat>)
        returns (j: nat)
      requires Valid() && i < |vmas| && VmaOk(vmas[i]) && NoPresent(flat0, dir, vmas)
      requires TablesGone(pde0, flat0, free0, dir, vmas, i, pde, flat, free)
      modifies `pde, `table, `ref, `free, `flat
      ensures j == i + 1 && Valid() && TablesGone(pde0, flat0, free0, dir, vmas, j, pde, flat, free)
    {
      ghost var pde1, flat1, free1 := pde, flat, free;
      ExitVma(dir, vmas, i, flat0);
      TablesGoneNext(pde0, flat0, free0, dir, vmas, i, pde1, flat1, free1, pde, flat, free);
      j := i + 1;
    }

    /** exit_mmap, second loop: the page tables of every vma go. */
    method FreeTables(dir: nat, vmas: seq<Extent>)
      requires Valid() && (forall i :: 0 <= i < |vmas| ==> VmaOk(vmas[i])) && NoPresent(flat, dir, vmas)
      modifies `pde, `table, `ref, `free, `flat
      ensures Valid() && TablesGone(old(pde), old(flat), old(free), dir, vmas, |vmas|, pde, flat, free)
    {
      ghost var pde0, flat0, free0 := pde, flat, free;
      var i := 0;
      NoneGone(pde, flat, free, dir, vmas);
      while i != |vmas|
        invariant 0 <= i <= |vmas| && Valid() && TablesGone(pde0, flat0, free0, dir, vmas, i, pde, flat, free)
        decreases |vmas| - i
      {
        i := FreeVma(dir, vmas, i, pde0, flat0, free0);
      }
    }

    /** exit_mmap: exactly the page tables that the vmas reach go, with what they map, and what
        becomes free is those tables and the frames that lose their last user. The present
        pages in those tables are in vmas; FreeNeedsUnmapped says why that is needed. */
    method ExitMmap(dir: nat, vmas: seq<Extent>)
      requires Valid() && (forall i :: 0 <= i < |vmas| ==> VmaOk(vmas[i])) && Tidy(flat, dir, vmas)
      modifies `pde, `table, `ref, `free, `flat
      ensures Valid() && Left(old(pde), old(flat), old(free), dir, vmas, pde, flat, free)
    {
      ghost var pde0, flat0, free0 := pde, flat, free;
      UnmapAll(dir, vmas);
      ghost var flat1, free1 := flat, free;
      NothingPresent(flat0, dir, vmas);
      FreeTables(dir, vmas);
      LeftOver(pde0, flat0, free0, dir, vmas, flat1, free1, pde, flat, free);
    }

    /** swap_out, as far as the page table goes: a page that only k maps becomes a swap entry. */
    method SwapOut(k: Key, slot: nat)
      requires Valid() && At(flat, k).Map? && Users(flat, flat[k].frame) == {k}
      modifies `table, `ref, `free, `flat
      ensures Valid() && flat == old(flat)[k := Kept(slot)] && free == old(free) + {old(flat)[k].frame}
    {
      assert Walk(pde, table, k) == At(flat, k);
      var t := pde[DirKeyOf(k)];
      var e := table[t][Ptx(k.page)];
      LastUser(ref, free, table.Keys, flat, k, Kept(slot));
      SetRefs(ref, free, table.Keys, flat, k, Kept(slot));
      WriteRefines(pde, table, flat, k, Kept(slot));
      table := table[t := table[t][Ptx(k.page) := Kept(slot)]];
      ref := ref[e.frame := 0];
      free := free + {e.frame};
      flat := Set(flat, k, Kept(slot));
    }

    /** copy_range for one present page of the parent: it takes a frame, and one more for a
        missing page table, and fails exactly when they are not there. */
    method CopyPage(to: nat, from: nat, v: nat) returns (r: CopyResult)
      requires Valid() && to != from && At(flat, Key(from, v)).Map?
      modifies `pde, `table, `ref, `free, `data, `flat
      ensures Valid() && (r == Done <==> |old(free)| >= Price(old(pde), DirKeyOf(Key(to, v))))
      ensures r != Done ==> flat == old(flat) && data == old(data) && free == {}
      ensures r != Done ==> (r == NoMemory <==> DirKeyOf(Key(to, v)) !in pde)
      ensures r == NoMemory <==> DirKeyOf(Key(to, v)) !in old(pde) && old(free) == {}
      ensures r == Done ==> StepCopies(old(flat), old(data), flat, data, to, from, v)
      ensures r == Done && !At(old(flat), Key(to, v)).Map? ==>
        PaidPage(old(pde), old(free), pde, free, DirKeyOf(Key(to, v)))
      ensures Grew(old(flat), old(pde), old(free), Key(to, v), flat, pde, free)
    {
      assert Walk(pde, table, Key(from, v)) == At(flat, Key(from, v));
      var e := Walk(pde, table, Key(from, v));
      var g;
      r, g := NewPage(Key(to, v));
      if r == Done {
        MappedIsUsed(ref, free, table.Keys, flat, Key(from, v));
        StepIsCopy(ref, free + {g}, table.Keys, flat, data, to, from, v, g);
        data := data[g := data[e.frame]];
        ghost var free1 := free;
        PutEntry(Key(to, v), g, e.perm);
        GrewByPage(old(flat), old(pde), old(free), Key(to, v), flat, pde, free1, g, e.perm);
      } else {
        GrewByTable(flat, old(pde), old(free), Key(to, v), pde, free);
      }
    }

    /** get_pte and alloc_page in copy_range: a page table for k, and a frame. */
    method NewPage(k: Key) returns (r: CopyResult, g: nat)
      requires Valid()
      modifies `pde, `table, `ref, `free
      ensures Valid() && (r == Done <==> |old(free)| >= Price(old(pde), DirKeyOf(k)))
      ensures r != Done ==> free == {} && (r == NoMemory <==> DirKeyOf(k) !in pde)
      ensures r == NoMemory <==> DirKeyOf(k) !in old(pde) && old(free) == {}
      ensures r == Done ==> g < |ref| && g !in free && g !in table && RefsOk(ref, free + {g}, table.Keys, flat)
      ensures r == Done ==> DirKeyOf(k) in pde && PaidPage(old(pde), old(free), pde, free, DirKeyOf(k))
      ensures TableAdded(old(pde), old(free), pde, if r == Done then free + {g} else free, DirKeyOf(k))
    {
      g := 0;
      var ok := GetPte(k, true);
      if !ok {
        return NoMemory, 0;
      }
      ghost var free1 := free;
      Bought(old(pde), old(free), pde, free1, DirKeyOf(k));
      var f := AllocPage();
      if f.None? {
        return Stopped, 0;
      }
      assert free1 == free + {f.value};
      r, g := Done, f.value;
    }

    /** One round of copy_range: page v, or all the pages of a page table that the parent does not have. */
    method CopyNext(to: nat, from: nat, v: nat) returns (r: CopyResult, w: nat)
      requires Valid() && to != from
      modifies `pde, `table, `ref, `free, `data, `flat
      ensures Valid() && v < w
      ensures r != Done ==> CopyFails(old(flat), old(pde), old(free), to, from, v, r, pde, free)
      ensures r != Done ==> flat == old(flat) && data == old(data)
      ensures r == Done ==> RoundCopies(old(flat), old(data), flat, data, to, from, v, w)
      ensures r == Done && !At(old(flat), Key(to, v)).Map? ==>
        PaidRound(old(flat), old(pde), old(free), to, from, v, pde, free)
      ensures Grew(old(flat), old(pde), old(free), Key(to, v), flat, pde, free)
    {
      r := Done;
      assert Walk(pde, table, Key(from, v)) == At(flat, Key(from, v));
      if DirKey(from, Pdx(v)) !in pde {
        w := (v / ENTRIES + 1) * ENTRIES;
        NothingMapped(pde, table, flat, from, v, w);
      } else {
        w := v + 1;
        if Walk(pde, table, Key(from, v)).Map? {
          r := CopyPage(to, from, v);
        }
      }
    }

    /** The same round, counted from the start of the loop. */
    method CopyRound(to: nat, from: nat, start: nat, v: nat, end: nat, ghost was: Before<Contents>)
      returns (r: CopyResult, w: nat)
      requires Valid() && to != from && 0 < start <= v < end
      requires Progress(was, to, from, start, v, end, flat, data, pde, free)
      modifies `pde, `table, `ref, `free, `data, `flat
      ensures Valid() && v < w
      ensures r == Done ==> Progress(was, to, from, start, w, end, flat, data, pde, free)
      ensures r != Done ==>
        Copied(was.flat, was.data, flat, data, to, from, start, v) && Grown(was, to, start, end, flat, pde, free)
      ensures r != Done ==> At(was.flat, Key(from, v)).Map? && free == {}
      ensures r != Done ==> (r == NoMemory <==> DirKeyOf(Key(to, v)) !in pde)
      ensures r != Done && NonePresent(was.flat, to, start, end) ==>
        |was.free| < CostOf(was, to, from, start, end) && ShortAt(was, to, from, start, v, r)
    {
      ghost var flat1, data1, pde1, free1 := flat, data, pde, free;
      r, w := CopyNext(to, from, v);
      RoundKeeps(was.flat, was.data, flat1, data1, to, from, start, v);
      GrownNext(was, to, start, v, end, flat1, pde1, free1, flat, pde, free);
      if r != Done {
        TooDear(was, to, from, start, v, end, pde1, free1);
      } else {
        CopiedNext(was.flat, was.data, flat1, data1, flat, data, to, from, start, v, w);
        PaidNext(was, to, from, start, v, w, end, flat1, pde1, free1, pde, free);
      }
    }

    /** copy_range of pages start .. end from the address space from to the address space to. It
        ends early, at page reached, exactly when the memory does not suffice. */
    method CopyRange(to: nat, from: nat, start: nat, end: nat) returns (r: CopyResult, ghost reached: nat)
      requires Valid() && to != from && 0 < start < end <= USER_PAGES
      modifies `pde, `table, `ref, `free, `data, `flat
      ensures Valid() && start <= reached <= end && (r == Done <==> reached == end)
      ensures Copied(old(flat), old(data), flat, data, to, from, start, reached)
      ensures r != Done ==> At(old(flat), Key(from, reached)).Map? && free == {}
      ensures r != Done ==> (r == NoMemory <==> DirKeyOf(Key(to, reached)) !in pde)
      ensures NonePresent(old(flat), to, start, end) ==>
        (r == Done <==> |old(free)| >= Cost(old(flat), old(pde), to, from, start, end))
      ensures NonePresent(old(flat), to, start, end) && r != Done ==>
        ShortAt(Before(old(flat), old(data), old(pde), old(free)), to, from, start, reached, r)
      ensures NonePresent(old(flat), to, start, end) && r == Done ==>
        Paid(old(flat), old(pde), old(free), to, from, start, end, pde, free)
      ensures Grown(Before(old(flat), old(data), old(pde), old(free)), to, start, end, flat, pde, free)
    {
      ghost var was := Before(flat, data, pde, free);
      var v := start;
      NothingPaid(flat, pde, free, to, from, start);
      while v != 0 && v < end
        invariant 0 < start <= v && Valid() && Progress(was, to, from, start, v, end, flat, data, pde, free)
        decreases end - v
      {
        var w;
        r, w := CopyRound(to, from, start, v, end, was);
        if r != Done {
          return r, v;
        }
        v := w;
      }
      CopiedLess(was.flat, was.data, flat, data, to, from, start, v, end);
      PaidLess(was, to, from, start, end, v, pde, free);
      return Done, end;
    }
  }

  // ---------- what copy_range costs ----------

  /** The frames that copying one page takes. */
  ghost function Price(pde: map<DirKey, nat>, d: DirKey): nat {
    if d in pde then 1 else 2
  }

  ghost predicate PaidPage(pde0: map<DirKey, nat>, free0: set<nat>, pde: map<DirKey, nat>, free: set<nat>, d: DirKey) {
    pde.Keys == pde0.Keys + {d} && |free| + Price(pde0, d) == |free0|
  }

  /** The counts survive the eviction of page k exactly when no other page maps its frame, which
      swap_out does not look at. */
  lemma EvictNeedsSoleUser(ref: seq<int>, free: set<nat>, tables: set<nat>, flat: map<Key, Entry>, k: Key, slot: nat)
    requires RefsOk(ref, free, tables, flat) && At(flat, k).Map?
    ensures
      var f := flat[k].frame;
      && f < |ref|
      && (RefsOk(ref[f := 0], free + {f}, tables, Set(flat, k, Kept(slot))) <==> Users(flat, f) == {k})
  {
    MappedIsUsed(ref, free, tables, flat, k);
    var f, flat' := flat[k].frame, Set(flat, k, Kept(slot));
    SetUsersSet(flat, k, Kept(slot), f);
    if Users(flat, f) == {k} {
      LastUser(ref, free, tables, flat, k, Kept(slot));
      SetRefs(ref, free, tables, flat, k, Kept(slot));
      assert ref[f := 0] == Recount(ref, flat[k], Kept(slot));
    } else {
      assert k in Users(flat, f) && Users(flat', f) != {};
      assert !CountOk(ref[f := 0], flat', f);
    }
  }

  /** There may be a page table more, for directory entry d, that was free. */
  ghost predicate TableAdded(pde0: map<DirKey, nat>, free0: set<nat>, pde: map<DirKey, nat>, free: set<nat>,
                             d: DirKey) {
    || (pde == pde0 && free == free0)
    || (d !in pde0 && d in pde && pde == pde0[d := pde[d]] && pde[d] in free0 && free == free0 - {pde[d]})
  }

  /** Frame f is a page table of address space dir, or one of its present pages. */
  ghost predicate HeldBy(flat: map<Key, Entry>, pde: map<DirKey, nat>, dir: nat, f: nat) {
    || (exists d :: d in pde && d.dir == dir && pde[d] == f)
    || (exists k :: k in flat && k.dir == dir && flat[k].Map? && flat[k].frame == f)
  }

  /** Frames only moved between the free ones and those that address space dir holds. */
  ghost predicate SameFrames(flat0: map<Key, Entry>, pde0: map<DirKey, nat>, free0: set<nat>, dir: nat,
                             flat: map<Key, Entry>, pde: map<DirKey, nat>, free: set<nat>) {
    forall f {:trigger HeldBy(flat, pde, dir, f)} {:trigger HeldBy(flat0, pde0, dir, f)} ::
      f in free || HeldBy(flat, pde, dir, f) <==> f in free0 || HeldBy(flat0, pde0, dir, f)
  }

  /** Page k may have got a page table, and a frame if it had none. */
  ghost predicate Grew(flat0: map<Key, Entry>, pde0: map<DirKey, nat>, free0: set<nat>, k: Key, flat: map<Key, Entry>,
                       pde: map<DirKey, nat>, free: set<nat>) {
    && (forall d :: d in pde0 ==> d in pde && pde[d] == pde0[d])
    && (forall d :: d in pde && d !in pde0 ==> d == DirKeyOf(k))
    && (!At(flat0, k).Map? ==> SameFrames(flat0, pde0, free0, k.dir, flat, pde, free))
  }

  lemma GrewByTable(flat: map<Key, Entry>, pde0: map<DirKey, nat>, free0: set<nat>, k: Key, pde: map<DirKey, nat>,
                    free: set<nat>)
    requires TableAdded(pde0, free0, pde, free, DirKeyOf(k))
    ensures Grew(flat, pde0, free0, k, flat, pde, free)
  {
    var d := DirKeyOf(k);
    forall f: nat
      ensures f in free || HeldBy(flat, pde, k.dir, f) <==> f in free0 || HeldBy(flat, pde0, k.dir, f)
    {
      if e :| e in pde0 && e.dir == k.dir && pde0[e] == f {
        assert e in pde && pde[e] == f;
      }
      if pde != pde0 && f == pde[d] {
        assert d in pde && d.dir == k.dir && pde[d] == f;
      }
      if e :| e in pde && e.dir == k.dir && pde[e] == f {
        assert e in pde0 || pde[d] == f;
      }
    }
  }

  lemma GrewByPage(flat0: map<Key, Entry>, pde0: map<DirKey, nat>, free0: set<nat>, k: Key, flat: map<Key, Entry>,
                   pde: map<DirKey, nat>, free: set<nat>, g: nat, perm: nat)
    requires TableAdded(pde0, free0, pde, free + {g}, DirKeyOf(k)) && g !in free
    requires flat == flat0[k := Map(g, perm)]
    ensures Grew(flat0, pde0, free0, k, flat, pde, free + LosesLastUser(flat0, k, Map(g, perm)))
  {
    GrewByTable(flat0, pde0, free0, k, pde, free + {g});
    if !At(flat0, k).Map? {
      forall f: nat
        ensures f in free || HeldBy(flat, pde, k.dir, f) <==> f in free + {g} || HeldBy(flat0, pde, k.dir, f)
      {
        if j :| j in flat0 && j.dir == k.dir && flat0[j].Map? && flat0[j].frame == f {
          assert j in flat && flat[j] == flat0[j];
        }
        if f == g {
          assert k in flat && flat[k].Map? && flat[k].frame == g;
        }
        if j :| j in flat && j.dir == k.dir && flat[j].Map? && flat[j].frame == f {
          assert j == k || (j in flat0 && flat0[j] == flat[j]);
        }
      }
    }
  }

  /** A page table costs a frame. */
  lemma Bought(pde0: map<DirKey, nat>, free0: set<nat>, pde: map<DirKey, nat>, free: set<nat>, d: DirKey)
    requires d in pde0 ==> pde == pde0 && free == free0
    requires d !in pde0 && free0 != {} ==>
      d in pde && pde == pde0[d := pde[d]] && pde[d] in free0 && free == free0 - {pde[d]}
    requires d !in pde0 ==> free0 != {}
    ensures pde.Keys == pde0.Keys + {d} && |free| + Price(pde0, d) == |free0| + 1
  {
  }

  ghost predicate PaidRound(flat: map<Key, Entry>, pde0: map<DirKey, nat>, free0: set<nat>, to: nat, from: nat, v: nat,
                            pde: map<DirKey, nat>, free: set<nat>) {
    if At(flat, Key(from, v)).Map? then PaidPage(pde0, free0, pde, free, DirKeyOf(Key(to, v)))
    else pde == pde0 && free == free0
  }

  /** Page v cannot be copied. */
  ghost predicate CopyFails(flat: map<Key, Entry>, pde0: map<DirKey, nat>, free0: set<nat>, to: nat, from: nat, v: nat,
                            r: CopyResult, pde: map<DirKey, nat>, free: set<nat>) {
    && At(flat, Key(from, v)).Map? && |free0| < Price(pde0, DirKeyOf(Key(to, v))) && free == {}
    && (r == NoMemory <==> DirKeyOf(Key(to, v)) !in pde)
    && (r == NoMemory <==> DirKeyOf(Key(to, v)) !in pde0 && free0 == {})
  }

  ghost predicate NonePresent(flat: map<Key, Entry>, dir: nat, start: nat, end: nat) {
    forall p :: start <= p < end ==> !At(flat, Key(dir, p)).Map?
  }

  /** The present pages from start to v. */
  ghost function Present(flat: map<Key, Entry>, dir: nat, start: nat, v: nat): set<nat> {
    set p | p in AllBelow(v) && start <= p && At(flat, Key(dir, p)).Map?
  }

  /** The page tables of address space dir for these pages. */
  ghost function TablesOf(dir: nat, pages: set<nat>): set<DirKey> {
    set p | p in pages :: DirKeyOf(Key(dir, p))
  }

  /** The frames that address space dir takes for these pages: one each, and one for each page table that it
      does not have. */
  ghost function PagesCost(pde: map<DirKey, nat>, dir: nat, pages: set<nat>): nat {
    |pages| + |TablesOf(dir, pages) - pde.Keys|
  }

  ghost function TablesFor(flat: map<Key, Entry>, to: nat, from: nat, start: nat, v: nat): set<DirKey> {
    TablesOf(to, Present(flat, from, start, v))
  }

  /** The frames that copying the pages from start to v takes: one for each present page, and
      one for each page table that the child does not have. */
  ghost function Cost(flat: map<Key, Entry>, pde: map<DirKey, nat>, to: nat, from: nat, start: nat, v: nat): nat {
    PagesCost(pde, to, Present(flat, from, start, v))
  }

  ghost predicate Paid(flat0: map<Key, Entry>, pde0: map<DirKey, nat>, free0: set<nat>, to: nat, from: nat, start: nat,
                       v: nat, pde: map<DirKey, nat>, free: set<nat>) {
    && pde.Keys == pde0.Keys + TablesFor(flat0, to, from, start, v)
    && |free| + Cost(flat0, pde0, to, from, start, v) == |free0|
  }

  /** The state in which copy_range began. */
  datatype Before<Contents> = Before(flat: map<Key, Entry>, data: seq<Contents>, pde: map<DirKey, nat>, free: set<nat>)

  ghost function CostOf<C>(was: Before<C>, to: nat, from: nat, start: nat, v: nat): nat {
    Cost(was.flat, was.pde, to, from, start, v)
  }

  /** Page v no longer fits: what is free is enough for the pages before it but not for it, and what is
      short is the page table exactly when the child has none for it by then and nothing is left. */
  ghost predicate ShortAt<C>(was: Before<C>, to: nat, from: nat, start: nat, v: nat, r: CopyResult) {
    var d, have := DirKeyOf(Key(to, v)), was.pde.Keys + TablesFor(was.flat, to, from, start, v);
    && At(was.flat, Key(from, v)).Map?
    && CostOf(was, to, from, start, v) <= |was.free| < CostOf(was, to, from, start, v) + (if d in have then 1 else 2)
    && (r == NoMemory <==> d !in have && |was.free| == CostOf(was, to, from, start, v))
  }

  /** The pages of the child have been paid for up to v, if it had none in the range. */
  ghost predicate PaidSince<C>(was: Before<C>, to: nat, from: nat, start: nat, v: nat, end: nat, pde: map<DirKey, nat>,
                               free: set<nat>) {
    NonePresent(was.flat, to, start, end) ==> Paid(was.flat, was.pde, was.free, to, from, start, v, pde, free)
  }

  /** The child may have got page tables for the range; no table of anybody was replaced, and if the
      child had no pages there, what it got was free. */
  ghost predicate Grown<C>(was: Before<C>, to: nat, start: nat, end: nat, flat: map<Key, Entry>,
                           pde: map<DirKey, nat>, free: set<nat>)
    requires 0 < end
  {
    && (forall d :: d in was.pde ==> d in pde && pde[d] == was.pde[d])
    && (forall d :: d in pde && d !in was.pde ==> d.dir == to && Pdx(start) <= d.index <= Pdx(end - 1))
    && (NonePresent(was.flat, to, start, end) ==> SameFrames(was.flat, was.pde, was.free, to, flat, pde, free))
  }

  lemma GrownNext<C>(was: Before<C>, to: nat, start: nat, v: nat, end: nat, flat1: map<Key, Entry>,
                     pde1: map<DirKey, nat>, free1: set<nat>, flat: map<Key, Entry>, pde: map<DirKey, nat>,
                     free: set<nat>)
    requires start <= v < end && Grown(was, to, start, end, flat1, pde1, free1)
    requires Grew(flat1, pde1, free1, Key(to, v), flat, pde, free)
    requires At(flat1, Key(to, v)).Map? <==> At(was.flat, Key(to, v)).Map?
    ensures Grown(was, to, start, end, flat, pde, free)
  {
    if NonePresent(was.flat, to, start, end) {
      forall f: nat
        ensures f in free || HeldBy(flat, pde, to, f) <==> f in was.free || HeldBy(was.flat, was.pde, to, f)
      {
        assert f in free1 || HeldBy(flat1, pde1, to, f) <==> f in was.free || HeldBy(was.flat, was.pde, to, f);
      }
    }
  }

  /** copy_range has come to page v, which may be past the end when the parent has no pages in between. */
  ghost predicate Progress<C(!new)>(was: Before<C>, to: nat, from: nat, start: nat, v: nat, end: nat,
                                    flat: map<Key, Entry>, data: seq<C>, pde: map<DirKey, nat>, free: set<nat>)
    requires 0 < end
  {
    && Copied(was.flat, was.data, flat, data, to, from, start, v)
    && PaidSince(was, to, from, start, v, end, pde, free)
    && Grown(was, to, start, end, flat, pde, free)
    && forall p :: end <= p < v ==> !At(was.flat, Key(from, p)).Map?
  }

  lemma NothingPaid(flat: map<Key, Entry>, pde: map<DirKey, nat>, free: set<nat>, to: nat, from: nat, start: nat)
    ensures Paid(flat, pde, free, to, from, start, start, pde, free)
  {
    assert Present(flat, from, start, start) == {};
    assert TablesFor(flat, to, from, start, start) == {};
  }

  /** One more page. */
  lemma CostNext(flat: map<Key, Entry>, pde: map<DirKey, nat>, to: nat, from: nat, start: nat, v: nat)
    requires start <= v
    ensures
      var d, tables := DirKeyOf(Key(to, v)), TablesFor(flat, to, from, start, v);
      if At(flat, Key(from, v)).Map? then
        && TablesFor(flat, to, from, start, v + 1) == tables + {d}
        && Cost(flat, pde, to, from, start, v + 1) ==
             Cost(flat, pde, to, from, start, v) + if d in pde.Keys + tables then 1 else 2
      else
        && TablesFor(flat, to, from, start, v + 1) == tables
        && Cost(flat, pde, to, from, start, v + 1) == Cost(flat, pde, to, from, start, v)
  {
    PresentNext(flat, from, start, v);
    TablesNext(flat, to, from, start, v);
    if At(flat, Key(from, v)).Map? {
      OneMore(TablesFor(flat, to, from, start, v), pde.Keys, DirKeyOf(Key(to, v)));
    }
  }

  lemma PresentNext(flat: map<Key, Entry>, dir: nat, start: nat, v: nat)
    requires start <= v
    ensures v !in Present(flat, dir, start, v)
    ensures Present(flat, dir, start, v + 1) ==
      Present(flat, dir, start, v) + if At(flat, Key(dir, v)).Map? then {v} else {}
    ensures |Present(flat, dir, start, v + 1)| ==
      |Present(flat, dir, start, v)| + if At(flat, Key(dir, v)).Map? then 1 else 0
  {
    var few, more := Present(flat, dir, start, v), Present(flat, dir, start, v + 1);
    if At(flat, Key(dir, v)).Map? {
      assert more == few + {v};
    } else {
      assert more == few;
    }
  }

  lemma TablesNext(flat: map<Key, Entry>, to: nat, from: nat, start: nat, v: nat)
    requires start <= v
    ensures
      TablesFor(flat, to, from, start, v + 1) ==
        TablesFor(flat, to, from, start, v) + if At(flat, Key(from, v)).Map? then {DirKeyOf(Key(to, v))} else {}
  {
    PresentNext(flat, from, start, v);
  }

  lemma OneMore(tables: set<DirKey>, have: set<DirKey>, d: DirKey)
    ensures |(tables + {d}) - have| == |tables - have| + if d in have + tables then 0 else 1
  {
    if d in have + tables {
      assert (tables + {d}) - have == tables - have;
    } else {
      assert (tables + {d}) - have == (tables - have) + {d};
    }
  }

  lemma PaidNext<C>(was: Before<C>, to: nat, from: nat, start: nat, v: nat, w: nat, end: nat, flat1: map<Key, Entry>,
                    pde1: map<DirKey, nat>, free1: set<nat>, pde: map<DirKey, nat>, free: set<nat>)
    requires start <= v < end && v < w && PaidSince(was, to, from, start, v, end, pde1, free1)
    requires At(flat1, Key(from, v)) == At(was.flat, Key(from, v))
    requires At(flat1, Key(to, v)).Map? || PaidRound(flat1, pde1, free1, to, from, v, pde, free)
    requires At(flat1, Key(to, v)).Map? <==> At(was.flat, Key(to, v)).Map?
    requires forall p :: v < p < w ==> !At(was.flat, Key(from, p)).Map?
    ensures PaidSince(was, to, from, start, w, end, pde, free)
  {
    if NonePresent(was.flat, to, start, end) {
      SamePages(was.flat, to, from, start, v + 1, w);
      PaidOne(was.flat, was.pde, was.free, to, from, start, v, flat1, pde1, free1, pde, free);
    }
  }

  lemma PaidOne(flat0: map<Key, Entry>, pde0: map<DirKey, nat>, free0: set<nat>, to: nat, from: nat, start: nat, v: nat,
                flat1: map<Key, Entry>, pde1: map<DirKey, nat>, free1: set<nat>, pde: map<DirKey, nat>, free: set<nat>)
    requires start <= v && Paid(flat0, pde0, free0, to, from, start, v, pde1, free1)
    requires At(flat1, Key(from, v)) == At(flat0, Key(from, v)) && PaidRound(flat1, pde1, free1, to, from, v, pde, free)
    ensures Paid(flat0, pde0, free0, to, from, start, v + 1, pde, free)
  {
    var d, tables, more := DirKeyOf(Key(to, v)), TablesFor(flat0, to, from, start, v),
      TablesFor(flat0, to, from, start, v + 1);
    var cost, cost' := Cost(flat0, pde0, to, from, start, v), Cost(flat0, pde0, to, from, start, v + 1);
    CostNext(flat0, pde0, to, from, start, v);
    if At(flat0, Key(from, v)).Map? {
      PaidSum(pde0.Keys, pde1, free1, pde, free, tables, d, cost, cost', |free0|);
      assert more == tables + {d};
    } else {
      assert more == tables && pde == pde1 && cost' == cost;
    }
    assert pde.Keys == pde0.Keys + more;
    assert |free| + cost' == |free0|;
  }

  lemma PaidSum(have: set<DirKey>, pde1: map<DirKey, nat>, free1: set<nat>, pde: map<DirKey, nat>, free: set<nat>,
                tables: set<DirKey>, d: DirKey, cost: nat, cost': nat, total: nat)
    requires pde1.Keys == have + tables && |free1| + cost == total && PaidPage(pde1, free1, pde, free, d)
    requires cost' == cost + if d in have + tables then 1 else 2
    ensures pde.Keys == have + (tables + {d}) && |free| + cost' == total
  {
  }

  /** Nothing is present from v to w. */
  lemma SamePages(flat: map<Key, Entry>, to: nat, from: nat, start: nat, v: nat, w: nat)
    requires v <= w && forall p :: v <= p < w ==> !At(flat, Key(from, p)).Map?
    ensures Present(flat, from, start, w) == Present(flat, from, start, v)
    ensures TablesFor(flat, to, from, start, w) == TablesFor(flat, to, from, start, v)
  {
  }

  lemma PaidLess<C>(was: Before<C>, to: nat, from: nat, start: nat, v: nat, w: nat, pde: map<DirKey, nat>,
                    free: set<nat>)
    requires v <= w && (forall p :: v <= p < w ==> !At(was.flat, Key(from, p)).Map?)
    requires PaidSince(was, to, from, start, w, v, pde, free)
    ensures PaidSince(was, to, from, start, v, v, pde, free)
  {
    SamePages(was.flat, to, from, start, v, w);
  }

  lemma CostGrows(flat: map<Key, Entry>, pde: map<DirKey, nat>, to: nat, from: nat, start: nat, v: nat, end: nat)
    requires v <= end
    ensures Cost(flat, pde, to, from, start, v) <= Cost(flat, pde, to, from, start, end)
  {
    SubsetSize(Present(flat, from, start, v), Present(flat, from, start, end));
    SubsetSize(TablesFor(flat, to, from, start, v) - pde.Keys, TablesFor(flat, to, from, start, end) - pde.Keys);
  }

  /** When page v cannot be paid for, the whole range could not. */
  lemma TooDear<C>(was: Before<C>, to: nat, from: nat, start: nat, v: nat, end: nat, pde: map<DirKey, nat>,
                   free: set<nat>)
    requires start <= v < end && PaidSince(was, to, from, start, v, end, pde, free)
    requires At(was.flat, Key(from, v)).Map? && |free| < Price(pde, DirKeyOf(Key(to, v)))
    ensures NonePresent(was.flat, to, start, end) ==> |was.free| < CostOf(was, to, from, start, end)
  {
    CostNext(was.flat, was.pde, to, from, start, v);
    CostGrows(was.flat, was.pde, to, from, start, v + 1, end);
  }

  /** NoMemory: -E_NO_MEM. Stopped: the assertion that alloc_page gave a page. */
  datatype CopyResult = Done | NoMemory | Stopped

  /** Page v of the parent was copied to a frame that nothing else maps. */
  ghost predicate StepCopies<Contents(!new)>(flat0: map<Key, Entry>, data0: seq<Contents>, flat: map<Key, Entry>,
                                             data: seq<Contents>, to: nat, from: nat, v: nat) {
    && FreshCopy(flat0, data0, flat, data, to, from, v)
    && forall k :: k != Key(to, v) ==> KeptAt(flat0, data0, flat, data, k)
  }

  /** The child's page v has the parent's contents and permissions in a frame of its own. */
  ghost predicate FreshCopy<Contents>(flat0: map<Key, Entry>, data0: seq<Contents>, flat: map<Key, Entry>,
                                      data: seq<Contents>, to: nat, from: nat, v: nat) {
    var e, c := At(flat0, Key(from, v)), At(flat, Key(to, v));
    && e.Map? && c.Map? && c.perm == e.perm && Users(flat, c.frame) == {Key(to, v)}
    && e.frame < |data0| && c.frame < |data| && data[c.frame] == data0[e.frame]
  }

  /** Page k is mapped as before and holds what it held. */
  ghost predicate KeptAt<Contents>(flat0: map<Key, Entry>, data0: seq<Contents>, flat: map<Key, Entry>,
                                   data: seq<Contents>, k: Key) {
    var e := At(flat0, k);
    At(flat, k) == e && (e.Map? ==> e.frame < |data0| && e.frame < |data| && data[e.frame] == data0[e.frame])
  }

  /** After copy_range reached page v: fresh copies of the parent's present pages from
      start, everything else as before. */
  ghost predicate CopiedAt<Contents>(flat0: map<Key, Entry>, data0: seq<Contents>, flat: map<Key, Entry>,
                                     data: seq<Contents>, to: nat, from: nat, start: nat, v: nat, k: Key) {
    if k.dir == to && start <= k.page < v && At(flat0, Key(from, k.page)).Map?
    then FreshCopy(flat0, data0, flat, data, to, from, k.page)
    else KeptAt(flat0, data0, flat, data, k)
  }

  ghost predicate Copied<Contents(!new)>(flat0: map<Key, Entry>, data0: seq<Contents>, flat: map<Key, Entry>,
                                         data: seq<Contents>, to: nat, from: nat, start: nat, v: nat) {
    forall k :: CopiedAt(flat0, data0, flat, data, to, from, start, v, k)
  }

  /** The child's page p is like the parent's. */
  ghost predicate SamePage<Contents>(flat: map<Key, Entry>, data: seq<Contents>, to: nat, from: nat, p: nat) {
    var c, e := At(flat, Key(to, p)), At(flat, Key(from, p));
    if e.Map? then
      c.Map? && c.perm == e.perm && c.frame < |data| && e.frame < |data| && data[c.frame] == data[e.frame]
    else c == e
  }

  /** copy_range into an empty range makes it like the parent's exactly when the parent has no
      swap entries there: those are left out. */
  lemma CopyComplete<Contents(!new)>(flat0: map<Key, Entry>, data0: seq<Contents>, flat: map<Key, Entry>,
                                     data: seq<Contents>, to: nat, from: nat, start: nat, end: nat)
    requires Copied(flat0, data0, flat, data, to, from, start, end) && to != from
    requires forall p :: start <= p < end ==> At(flat0, Key(to, p)).Zero?
    ensures
      (forall p :: start <= p < end ==> SamePage(flat, data, to, from, p)) <==>
      (forall p :: start <= p < end ==> !At(flat0, Key(from, p)).Kept?)
  {
    forall p | start <= p < end
      ensures SamePage(flat, data, to, from, p) <==> !At(flat0, Key(from, p)).Kept?
    {
      assert CopiedAt(flat0, data0, flat, data, to, from, start, end, Key(from, p));
      assert CopiedAt(flat0, data0, flat, data, to, from, start, end, Key(to, p));
    }
  }

  lemma StepIsCopy<Contents(!new)>(ref: seq<int>, free: set<nat>, tables: set<nat>, flat: map<Key, Entry>,
                                   data: seq<Contents>, to: nat, from: nat, v: nat, g: nat)
    requires RefsOk(ref, free, tables, flat) && |data| == |ref| && g in free && At(flat, Key(from, v)).Map?
      && to != from
    ensures
      var e := flat[Key(from, v)];
      && e.frame < |data| && g < |data|
      && StepCopies(flat, data, flat[Key(to, v) := Map(g, e.perm)], data[g := data[e.frame]], to, from, v)
  {
    MappedIsUsed(ref, free, tables, flat, Key(from, v));
    var e := flat[Key(from, v)];
    var flat', data' := flat[Key(to, v) := Map(g, e.perm)], data[g := data[e.frame]];
    assert CountOk(ref, flat, g) && Users(flat, g) == {};
    assert Users(flat', g) == {Key(to, v)} by {
      SetUsers(flat, Key(to, v), Map(g, e.perm), g);
    }
    forall k | k != Key(to, v)
      ensures KeptAt(flat, data, flat', data', k)
    {
      if At(flat, k).Map? {
        MappedIsUsed(ref, free, tables, flat, k);
      }
    }
  }

  /** A copy made earlier stays when another page is copied. */
  lemma FreshStays<Contents(!new)>(flat0: map<Key, Entry>, data0: seq<Contents>, flat1: map<Key, Entry>,
                                   data1: seq<Contents>, flat: map<Key, Entry>, data: seq<Contents>, to: nat, from: nat,
                                   v: nat, p: nat)
    requires StepCopies(flat1, data1, flat, data, to, from, v) && FreshCopy(flat0, data0, flat1, data1, to, from, p)
      && p != v
    ensures FreshCopy(flat0, data0, flat, data, to, from, p)
  {
    assert KeptAt(flat1, data1, flat, data, Key(to, p));
    var f, g := flat1[Key(to, p)].frame, flat[Key(to, v)].frame;
    assert Key(to, p) in Users(flat, f) && Key(to, p) in Users(flat1, f);
    assert f != g;
    forall k
      ensures k in Users(flat, f) <==> k in Users(flat1, f)
    {
      if k != Key(to, v) {
        assert KeptAt(flat1, data1, flat, data, k);
      }
    }
  }

  /** Page v is copied if it is present, and nothing else is from there to w. */
  ghost predicate RoundCopies<Contents(!new)>(flat1: map<Key, Entry>, data1: seq<Contents>, flat: map<Key, Entry>,
                                              data: seq<Contents>, to: nat, from: nat, v: nat, w: nat) {
    && (if At(flat1, Key(from, v)).Map? then StepCopies(flat1, data1, flat, data, to, from, v)
        else flat == flat1 && data == data1)
    && forall p :: v < p < w ==> At(flat1, Key(from, p)).Zero?
  }

  /** What the next page of parent and child is has not changed yet. */
  lemma RoundKeeps<Contents(!new)>(flat0: map<Key, Entry>, data0: seq<Contents>, flat1: map<Key, Entry>,
                                   data1: seq<Contents>, to: nat, from: nat, start: nat, v: nat)
    requires Copied(flat0, data0, flat1, data1, to, from, start, v) && to != from
    ensures At(flat1, Key(from, v)) == At(flat0, Key(from, v))
    ensures At(flat1, Key(to, v)).Map? <==> At(flat0, Key(to, v)).Map?
  {
    assert CopiedAt(flat0, data0, flat1, data1, to, from, start, v, Key(from, v));
    assert CopiedAt(flat0, data0, flat1, data1, to, from, start, v, Key(to, v));
  }

  lemma CopiedNext<Contents(!new)>(flat0: map<Key, Entry>, data0: seq<Contents>, flat1: map<Key, Entry>,
                                   data1: seq<Contents>, flat: map<Key, Entry>, data: seq<Contents>, to: nat, from: nat,
                                   start: nat, v: nat, w: nat)
    requires Copied(flat0, data0, flat1, data1, to, from, start, v) && to != from && start <= v < w
    requires RoundCopies(flat1, data1, flat, data, to, from, v, w)
    ensures Copied(flat0, data0, flat, data, to, from, start, w)
    ensures forall p :: v < p < w ==> !At(flat0, Key(from, p)).Map?
  {
    forall p | v < p < w
      ensures !At(flat0, Key(from, p)).Map?
    {
      assert CopiedAt(flat0, data0, flat1, data1, to, from, start, v, Key(from, p));
    }
    forall k
      ensures CopiedAt(flat0, data0, flat, data, to, from, start, w, k)
    {
      assert CopiedAt(flat0, data0, flat1, data1, to, from, start, v, k);
      assert CopiedAt(flat0, data0, flat1, data1, to, from, start, v, Key(from, k.page));
      assert CopiedAt(flat0, data0, flat1, data1, to, from, start, v, Key(from, v));
      if flat != flat1 || data != data1 {
        if k == Key(to, v) {
          assert FreshCopy(flat0, data0, flat, data, to, from, v);
        } else {
          assert KeptAt(flat1, data1, flat, data, k);
          if k.dir == to && start <= k.page < v && At(flat0, Key(from, k.page)).Map? {
            FreshStays(flat0, data0, flat1, data1, flat, data, to, from, v, k.page);
          }
        }
      }
    }
  }

  /** What copy_range skipped beyond the end was nothing. */
  lemma CopiedLess<Contents(!new)>(flat0: map<Key, Entry>, data0: seq<Contents>, flat: map<Key, Entry>,
                                   data: seq<Contents>, to: nat, from: nat, start: nat, v: nat, end: nat)
    requires Copied(flat0, data0, flat, data, to, from, start, v) && end <= v
    requires forall p :: end <= p < v ==> !At(flat0, Key(from, p)).Map?
    ensures Copied(flat0, data0, flat, data, to, from, start, end)
  {
    forall k
      ensures CopiedAt(flat0, data0, flat, data, to, from, start, end, k)
    {
      assert CopiedAt(flat0, data0, flat, data, to, from, start, v, k);
    }
  }

  predicate HasTable(d: DirKey, dir: nat, m: Extent) {
    d.dir == dir && Pdx(m.start) <= d.index < Pdx(m.end + ENTRIES - 1)
  }

  /** One of the first n vmas reaches page table d. */
  ghost predicate Owned(d: DirKey, dir: nat, vmas: seq<Extent>, n: nat)
    requires n <= |vmas|
  {
    exists i :: 0 <= i < n && HasTable(d, dir, vmas[i])
  }

  ghost predicate InVmas(k: Key, dir: nat, vmas: seq<Extent>, n: nat)
    requires n <= |vmas|
  {
    exists i :: 0 <= i < n && InVma(k, dir, vmas[i])
  }

  /** The present pages in the page tables that the vmas reach are in vmas. */
  ghost predicate Tidy(flat: map<Key, Entry>, dir: nat, vmas: seq<Extent>) {
    forall k :: k in flat && flat[k].Map? && Owned(DirKeyOf(k), dir, vmas, |vmas|) ==> InVmas(k, dir, vmas, |vmas|)
  }

  ghost predicate NoPresent(flat: map<Key, Entry>, dir: nat, vmas: seq<Extent>) {
    forall k :: k in flat && Owned(DirKeyOf(k), dir, vmas, |vmas|) ==> !flat[k].Map?
  }

  /** The flat map without the present pages of the first n vmas. */
  ghost function UnmappedAll(flat: map<Key, Entry>, dir: nat, vmas: seq<Extent>, n: nat): map<Key, Entry>
    requires n <= |vmas|
  {
    map k | k in flat && !(flat[k].Map? && InVmas(k, dir, vmas, n)) :: flat[k]
  }

  lemma UnmappedMore(flat: map<Key, Entry>, dir: nat, vmas: seq<Extent>, i: nat)
    requires i < |vmas|
    ensures
      Unmapped(UnmappedAll(flat, dir, vmas, i), dir, vmas[i].start, vmas[i].end) == UnmappedAll(flat, dir, vmas, i + 1)
  {
    assert forall k :: InVmas(k, dir, vmas, i + 1) <==> InVmas(k, dir, vmas, i) || InVma(k, dir, vmas[i]);
  }

  lemma NothingPresent(flat: map<Key, Entry>, dir: nat, vmas: seq<Extent>)
    requires Tidy(flat, dir, vmas)
    ensures NoPresent(UnmappedAll(flat, dir, vmas, |vmas|), dir, vmas)
  {
  }

  ghost function PdeLess(pde: map<DirKey, nat>, dir: nat, vmas: seq<Extent>, n: nat): map<DirKey, nat>
    requires n <= |vmas|
  {
    map d | d in pde && !Owned(d, dir, vmas, n) :: pde[d]
  }

  ghost function FlatLess(flat: map<Key, Entry>, dir: nat, vmas: seq<Extent>, n: nat): map<Key, Entry>
    requires n <= |vmas|
  {
    map k | k in flat && !Owned(DirKeyOf(k), dir, vmas, n) :: flat[k]
  }

  /** Frame f was the page table of a directory entry that one of the first n vmas reaches. */
  ghost predicate TableWent(pde: map<DirKey, nat>, dir: nat, vmas: seq<Extent>, n: nat, f: nat)
    requires n <= |vmas|
  {
    exists d :: d in pde && Owned(d, dir, vmas, n) && pde[d] == f
  }

  /** The page tables that the first n vmas reach went, with their entries, and their frames are free. */
  ghost predicate TablesGone(pde0: map<DirKey, nat>, flat0: map<Key, Entry>, free0: set<nat>, dir: nat,
                             vmas: seq<Extent>, n: nat, pde: map<DirKey, nat>, flat: map<Key, Entry>, free: set<nat>)
    requires n <= |vmas|
  {
    && pde == PdeLess(pde0, dir, vmas, n) && flat == FlatLess(flat0, dir, vmas, n)
    && forall f {:trigger TableWent(pde0, dir, vmas, n, f)} :: f in free <==>
       f in free0 || TableWent(pde0, dir, vmas, n, f)
  }

  lemma NoneGone(pde: map<DirKey, nat>, flat: map<Key, Entry>, free: set<nat>, dir: nat, vmas: seq<Extent>)
    ensures TablesGone(pde, flat, free, dir, vmas, 0, pde, flat, free)
  {
    assert forall d :: !Owned(d, dir, vmas, 0);
  }

  lemma NoneLeft(flat0: map<Key, Entry>, flat: map<Key, Entry>, dir: nat, vmas: seq<Extent>, i: nat)
    requires i < |vmas| && NoPresent(flat0, dir, vmas) && flat == FlatLess(flat0, dir, vmas, i)
    ensures NoneMapped(flat, dir, Pdx(vmas[i].start), Pdx(vmas[i].end + ENTRIES - 1))
  {
    forall k | k in flat && InTables(DirKeyOf(k), dir, Pdx(vmas[i].start), Pdx(vmas[i].end + ENTRIES - 1))
      ensures !flat[k].Map?
    {
      assert HasTable(DirKeyOf(k), dir, vmas[i]);
      assert Owned(DirKeyOf(k), dir, vmas, |vmas|);
    }
  }

  lemma OwnedNext(d: DirKey, dir: nat, vmas: seq<Extent>, i: nat)
    requires i < |vmas|
    ensures
      Owned(d, dir, vmas, i + 1) <==>
        Owned(d, dir, vmas, i) || InTables(d, dir, Pdx(vmas[i].start), Pdx(vmas[i].end + ENTRIES - 1))
  {
    assert HasTable(d, dir, vmas[i]) <==> InTables(d, dir, Pdx(vmas[i].start), Pdx(vmas[i].end + ENTRIES - 1));
  }

  lemma TablesGoneNext(pde0: map<DirKey, nat>, flat0: map<Key, Entry>, free0: set<nat>, dir: nat, vmas: seq<Extent>,
                       i: nat, pde1: map<DirKey, nat>, flat1: map<Key, Entry>, free1: set<nat>, pde: map<DirKey, nat>,
                       flat: map<Key, Entry>, free: set<nat>)
    requires i < |vmas| && TablesGone(pde0, flat0, free0, dir, vmas, i, pde1, flat1, free1)
    requires Exited(pde1, flat1, free1, dir, Pdx(vmas[i].start), Pdx(vmas[i].end + ENTRIES - 1), pde, flat, free)
    ensures TablesGone(pde0, flat0, free0, dir, vmas, i + 1, pde, flat, free)
  {
    var lo, hi := Pdx(vmas[i].start), Pdx(vmas[i].end + ENTRIES - 1);
    forall d: DirKey
      ensures Owned(d, dir, vmas, i + 1) <==> Owned(d, dir, vmas, i) || InTables(d, dir, lo, hi)
    {
      OwnedNext(d, dir, vmas, i);
    }
    assert pde == PdeLess(pde0, dir, vmas, i + 1) && flat == FlatLess(flat0, dir, vmas, i + 1);
    forall f
      ensures f in free <==> f in free0 || TableWent(pde0, dir, vmas, i + 1, f)
    {
      assert f in free1 <==> f in free0 || TableWent(pde0, dir, vmas, i, f);
      if f in FramesOf(pde1, dir, lo, hi) {
        var d :| d in pde1 && InTables(d, dir, lo, hi) && pde1[d] == f;
        assert d in pde0 && Owned(d, dir, vmas, i + 1) && pde0[d] == f;
      }
      if TableWent(pde0, dir, vmas, i + 1, f) {
        var d :| d in pde0 && Owned(d, dir, vmas, i + 1) && pde0[d] == f;
        if !Owned(d, dir, vmas, i) {
          assert d in pde1 && InTables(d, dir, lo, hi) && f in FramesOf(pde1, dir, lo, hi);
        }
      }
    }
  }

  /** What exit_mmap leaves. */
  ghost predicate Left(pde0: map<DirKey, nat>, flat0: map<Key, Entry>, free0: set<nat>, dir: nat, vmas: seq<Extent>,
                       pde: map<DirKey, nat>, flat: map<Key, Entry>, free: set<nat>) {
    && pde == PdeLess(pde0, dir, vmas, |vmas|) && flat == FlatLess(flat0, dir, vmas, |vmas|)
    && forall f :: f in free <==>
         || f in free0
         || TableWent(pde0, dir, vmas, |vmas|, f)
         || (Users(flat0, f) != {} && Users(flat, f) == {})
  }

  lemma LeftOver(pde0: map<DirKey, nat>, flat0: map<Key, Entry>, free0: set<nat>, dir: nat, vmas: seq<Extent>,
                 flat1: map<Key, Entry>, free1: set<nat>, pde: map<DirKey, nat>, flat: map<Key, Entry>, free: set<nat>)
    requires (forall i :: 0 <= i < |vmas| ==> VmaOk(vmas[i])) && NoPresent(flat1, dir, vmas)
    requires Freed(free0, flat0, free1, flat1) && flat1 == UnmappedAll(flat0, dir, vmas, |vmas|)
    requires TablesGone(pde0, flat1, free1, dir, vmas, |vmas|, pde, flat, free)
    ensures Left(pde0, flat0, free0, dir, vmas, pde, flat, free)
  {
    forall k | InVmas(k, dir, vmas, |vmas|)
      ensures Owned(DirKeyOf(k), dir, vmas, |vmas|)
    {
      var i :| 0 <= i < |vmas| && InVma(k, dir, vmas[i]);
      assert HasTable(DirKeyOf(k), dir, vmas[i]);
    }
    assert flat == FlatLess(flat0, dir, vmas, |vmas|);
    forall f
      ensures Users(flat1, f) == Users(flat, f)
    {
    }
    forall f
      ensures f in free <==> f in free1 || TableWent(pde0, dir, vmas, |vmas|, f)
    {
      var went := TableWent(pde0, dir, vmas, |vmas|, f);
      assert f in free <==> f in free1 || went;
    }
  }

  /** The address space dir is gone: no pages and no page tables are left, the others have
      theirs, and what became free are its page tables and the frames that only it mapped. */
  ghost predicate Gone(pde0: map<DirKey, nat>, flat0: map<Key, Entry>, free0: set<nat>, dir: nat,
                       pde: map<DirKey, nat>, flat: map<Key, Entry>, free: set<nat>) {
    && flat == (map k | k in flat0 && k.dir != dir :: flat0[k])
    && pde == (map d | d in pde0 && d.dir != dir :: pde0[d])
    && forall f :: f in free <==>
         || f in free0
         || (exists d :: d in pde0 && d.dir == dir && pde0[d] == f)
         || (Users(flat0, f) != {} && forall k :: k in Users(flat0, f) ==> k.dir == dir)
  }

  /** exit_mmap leaves nothing of the address space exactly when its vmas reach all its page tables. */
  lemma GoneExactly(pde0: map<DirKey, nat>, table0: map<nat, seq<Entry>>, flat0: map<Key, Entry>, free0: set<nat>,
                    dir: nat, vmas: seq<Extent>, pde: map<DirKey, nat>, flat: map<Key, Entry>, free: set<nat>)
    requires Refines(pde0, table0, flat0) && Left(pde0, flat0, free0, dir, vmas, pde, flat, free)
    ensures
      Gone(pde0, flat0, free0, dir, pde, flat, free) <==>
        forall d :: d in pde0 && d.dir == dir ==> Owned(d, dir, vmas, |vmas|)
  {
    if forall d :: d in pde0 && d.dir == dir ==> Owned(d, dir, vmas, |vmas|) {
      forall k | k in flat0
        ensures k.dir == dir <==> Owned(DirKeyOf(k), dir, vmas, |vmas|)
      {
        assert Walk(pde0, table0, k) == At(flat0, k);
      }
      forall f
        ensures TableWent(pde0, dir, vmas, |vmas|, f) <==> exists d :: d in pde0 && d.dir == dir && pde0[d] == f
        ensures Users(flat, f) == {} <==> forall k :: k in Users(flat0, f) ==> k.dir == dir
      {
        UsersLeft(flat0, flat, dir, f);
      }
      assert Gone(pde0, flat0, free0, dir, pde, flat, free);
    } else {
      var d :| d in pde0 && d.dir == dir && !Owned(d, dir, vmas, |vmas|);
      assert d in pde;
    }
  }

  lemma UsersLeft(flat0: map<Key, Entry>, flat: map<Key, Entry>, dir: nat, f: nat)
    requires flat == map k | k in flat0 && k.dir != dir :: flat0[k]
    ensures Users(flat, f) == {} <==> forall k :: k in Users(flat0, f) ==> k.dir == dir
  {
    if Users(flat, f) == {} {
      forall k | k in Users(flat0, f)
        ensures k.dir == dir
      {
        assert k !in Users(flat, f);
      }
    }
    if k :| k in Users(flat, f) {
      assert k in Users(flat0, f) && k.dir != dir;
    }
  }

  /** The pages of a vma. */
  datatype Extent = Extent(start: nat, end: nat)

  predicate VmaOk(m: Extent) {
    0 < m.start < m.end <= USER_PAGES
  }

  predicate InVma(k: Key, dir: nat, m: Extent) {
    k.dir == dir && m.start <= k.page < m.end
  }

  /** What exit_range has done once the page tables lo .. i are gone. */
  ghost predicate Exited(pde0: map<DirKey, nat>, flat0: map<Key, Entry>, free0: set<nat>, dir: nat, lo: nat, i: nat,
                         pde: map<DirKey, nat>, flat: map<Key, Entry>, free: set<nat>) {
    flat == Without(flat0, dir, lo, i) && pde == WithoutTables(pde0, dir, lo, i)
      && free == free0 + FramesOf(pde0, dir, lo, i)
  }

  lemma ExitedNext(pde0: map<DirKey, nat>, flat0: map<Key, Entry>, free0: set<nat>, dir: nat, lo: nat, i: nat, hi: nat,
                   pde1: map<DirKey, nat>, flat1: map<Key, Entry>, free1: set<nat>,
                   pde: map<DirKey, nat>, flat: map<Key, Entry>, free: set<nat>)
    requires lo <= i < hi && NoneMapped(flat0, dir, lo, hi)
    requires Exited(pde0, flat0, free0, dir, lo, i, pde1, flat1, free1)
      && Exited(pde1, flat1, free1, dir, i, i + 1, pde, flat, free)
    ensures Exited(pde0, flat0, free0, dir, lo, i + 1, pde, flat, free)
  {
    OneMoreTable(pde0, flat0, dir, lo, i, hi);
  }

  /** Table i starts below end just when it is before the last one that end reaches. */
  lemma LastTable(i: nat, end: nat)
    ensures i * 1024 < end <==> i < Pdx(end + ENTRIES - 1)
  {
  }

  /** Directory entry hi is the first that exit_range does not reach. */
  predicate LastIs(end: nat, hi: nat) {
    hi == Pdx(end + ENTRIES - 1)
  }

  lemma FirstTable(start: nat, end: nat)
    requires start < end
    ensures Pdx(start) < Pdx(end + ENTRIES - 1)
  {
  }

  /** The end of the loop in exit_range. */
  method MoreTables(i: nat, end: nat, ghost hi: nat) returns (more: bool)
    requires LastIs(end, hi) && i <= hi
    ensures more <==> i != hi
  {
    LastTable(i, end);
    more := i * 1024 < end;
  }

  /** The directory entries lo .. hi of an address space. */
  ghost predicate InTables(d: DirKey, dir: nat, lo: nat, hi: nat) {
    d.dir == dir && lo <= d.index < hi
  }

  /** The flat map without the pages of some page tables. */
  ghost function Without(flat: map<Key, Entry>, dir: nat, lo: nat, hi: nat): map<Key, Entry> {
    map k | k in flat && !InTables(DirKeyOf(k), dir, lo, hi) :: flat[k]
  }

  ghost function WithoutTables(pde: map<DirKey, nat>, dir: nat, lo: nat, hi: nat): map<DirKey, nat> {
    map d | d in pde && !InTables(d, dir, lo, hi) :: pde[d]
  }

  /** The frames of some page tables. */
  ghost function FramesOf(pde: map<DirKey, nat>, dir: nat, lo: nat, hi: nat): set<nat> {
    set d | d in pde && InTables(d, dir, lo, hi) :: pde[d]
  }

  lemma NoTables(pde: map<DirKey, nat>, flat: map<Key, Entry>, dir: nat, lo: nat)
    ensures Without(flat, dir, lo, lo) == flat && WithoutTables(pde, dir, lo, lo) == pde
      && FramesOf(pde, dir, lo, lo) == {}
  {
  }

  lemma OneTable(pde: map<DirKey, nat>, flat: map<Key, Entry>, d: DirKey)
    ensures WithoutTables(pde, d.dir, d.index, d.index + 1) == pde - {d}
    ensures FramesOf(pde, d.dir, d.index, d.index + 1) == if d in pde then {pde[d]} else {}
    ensures Without(flat, d.dir, d.index, d.index + 1) == map k | k in flat && DirKeyOf(k) != d :: flat[k]
  {
    assert forall e {:trigger InTables(e, d.dir, d.index, d.index + 1)} ::
      InTables(e, d.dir, d.index, d.index + 1) <==> e == d;
  }

  /** No page of some page tables is present. */
  ghost predicate NoneMapped(flat: map<Key, Entry>, dir: nat, lo: nat, hi: nat) {
    forall k :: k in flat && InTables(DirKeyOf(k), dir, lo, hi) ==> !flat[k].Map?
  }

  lemma OneMoreTable(pde: map<DirKey, nat>, flat: map<Key, Entry>, dir: nat, lo: nat, i: nat, hi: nat)
    requires lo <= i < hi && NoneMapped(flat, dir, lo, hi)
    ensures NoneMapped(Without(flat, dir, lo, i), dir, i, i + 1)
    ensures Without(Without(flat, dir, lo, i), dir, i, i + 1) == Without(flat, dir, lo, i + 1)
    ensures WithoutTables(WithoutTables(pde, dir, lo, i), dir, i, i + 1) == WithoutTables(pde, dir, lo, i + 1)
    ensures FramesOf(pde, dir, lo, i) + FramesOf(WithoutTables(pde, dir, lo, i), dir, i, i + 1) ==
      FramesOf(pde, dir, lo, i + 1)
  {
    var rest := WithoutTables(pde, dir, lo, i);
    forall f
      ensures f in FramesOf(pde, dir, lo, i + 1) <==>
        f in FramesOf(pde, dir, lo, i) || f in FramesOf(rest, dir, i, i + 1)
    {
      if f in FramesOf(pde, dir, lo, i + 1) {
        var d :| d in pde && InTables(d, dir, lo, i + 1) && pde[d] == f;
        assert InTables(d, dir, lo, i) || (d in rest && InTables(d, dir, i, i + 1) && rest[d] == f);
      }
      if f in FramesOf(rest, dir, i, i + 1) {
        var d :| d in rest && InTables(d, dir, i, i + 1) && rest[d] == f;
        assert d in pde && InTables(d, dir, lo, i + 1) && pde[d] == f;
      }
      if f in FramesOf(pde, dir, lo, i) {
        var d :| d in pde && InTables(d, dir, lo, i) && pde[d] == f;
        assert InTables(d, dir, lo, i + 1);
      }
    }
  }

  lemma NoneInTable(flat: map<Key, Entry>, dir: nat, i: nat)
    requires NoneMapped(flat, dir, i, i + 1)
    ensures forall k :: k in flat && DirKeyOf(k) == DirKey(dir, i) ==> !flat[k].Map?
  {
    assert forall k :: DirKeyOf(k) == DirKey(dir, i) ==> InTables(DirKeyOf(k), dir, i, i + 1);
  }

  lemma NoTableNoEntries(pde: map<DirKey, nat>, table: map<nat, seq<Entry>>, flat: map<Key, Entry>, d: DirKey)
    requires Refines(pde, table, flat) && d !in pde
    ensures Without(flat, d.dir, d.index, d.index + 1) == flat
  {
    forall k | k in flat
      ensures DirKeyOf(k) != d
    {
      assert Walk(pde, table, k) == At(flat, k);
    }
    OneTable(pde, flat, d);
  }

  lemma DropTable(pde: map<DirKey, nat>, table: map<nat, seq<Entry>>, ref: seq<int>, free: set<nat>,
                  flat: map<Key, Entry>, d: DirKey)
    requires TablesOk(pde, table) && Refines(pde, table, flat) && table.Keys == pde.Values
      && RefsOk(ref, free, table.Keys, flat)
    requires d in pde && forall k :: k in flat && DirKeyOf(k) == d ==> !flat[k].Map?
    ensures
      var f, flat' := pde[d], Without(flat, d.dir, d.index, d.index + 1);
      && f < |ref| && f !in free
      && TablesOk(pde - {d}, table - {f}) && Refines(pde - {d}, table - {f}, flat')
         && (table - {f}).Keys == (pde - {d}).Values
      && RefsOk(ref[f := 0], free + {f}, (table - {f}).Keys, flat')
  {
    OneTable(pde, flat, d);
    var f, flat' := pde[d], map k | k in flat && DirKeyOf(k) != d :: flat[k];
    var pde', table' := pde - {d}, table - {f};
    assert forall g :: Users(flat', g) == Users(flat, g);
    forall k
      ensures Walk(pde', table', k) == At(flat', k)
    {
      assert Walk(pde, table, k) == At(flat, k);
    }
    forall g
      ensures g in table' <==> g in pde'.Values
    {
      if g in table' {
        var e :| e in pde && pde[e] == g;
        assert e in pde' && pde'[e] == g;
      }
    }
    assert Users(flat', f) == {};
    forall g: nat | g < |ref| && g !in table'
      ensures CountOk(ref[f := 0], flat', g)
    {
      assert g != f ==> CountOk(ref, flat, g);
    }
  }

  /** Freeing a page table keeps the reference counts right exactly when nothing in it is present. */
  lemma FreeNeedsUnmapped(pde: map<DirKey, nat>, table: map<nat, seq<Entry>>, ref: seq<int>, free: set<nat>,
                          flat: map<Key, Entry>, d: DirKey)
    requires TablesOk(pde, table) && Refines(pde, table, flat) && table.Keys == pde.Values
    requires RefsOk(ref, free, table.Keys, flat) && d in pde
    ensures
      var f, flat' := pde[d], Without(flat, d.dir, d.index, d.index + 1);
      RefsOk(ref[f := 0], free + {f}, (table - {f}).Keys, flat') <==>
        forall k :: k in flat && DirKeyOf(k) == d ==> !flat[k].Map?
  {
    OneTable(pde, flat, d);
    var f, flat' := pde[d], Without(flat, d.dir, d.index, d.index + 1);
    if forall k :: k in flat && DirKeyOf(k) == d ==> !flat[k].Map? {
      DropTable(pde, table, ref, free, flat, d);
    } else {
      var k :| k in flat && DirKeyOf(k) == d && flat[k].Map?;
      var g := flat[k].frame;
      assert CountOk(ref, flat, g);
      assert k in Users(flat, g) && k !in Users(flat', g);
      SubsetSize(Users(flat', g), Users(flat, g));
      assert !CountOk(ref[f := 0], flat', g);
    }
  }

  /** The frames that become free are those that lose their last user. */
  ghost predicate Freed(free: set<nat>, flat: map<Key, Entry>, free': set<nat>, flat': map<Key, Entry>) {
    forall f :: f in free' <==> f in free || (Users(flat, f) != {} && Users(flat', f) == {})
  }

  /** Clearing one page, if it is present. */
  lemma UnmappedOne(flat: map<Key, Entry>, k: Key)
    ensures Unmapped(flat, k.dir, k.page, k.page + 1) == if At(flat, k).Map? then flat - {k} else flat
  {
  }

  /** What a round of unmap_range clears beyond the end is nothing. */
  lemma UnmappedLess(flat: map<Key, Entry>, dir: nat, v: nat, w: nat, end: nat)
    requires v < end && (w > v + 1 ==> Unmapped(flat, dir, v, w) == flat)
    ensures v < w ==> Unmapped(flat, dir, v, if w < end then w else end) == Unmapped(flat, dir, v, w)
  {
    if v + 1 < w && end <= w {
      forall k | k in flat
        ensures k in Unmapped(flat, dir, v, end)
      {
        assert k in Unmapped(flat, dir, v, w);
      }
    }
  }

  lemma RemoveFreed(free: set<nat>, flat: map<Key, Entry>, k: Key)
    ensures Freed(free, flat, free, flat)
    ensures At(flat, k).Map? ==>
      Freed(free, flat, free + if Users(flat, flat[k].frame) == {k} then {flat[k].frame} else {}, flat - {k})
  {
    UnmapUsers(flat, k);
    if At(flat, k).Map? {
      assert k in Users(flat, flat[k].frame);
    }
  }

  lemma FreedTwice(free: set<nat>, flat: map<Key, Entry>, free1: set<nat>, flat1: map<Key, Entry>, free2: set<nat>,
                   flat2: map<Key, Entry>)
    requires Freed(free, flat, free1, flat1) && Freed(free1, flat1, free2, flat2)
    requires flat2.Keys <= flat1.Keys <= flat.Keys
    requires (forall k :: k in flat1 ==> flat1[k] == flat[k]) && (forall k :: k in flat2 ==> flat2[k] == flat1[k])
    ensures Freed(free, flat, free2, flat2)
  {
    forall f
      ensures Users(flat2, f) <= Users(flat1, f) <= Users(flat, f)
    {
    }
  }

  lemma UnmappedTwice(flat: map<Key, Entry>, dir: nat, start: nat, v: nat, w: nat)
    requires start <= v <= w
    ensures Unmapped(Unmapped(flat, dir, start, v), dir, v, w) == Unmapped(flat, dir, start, w)
  {
  }

  /** The flat map without the present entries of a range. */
  ghost function Unmapped(flat: map<Key, Entry>, dir: nat, start: nat, end: nat): map<Key, Entry> {
    map k | k in flat && !(k.dir == dir && start <= k.page < end && flat[k].Map?) :: flat[k]
  }

  /** Removing one entry takes the last user from at most its own frame. */
  lemma UnmapUsers(flat: map<Key, Entry>, k: Key)
    ensures At(flat, k).Map? ==> forall f ::
      Users(flat - {k}, f) == Users(flat, f) - (if f == flat[k].frame then {k} else {})
  {
  }

  /** Pages without a page table have no entries. */
  lemma NothingMapped(pde: map<DirKey, nat>, table: map<nat, seq<Entry>>, flat: map<Key, Entry>, dir: nat, v: nat,
                      w: nat)
    requires Refines(pde, table, flat) && DirKey(dir, Pdx(v)) !in pde && w == (v / ENTRIES + 1) * ENTRIES
    ensures forall k: Key :: k.dir == dir && v <= k.page < w ==> k !in flat
  {
    forall k: Key | k.dir == dir && v <= k.page < w
      ensures k !in flat
    {
      assert Pdx(k.page) == Pdx(v);
      assert Walk(pde, table, k) == At(flat, k);
    }
  }

  lemma NewTableRefs(ref: seq<int>, free: set<nat>, table: map<nat, seq<Entry>>, flat: map<Key, Entry>, f: nat)
    requires RefsOk(ref, free, table.Keys, flat) && f in free
    ensures RefsOk(ref[f := 1], free - {f}, table[f := seq(ENTRIES, i => Zero)].Keys, flat)
  {
    forall k | k in flat && flat[k].Map?
      ensures flat[k].frame != f
    {
      MappedIsUsed(ref, free, table.Keys, flat, k);
    }
    forall g: nat | g < |ref| && g !in table && g != f
      ensures CountOk(ref[f := 1], flat, g)
    {
      assert CountOk(ref, flat, g);
    }
  }

  lemma NewTableValues(pde: map<DirKey, nat>, d: DirKey, f: nat)
    requires d !in pde
    ensures pde[d := f].Values == pde.Values + {f}
  {
    var pde' := pde[d := f];
    assert pde'[d] == f && forall e :: e in pde ==> pde'[e] == pde[e];
  }
}
