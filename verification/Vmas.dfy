/** The memory areas of an address space and their one-entry cache (vmm.c). */
module Vmas {
  import opened Basics

  const WORD: int := 0x1_0000_0000
  const USERBASE: int := 0x20_0000
  const USERTOP: int := 0xB000_0000
  const KERNBASE: int := 0xC000_0000
  const KERNTOP: int := 0xF800_0000

  /** vm_flags as the bits that user_mem_check looks at. */
  datatype Vma = Vma(start: int, end: int, read: bool, write: bool, stack: bool)

  predicate UserAccess(start: int, end: int) {
    USERBASE <= start < end <= USERTOP
  }

  predicate Holds(v: Vma, addr: int) {
    v.start <= addr < v.end
  }

  predicate Overlap(v: Vma, w: Vma) {
    v.start < w.end && w.start < v.end
  }

  /** In address order, none empty, none overlapping. */
  ghost predicate Sorted(vs: seq<Vma>) {
    && (forall i :: 0 <= i < |vs| ==> vs[i].start < vs[i].end)
    && (forall i, j :: 0 <= i < j < |vs| ==> vs[i].end <= vs[j].start)
  }

  /** The answer that find_vma owes, whatever its cache holds. */
  ghost predicate IsVmaAt(vs: seq<Vma>, addr: int, r: Option<Vma>) {
    match r
    case Some(v) => v in vs && Holds(v, addr)
    case None => forall i :: 0 <= i < |vs| ==> !Holds(vs[i], addr)
  }

  lemma OneVmaAt(vs: seq<Vma>, addr: int, r: Option<Vma>, s: Option<Vma>)
    requires Sorted(vs) && IsVmaAt(vs, addr, r) && IsVmaAt(vs, addr, s)
    ensures r == s
  {
    if r.Some? {
      var i :| 0 <= i < |vs| && vs[i] == r.value;
      if s.Some? {
        var j :| 0 <= j < |vs| && vs[j] == s.value;
      }
    }
  }

  /** A process may access the byte at addr: it is in an area with the permission, and for
      a write not in the first page of a stack. */
  ghost predicate May(vs: seq<Vma>, addr: int, write: bool) {
    exists i :: 0 <= i < |vs| && Holds(vs[i], addr) && Permits(vs[i], addr, write)
  }

  predicate Permits(v: Vma, addr: int, write: bool) {
    (if write then v.write else v.read) && !(write && v.stack && addr < v.start + PGSIZE)
  }

  datatype Mapped = Ok | Inval | NoMem | Stopped

  function RoundDown(a: int): int {
    a - a % PGSIZE
  }

  /** ROUNDUP on 32-bit words. */
  function RoundUp(a: int): int {
    RoundDown((a + PGSIZE - 1) % WORD)
  }

  /** The area that mm_map makes for len bytes from addr, in words of 32 bits: it starts with the page
      of addr and ends with the page of the last byte, or at 0 when that end is no word. */
  ghost predicate IsArea(addr: int, len: int, v: Vma) {
    var sum := (addr + len) % 0x1_0000_0000;
    && v.start % 4096 == 0 && v.start <= addr < v.start + 4096
    && v.end % 4096 == 0 && if sum + 4096 > 0x1_0000_0000 then v.end == 0 else v.end - 4096 < sum <= v.end
  }

  lemma AreaIs(addr: int, len: int, v: Vma)
    requires 0 <= addr < WORD && 0 <= len < WORD
    requires v.start == RoundDown(addr) && v.end == RoundUp((addr + len) % WORD)
    ensures IsArea(addr, len, v)
  {
  }

  class Mm {
    var vmas: seq<Vma>           // mmap_list
    var cache: Option<Vma>       // mmap_cache
    var mapCount: int

    ghost predicate Valid()
      reads this
    {
      Sorted(vmas) && (cache.Some? ==> cache.value in vmas) && mapCount == |vmas|
    }

    /** mm_create. */
    constructor ()
      ensures Valid() && vmas == []
    {
      vmas, cache, mapCount := [], None, 0;
    }

    /** find_vma. */
    method FindVma(addr: int) returns (r: Option<Vma>)
      requires Valid()
      modifies `cache
      ensures Valid() && IsVmaAt(vmas, addr, r)
    {
      r := cache;
      if !(r.Some? && r.value.start <= addr && r.value.end > addr) {
        var found, i := false, 0;
        while i < |vmas|
          invariant 0 <= i <= |vmas| && !found
          invariant forall j :: 0 <= j < i ==> !Holds(vmas[j], addr)
        {
          r := Some(vmas[i]);
          if r.value.start <= addr && addr < r.value.end {
            found := true;
            break;
          }
          i := i + 1;
        }
        if !found {
          r := None;
        }
      }
      if r.Some? {
        cache := r;
      }
    }

    /** insert_vma_struct; false when one of its assertions about overlap fails, which is
        exactly when the area is empty or overlaps some area. */
    method InsertVma(v: Vma) returns (ok: bool)
      requires Valid()
      modifies `vmas, `mapCount
      ensures ok <==> v.start < v.end && forall i :: 0 <= i < |old(vmas)| ==> !Overlap(old(vmas)[i], v)
      ensures !ok ==> vmas == old(vmas) && mapCount == old(mapCount)
      ensures ok ==> Valid() && exists k: nat :: k <= |old(vmas)| && vmas == Insert(old(vmas), k, v)
    {
      if v.start >= v.end {
        return false;
      }
      var k := 0;
      while k < |vmas| && vmas[k].start <= v.start
        invariant 0 <= k <= |vmas| && forall i :: 0 <= i < k ==> vmas[i].start <= v.start
      {
        k := k + 1;
      }
      if k > 0 && vmas[k - 1].end > v.start {
        assert Overlap(vmas[k - 1], v);
        return false;
      }
      if k < |vmas| && v.end > vmas[k].start {
        assert Overlap(vmas[k], v);
        return false;
      }
      assert forall i :: 0 <= i < k - 1 ==> vmas[i].end <= vmas[k - 1].start;
      assert forall i :: k < i < |vmas| ==> vmas[k].end <= vmas[i].start;
      ghost var was := vmas;
      vmas := vmas[..k] + [v] + vmas[k..];
      assert vmas == Insert(was, k, v);
      InsertKeeps(was, k, v);
      mapCount := mapCount + 1;
      ok := true;
    }

    /** mm_map. Only the first address of the range is looked up: a range that overlaps an
        area further on stops the kernel. */
    method MmMap(addr: int, len: int, read: bool, write: bool, stack: bool, memory: bool)
      returns (r: Mapped, ghost v: Vma)
      requires Valid() && 0 <= addr < WORD && 0 <= len < WORD
      modifies this
      ensures v == Vma(v.start, v.end, read, write, stack) && IsArea(addr, len, v)
      ensures 0 < len && addr + len + PGSIZE <= WORD ==> v.start <= addr && v.end - PGSIZE < addr + len <= v.end
      ensures
        var fits := USERBASE <= v.start < v.end <= USERTOP;
        var free := forall i :: 0 <= i < |old(vmas)| ==> !Overlap(old(vmas)[i], v);
        && (r == Inval <==> !fits || exists i :: 0 <= i < |old(vmas)| && Holds(old(vmas)[i], v.start))
        && (r == Ok <==> fits && free && memory)
        && (r == Stopped <==>
             fits && !free && memory && forall i :: 0 <= i < |old(vmas)| ==> !Holds(old(vmas)[i], v.start))
      ensures r != Stopped ==> Valid()
      ensures r == Ok ==> exists k: nat :: k <= |old(vmas)| && vmas == Insert(old(vmas), k, v)
      ensures r != Ok ==> vmas == old(vmas)
    {
      var start, end := RoundDown(addr), RoundUp((addr + len) % WORD);
      v := Vma(start, end, read, write, stack);
      AreaIs(addr, len, v);
      if !UserAccess(start, end) {
        return Inval, v;
      }
      var found := FindVma(start);
      if found.Some? && end > found.value.start {
        assert exists i :: 0 <= i < |vmas| && vmas[i] == found.value;
        return Inval, v;
      }
      if !memory {
        return NoMem, v;
      }
      var ok := InsertVma(Vma(start, end, read, write, stack));
      if !ok {
        return Stopped, v;
      }
      r := Ok;
    }

    /** One round of dup_mmap, for area i of the parent; memory says whether vma_create gets one. */
    method DupVma(from: Mm, i: nat, memory: bool) returns (ok: bool)
      requires Valid() && from.Valid() && this != from && i < |from.vmas| && vmas == from.vmas[i + 1..]
      modifies `vmas, `mapCount
      ensures Valid() && ok == memory && vmas == if ok then from.vmas[i..] else old(vmas)
    {
      if !memory {
        return false;
      }
      var done := InsertVma(from.vmas[i]);
      assert from.vmas[i..] == [from.vmas[i]] + from.vmas[i + 1..];
      assert done;
      FrontOnly(from.vmas[i + 1..], from.vmas[i], vmas);
      ok := true;
    }

    /** user_mem_check of an address space: exactly when every byte may be accessed. */
    method MemCheck(addr: int, len: int, write: bool) returns (ok: bool)
      requires Valid() && 0 <= addr < WORD && 0 <= len < WORD
      modifies `cache
      ensures Valid()
      ensures ok <==>
        USERBASE <= addr < addr + len <= USERTOP && forall a :: addr <= a < addr + len ==> May(vmas, a, write)
    {
      var start, end := addr, (addr + len) % WORD;
      if !UserAccess(start, end) {
        return false;
      }
      while start < end
        invariant Valid() && vmas == old(vmas) && addr <= start
        invariant forall a :: addr <= a < start && a < end ==> May(vmas, a, write)
        decreases end - start
      {
        var v := FindVma(start);
        if v.None? || start < v.value.start {
          assert !May(vmas, start, write);
          return false;
        }
        ghost var i :| 0 <= i < |vmas| && vmas[i] == v.value;
        OnlyThere(vmas, i, start, write);
        if !(if write then v.value.write else v.value.read) {
          assert !May(vmas, start, write);
          return false;
        }
        if write && v.value.stack {
          if start < v.value.start + PGSIZE {
            assert !May(vmas, start, write);
            return false;
          }
        }
        forall a | start <= a < v.value.end
          ensures May(vmas, a, write)
        {
          assert Holds(vmas[i], a) && Permits(vmas[i], a, write);
        }
        start := v.value.end;
      }
      ok := true;
    }
  }

  /** user_mem_check; without an address space it is kernel memory that is meant. */
  method UserMemCheck(mm: Mm?, addr: int, len: int, write: bool) returns (ok: bool)
    requires (mm != null ==> mm.Valid()) && 0 <= addr < WORD && 0 <= len < WORD
    modifies if mm == null then {} else {mm}
    ensures mm != null ==> mm.Valid() && mm.vmas == old(mm.vmas)
    ensures
      ok <==>
        if mm == null then KERNBASE <= addr < addr + len <= KERNTOP
        else USERBASE <= addr < addr + len <= USERTOP && forall a :: addr <= a < addr + len ==> May(mm.vmas, a, write)
  {
    if mm != null {
      ok := mm.MemCheck(addr, len, write);
    } else {
      var end := (addr + len) % WORD;
      ok := KERNBASE <= addr && addr < end && end <= KERNTOP;
    }
  }

  lemma InsertSorted(vs: seq<Vma>, k: nat, v: Vma)
    requires Sorted(vs) && k <= |vs| && v.start < v.end
    requires (forall i :: 0 <= i < k ==> vs[i].end <= v.start) && (forall i :: k <= i < |vs| ==> v.end <= vs[i].start)
    ensures Sorted(Insert(vs, k, v))
  {
  }

  lemma InsertKeeps(vs: seq<Vma>, k: nat, v: Vma)
    requires Sorted(vs) && k <= |vs| && v.start < v.end
    requires (k > 0 ==> vs[k - 1].end <= v.start) && (k < |vs| ==> v.end <= vs[k].start)
    ensures Sorted(Insert(vs, k, v)) && forall w :: w in vs ==> w in Insert(vs, k, v)
    ensures forall i :: 0 <= i < |vs| ==> !Overlap(vs[i], v)
  {
    assert forall i :: 0 <= i < k - 1 ==> vs[i].end <= vs[k - 1].start;
    assert forall i :: k < i < |vs| ==> vs[k].end <= vs[i].start;
    InsertSorted(vs, k, v);
    InsertHas(vs, k, v);
  }

  lemma InsertHas(vs: seq<Vma>, k: nat, v: Vma)
    requires k <= |vs|
    ensures forall w :: w in vs ==> w in Insert(vs, k, v)
  {
    forall w | w in vs
      ensures w in Insert(vs, k, v)
    {
      var i :| 0 <= i < |vs| && vs[i] == w;
      assert Insert(vs, k, v)[if i < k then i else i + 1] == w;
    }
  }

  lemma FirstStays(vs: seq<Vma>, k: nat, v: Vma)
    requires 0 < k <= |vs|
    ensures Insert(vs, k, v)[0] == vs[0]
  {
  }

  /** An area below all others goes to the front. */
  lemma FrontOnly(vs: seq<Vma>, v: Vma, r: seq<Vma>)
    requires Sorted([v] + vs) && Sorted(r) && exists k: nat :: k <= |vs| && r == Insert(vs, k, v)
    ensures r == [v] + vs
  {
    var k: nat :| k <= |vs| && r == Insert(vs, k, v);
    var l := [v] + vs;
    assert l[0] == v && (vs != [] ==> l[1] == vs[0]);
    assert r[k] == v;
    if k > 0 {
      FirstStays(vs, k, v);
    }
  }

  /** The area that holds an address decides about it. */
  lemma OnlyThere(vs: seq<Vma>, i: nat, addr: int, write: bool)
    requires Sorted(vs) && i < |vs| && Holds(vs[i], addr)
    ensures May(vs, addr, write) <==> Permits(vs[i], addr, write)
  {
    if May(vs, addr, write) {
      var j :| 0 <= j < |vs| && Holds(vs[j], addr) && Permits(vs[j], addr, write);
      assert j == i;
    }
  }
}
