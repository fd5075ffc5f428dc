/** The SLOB allocator (kmalloc.c): a circular list of free blocks in address order,
    threaded through the free memory itself. Addresses count units of 8 bytes. */
module Slob {
  import opened Basics
  import opened FreeBlocks

  const UNIT: nat := 8
  const PAGE_UNITS: nat := 512

  function SlobUnits(size: nat): nat {
    (size + UNIT - 1) / UNIT
  }

  /** u units of 8 bytes hold so many bytes, and one unit less would not. */
  predicate JustHold(u: int, bytes: nat) {
    8 * (u - 1) < bytes <= 8 * u
  }

  lemma UnitsHold(size: nat)
    requires size > 0
    ensures JustHold(SlobUnits(size), size)
    ensures forall u: nat :: u < SlobUnits(size) <==> 8 * u < size
  {
  }

  // ---------- the list in memory ----------

  /** The header of block i. */
  ghost predicate LinkedAt(bs: seq<Block>, units: map<nat, nat>, next: map<nat, nat>, i: nat)
    requires i < |bs|
  {
    bs[i].addr in units && units[bs[i].addr] == bs[i].size && bs[i].addr in next
  }

  /** Block i leads to the next one. */
  ghost predicate LeadsOn(bs: seq<Block>, next: map<nat, nat>, i: nat)
    requires i < |bs|
  {
    bs[i].addr in next && next[bs[i].addr] == bs[Succ(bs, i)].addr
  }

  /** units and next, as memory by address, hold the circular list bs. */
  ghost predicate Linked(bs: seq<Block>, units: map<nat, nat>, next: map<nat, nat>) {
    forall i :: 0 <= i < |bs| ==> LinkedAt(bs, units, next, i) && LeadsOn(bs, next, i)
  }

  /** The list bs, except for where block c leads. */
  ghost predicate LinkedBut(bs: seq<Block>, units: map<nat, nat>, next: map<nat, nat>, c: nat) {
    forall i :: 0 <= i < |bs| ==> LinkedAt(bs, units, next, i) && (i != c ==> LeadsOn(bs, next, i))
  }

  /** The block before position q around the circle. */
  function Pred(n: nat, q: nat): nat
    requires n > 0 && q <= n
  {
    if 0 < q < n then q - 1 else n - 1
  }

  /** The two tests of the search in slob_free hold at one block only: the one after which b belongs. */
  lemma Place(bs: seq<Block>, q: nat, b: Block, k: nat)
    requires Coalesced(bs) && k < |bs| && Between(bs, q, b)
    ensures
      var cur, nx := bs[k].addr, bs[Succ(bs, k)].addr;
      (cur < b.addr < nx || (cur >= nx && (b.addr > cur || b.addr < nx))) <==> k == Pred(|bs|, q)
  {
    assert q > 0 ==> bs[q - 1].addr < b.addr;
  }

  lemma GrowLinks(bs: seq<Block>, units: map<nat, nat>, next: map<nat, nat>, q: nat, b: Block)
    requires Coalesced(bs) && Linked(bs, units, next) && q < |bs| && |bs| >= 2
    requires forall i :: 0 <= i < |bs| ==> bs[i].addr != b.addr
    ensures LinkedBut(Grow(bs, q, b), units[b.addr := b.size + bs[q].size],
                      next[b.addr := bs[Succ(bs, q)].addr], if q == 0 then |bs| - 1 else q - 1)
  {
    var cs := Grow(bs, q, b);
    var units', next' := units[b.addr := b.size + bs[q].size], next[b.addr := bs[Succ(bs, q)].addr];
    forall i | 0 <= i < |cs|
      ensures LinkedAt(cs, units', next', i)
      ensures i != (if q == 0 then |bs| - 1 else q - 1) ==> LeadsOn(cs, next', i)
    {
      assert LinkedAt(bs, units, next, i) && LeadsOn(bs, next, i);
    }
  }

  lemma InsertLinks(bs: seq<Block>, units: map<nat, nat>, next: map<nat, nat>, q: nat, b: Block)
    requires Coalesced(bs) && Linked(bs, units, next) && q <= |bs| && |bs| > 0
    requires b.addr in units && units[b.addr] == b.size && forall i :: 0 <= i < |bs| ==> bs[i].addr != b.addr
    ensures LinkedBut(Insert(bs, q, b), units, next[b.addr := bs[if q < |bs| then q else 0].addr],
      if q == 0 then |bs| else q - 1)
  {
    var cs := Insert(bs, q, b);
    var next' := next[b.addr := bs[if q < |bs| then q else 0].addr];
    forall i | 0 <= i < |cs|
      ensures LinkedAt(cs, units, next', i)
      ensures i != (if q == 0 then |bs| else q - 1) ==> LeadsOn(cs, next', i)
    {
      if i != q {
        var k := if i < q then i else i - 1;
        assert LinkedAt(bs, units, next, k) && LeadsOn(bs, next, k);
      }
    }
  }

  lemma JoinLinks(bs: seq<Block>, units: map<nat, nat>, next: map<nat, nat>, q: nat)
    requires 0 < q < |bs| && LinkedBut(bs, units, next, q - 1)
      && forall i, j :: 0 <= i < j < |bs| ==> bs[i].addr < bs[j].addr
    ensures Linked(Join(bs, q), units[bs[q - 1].addr := bs[q - 1].size + bs[q].size],
      next[bs[q - 1].addr := bs[Succ(bs, q)].addr])
  {
    var c := bs[q - 1].addr;
    var cs := Join(bs, q);
    var units', next' := units[c := bs[q - 1].size + bs[q].size], next[c := bs[Succ(bs, q)].addr];
    forall i | 0 <= i < |cs|
      ensures LinkedAt(cs, units', next', i) && LeadsOn(cs, next', i)
    {
      var k := if i < q then i else i + 1;
      assert LinkedAt(bs, units, next, k) && (i != q - 1 ==> LeadsOn(bs, next, k));
    }
  }

  /** Where the block before b is once b is in. */
  function Before(bs: seq<Block>, q: nat, b: Block): (i: nat)
    requires bs != [] && q <= |bs|
    ensures i < |Up(bs, q, b)|
  {
    if q == 0 then |Up(bs, q, b)| - 1 else q - 1
  }

  /** The first pair of writes of slob_free takes in the block above, or leads b on. */
  function UpUnits(units: map<nat, nat>, next: map<nat, nat>, b: nat, cur: nat): map<nat, nat>
    requires b in units && cur in next && (b + units[b] == next[cur] ==> next[cur] in units)
  {
    if b + units[b] == next[cur] then units[b := units[b] + units[next[cur]]] else units
  }

  function UpNext(units: map<nat, nat>, next: map<nat, nat>, b: nat, cur: nat): map<nat, nat>
    requires b in units && cur in next && (b + units[b] == next[cur] ==> next[cur] in next)
  {
    if b + units[b] == next[cur] then next[b := next[next[cur]]] else next[b := next[cur]]
  }

  lemma UpEnds(bs: seq<Block>, units: map<nat, nat>, next: map<nat, nat>, q: nat, b: Block)
    requires Coalesced(bs) && Linked(bs, units, next) && Between(bs, q, b) && bs != []
    requires |bs| > 1 || End(b) != bs[0].addr
    ensures
      var cur, s := bs[Pred(|bs|, q)].addr, if q < |bs| then q else 0;
      && cur in next && next[cur] == bs[s].addr && next[cur] in next && next[cur] in units
      && units[next[cur]] == bs[s].size && next[next[cur]] == bs[Succ(bs, s)].addr
      && cur == Up(bs, q, b)[Before(bs, q, b)].addr
  {
    var p, s := Pred(|bs|, q), if q < |bs| then q else 0;
    assert LinkedAt(bs, units, next, p) && LeadsOn(bs, next, p) && LinkedAt(bs, units, next, s) && LeadsOn(bs, next, s);
  }

  lemma UpLinks(bs: seq<Block>, units: map<nat, nat>, next: map<nat, nat>, q: nat, b: Block)
    requires Coalesced(bs) && Linked(bs, units, next) && Between(bs, q, b) && bs != []
      && (|bs| > 1 || End(b) != bs[0].addr)
    requires b.addr in units && units[b.addr] == b.size
    ensures
      var cur := bs[Pred(|bs|, q)].addr;
      && cur in next && next[cur] in next && next[cur] in units && cur == Up(bs, q, b)[Before(bs, q, b)].addr
      && LinkedBut(Up(bs, q, b), UpUnits(units, next, b.addr, cur), UpNext(units, next, b.addr, cur), Before(bs, q, b))
  {
    UpEnds(bs, units, next, q, b);
    if q < |bs| && End(b) == bs[q].addr {
      GrowLinks(bs, units, next, q, b);
    } else {
      InsertLinks(bs, units, next, q, b);
    }
  }

  /** The second pair of writes lets the block below take b in, or leads it to b. */
  function PutUnits(units: map<nat, nat>, b: nat, cur: nat): map<nat, nat>
    requires b in units && cur in units
  {
    if cur + units[cur] == b then units[cur := units[cur] + units[b]] else units
  }

  function PutNext(units: map<nat, nat>, next: map<nat, nat>, b: nat, cur: nat): map<nat, nat>
    requires b in units && b in next && cur in units
  {
    next[cur := if cur + units[cur] == b then next[b] else b]
  }

  /** The second pair of writes, on the list up in which only block at, before block q, may still lead astray. */
  lemma CloseLinks(up: seq<Block>, units: map<nat, nat>, next: map<nat, nat>, q: nat, at: nat)
    requires q < |up| && at == (if q == 0 then |up| - 1 else q - 1) && LinkedBut(up, units, next, at)
    requires |up| > 1 && forall i, j :: 0 <= i < j < |up| ==> up[i].addr < up[j].addr
    ensures
      var cur, b, closed := up[at].addr, up[q].addr, if q > 0 && End(up[q - 1]) == up[q].addr then Join(up, q) else up;
      && cur in units && b in units && b in next && at < |closed| && closed[at].addr == cur
      && Linked(closed, PutUnits(units, b, cur), PutNext(units, next, b, cur))
  {
    assert LinkedAt(up, units, next, at) && LinkedAt(up, units, next, q);
    assert Succ(up, at) == q && (q == 0 ==> up[at].addr > up[q].addr);
    if q > 0 && End(up[q - 1]) == up[q].addr {
      assert LeadsOn(up, next, q);
      JoinLinks(up, units, next, q);
    } else {
      PointAt(up, units, next, at, up[q].addr);
    }
  }

  lemma UpSorted(bs: seq<Block>, q: nat, b: Block)
    requires Coalesced(bs) && Between(bs, q, b) && bs != [] && (|bs| > 1 || End(b) != bs[0].addr)
    ensures |Up(bs, q, b)| > 1 && Up(bs, q, b)[q].addr == b.addr
    ensures q > 0 ==> Up(bs, q, b)[q - 1] == bs[q - 1]
    ensures forall i, j :: 0 <= i < j < |Up(bs, q, b)| ==> Up(bs, q, b)[i].addr < Up(bs, q, b)[j].addr
  {
    var up := Up(bs, q, b);
    forall i, j | 0 <= i < j < |up|
      ensures up[i].addr < up[j].addr
    {
      assert i < q ==> up[i] == bs[i] && End(bs[i]) <= b.addr;
    }
  }

  lemma PutLinks(bs: seq<Block>, units: map<nat, nat>, next: map<nat, nat>, q: nat, b: Block)
    requires Coalesced(bs) && Between(bs, q, b) && bs != [] && LinkedBut(Up(bs, q, b), units, next, Before(bs, q, b))
    requires |bs| > 1 || End(b) != bs[0].addr
    ensures
      var at := Before(bs, q, b);
      var cur := Up(bs, q, b)[at].addr;
      && cur in units && b.addr in units && b.addr in next && at < |Put(bs, q, b)| && Put(bs, q, b)[at].addr == cur
      && Linked(Put(bs, q, b), PutUnits(units, b.addr, cur), PutNext(units, next, b.addr, cur))
  {
    UpSorted(bs, q, b);
    CloseLinks(Up(bs, q, b), units, next, q, Before(bs, q, b));
  }

  /** All writes of slob_free that put block b back. */
  lemma BackLinks(bs: seq<Block>, units: map<nat, nat>, next: map<nat, nat>, q: nat, b: Block)
    requires Coalesced(bs) && Linked(bs, units, next) && Between(bs, q, b) && bs != []
    requires (|bs| > 1 || End(b) != bs[0].addr) && b.addr in units && units[b.addr] == b.size
    ensures
      var cur, at := bs[Pred(|bs|, q)].addr, Before(bs, q, b);
      && cur in next && next[cur] in next && next[cur] in units
      && cur in UpUnits(units, next, b.addr, cur)
      && Coalesced(Put(bs, q, b)) && at < |Put(bs, q, b)| && Put(bs, q, b)[at].addr == cur
      && Linked(Put(bs, q, b), PutUnits(UpUnits(units, next, b.addr, cur), b.addr, cur),
                PutNext(UpUnits(units, next, b.addr, cur), UpNext(units, next, b.addr, cur), b.addr, cur))
  {
    PutOk(bs, q, b);
    UpLinks(bs, units, next, q, b);
    var cur := bs[Pred(|bs|, q)].addr;
    PutLinks(bs, UpUnits(units, next, b.addr, cur), UpNext(units, next, b.addr, cur), q, b);
  }

  /** The same writes for a block that ends where the only free block begins: both are in the list. */
  lemma DoubleLinks(a: Block, units: map<nat, nat>, next: map<nat, nat>, b: Block)
    requires Linked([a], units, next) && End(b) == a.addr && b.size > 0
    requires b.addr in units && units[b.addr] == b.size
    ensures
      && a.addr in next && next[a.addr] in next && next[a.addr] in units
      && var units1, next1 := UpUnits(units, next, b.addr, a.addr), UpNext(units, next, b.addr, a.addr);
         && a.addr in units1 && b.addr in units1 && b.addr in next1
         && PutUnits(units1, b.addr, a.addr) == units[b.addr := b.size + a.size]
         && PutNext(units1, next1, b.addr, a.addr) == next[b.addr := a.addr][a.addr := b.addr]
         && units[a.addr] == a.size
  {
    assert LinkedAt([a], units, next, 0) && LeadsOn([a], next, 0);
  }

  /** The last link falls into place. */
  lemma PointAt(bs: seq<Block>, units: map<nat, nat>, next: map<nat, nat>, at: nat, b: nat)
    requires at < |bs| && LinkedBut(bs, units, next, at) && bs[Succ(bs, at)].addr == b
    requires forall i, j :: 0 <= i < j < |bs| ==> bs[i].addr != bs[j].addr
    ensures Linked(bs, units, next[bs[at].addr := b])
  {
    var next' := next[bs[at].addr := b];
    forall i | 0 <= i < |bs|
      ensures LinkedAt(bs, units, next', i) && LeadsOn(bs, next', i)
    {
      assert LinkedAt(bs, units, next, i) && (i != at ==> LeadsOn(bs, next, i));
      assert i != at ==> bs[i].addr != bs[at].addr;
    }
  }

  lemma HeaderOutside(bs: seq<Block>, units: map<nat, nat>, next: map<nat, nat>, b: nat, n: nat)
    requires Linked(bs, units, next) && forall i :: 0 <= i < |bs| ==> bs[i].addr != b
    ensures Linked(bs, units[b := n], next)
  {
    var units' := units[b := n];
    forall i | 0 <= i < |bs|
      ensures LinkedAt(bs, units', next, i)
    {
      assert LinkedAt(bs, units, next, i);
    }
  }

  // ---------- taking a block ----------

  /** Block i comes after block at and before block k, going round. */
  predicate Passed(at: nat, i: nat, k: nat) {
    if at < k then at < i < k else at < i || i < k
  }

  /** Block j is the first that holds n units, going round from the one after block at. */
  ghost predicate FirstFit(bs: seq<Block>, at: nat, j: nat, n: nat) {
    j < |bs| && bs[j].size >= n && forall i :: 0 <= i < |bs| && Passed(at, i, j) ==> bs[i].size < n
  }

  /** The block before j once n units of j are taken. */
  function Behind(bs: seq<Block>, kp: nat, j: nat, n: nat): nat
    requires kp < |bs| && j < |bs|
  {
    if n == bs[j].size && kp > j then kp - 1 else kp
  }

  lemma TakeExactLinks(bs: seq<Block>, units: map<nat, nat>, next: map<nat, nat>, kp: nat, j: nat)
    requires Coalesced(bs) && Linked(bs, units, next) && kp < |bs| && |bs| > 1 && j == Succ(bs, kp)
    ensures
      var ts := Take(bs, j, bs[j].size);
      && Linked(ts, units, next[bs[kp].addr := bs[Succ(bs, j)].addr])
      && Behind(bs, kp, j, bs[j].size) < |ts| && ts[Behind(bs, kp, j, bs[j].size)] == bs[kp]
  {
    var ts := Take(bs, j, bs[j].size);
    var next' := next[bs[kp].addr := bs[Succ(bs, j)].addr];
    forall i | 0 <= i < |ts|
      ensures LinkedAt(ts, units, next', i) && LeadsOn(ts, next', i)
    {
      TakeExactLink(bs, units, next, kp, j, i);
    }
  }

  /** Block j is skipped. */
  lemma TakeExactLink(bs: seq<Block>, units: map<nat, nat>, next: map<nat, nat>, kp: nat, j: nat, i: nat)
    requires Coalesced(bs) && Linked(bs, units, next) && kp < |bs| && |bs| > 1 && j == Succ(bs, kp) && i < |bs| - 1
    ensures
      var ts, next' := bs[..j] + bs[j + 1..], next[bs[kp].addr := bs[Succ(bs, j)].addr];
      LinkedAt(ts, units, next', i) && LeadsOn(ts, next', i)
  {
    var ts, k := bs[..j] + bs[j + 1..], if i < j then i else i + 1;
    assert ts[i] == bs[k] && LinkedAt(bs, units, next, k) && LeadsOn(bs, next, k);
    assert k != kp ==> bs[k].addr != bs[kp].addr;
    assert ts[Succ(ts, i)] == bs[if k == kp then Succ(bs, j) else Succ(bs, k)];
  }

  lemma TakeSplitLinks(bs: seq<Block>, units: map<nat, nat>, next: map<nat, nat>, kp: nat, j: nat, n: nat)
    requires Coalesced(bs) && Linked(bs, units, next) && kp < |bs| && |bs| > 1 && j == Succ(bs, kp)
      && 0 < n < bs[j].size
    ensures
      var rest := bs[j].addr + n;
      Linked(Take(bs, j, n), units[rest := bs[j].size - n][bs[j].addr := n],
             next[bs[kp].addr := rest][rest := bs[Succ(bs, j)].addr])
  {
    var rest := bs[j].addr + n;
    var ts := Take(bs, j, n);
    var units', next' := units[rest := bs[j].size - n][bs[j].addr := n],
      next[bs[kp].addr := rest][rest := bs[Succ(bs, j)].addr];
    forall i | 0 <= i < |ts|
      ensures LinkedAt(ts, units', next', i) && LeadsOn(ts, next', i)
    {
      assert LinkedAt(bs, units, next, i) && LeadsOn(bs, next, i);
      assert i != j ==> bs[i].addr != rest && bs[i].addr != bs[j].addr;
      assert End(bs[i]) < bs[Succ(bs, i)].addr || Succ(bs, i) == 0;
    }
  }

  /** The writes of slob_alloc that take n units of cur, which comes after prev. */
  function TakeUnits(units: map<nat, nat>, cur: nat, n: nat): map<nat, nat>
    requires cur in units && n <= units[cur]
  {
    if units[cur] == n then units else units[cur + n := units[cur] - n][cur := n]
  }

  function TakeNext(units: map<nat, nat>, next: map<nat, nat>, prev: nat, cur: nat, n: nat): map<nat, nat>
    requires cur in units && n <= units[cur] && cur in next
  {
    if units[cur] == n then next[prev := next[cur]]
    else
      var next1 := next[prev := cur + n];
      next1[cur + n := next1[cur]]
  }

  /** The list that is left: a block taken whole when it is the only one stays. */
  function Left(bs: seq<Block>, j: nat, n: nat): seq<Block>
    requires j < |bs| && n <= bs[j].size
  {
    if |bs| == 1 && n == bs[j].size then bs else Take(bs, j, n)
  }

  lemma TakeLinks(bs: seq<Block>, units: map<nat, nat>, next: map<nat, nat>, kp: nat, j: nat, n: nat)
    requires Coalesced(bs) && Linked(bs, units, next) && kp < |bs| && j == Succ(bs, kp) && 0 < n <= bs[j].size
    requires |bs| > 1 || n == bs[j].size
    ensures
      var prev, cur, left := bs[kp].addr, bs[j].addr, Left(bs, j, n);
      var at := if |bs| > 1 then Behind(bs, kp, j, n) else kp;
      && cur in units && units[cur] == bs[j].size && prev in next && next[prev] == cur && cur in next
      && Coalesced(left) && Linked(left, TakeUnits(units, cur, n), TakeNext(units, next, prev, cur, n))
      && at < |left| && left[at].addr == prev
  {
    assert LinkedAt(bs, units, next, kp) && LinkedAt(bs, units, next, j) && LeadsOn(bs, next, kp)
      && LeadsOn(bs, next, j);
    TakeOk(bs, j, n);
    if |bs| == 1 {
      assert next[bs[kp].addr := next[bs[j].addr]] == next;
    } else if n == bs[j].size {
      TakeExactLinks(bs, units, next, kp, j);
    } else {
      TakeSplitLinks(bs, units, next, kp, j, n);
    }
  }

  /** Taking a part of the only block leads slobfree, which is that part, out of the list: what is
      left leads to itself. */
  lemma TakeLone(units: map<nat, nat>, next: map<nat, nat>, b: Block, n: nat)
    requires Linked([b], units, next) && 0 < n < b.size
    ensures
      var rest := Block(b.addr + n, b.size - n);
      && b.addr in units && units[b.addr] == b.size && b.addr in next
      && Take([b], 0, n) == [rest]
      && var next' := TakeNext(units, next, b.addr, b.addr, n);
         Linked([rest], TakeUnits(units, b.addr, n), next') && b.addr in next' && next'[b.addr] == rest.addr
  {
    assert LinkedAt([b], units, next, 0) && LeadsOn([b], next, 0);
  }

  /** Where k steps along next lead. */
  function Hop(next: map<nat, nat>, a: nat, k: nat): nat {
    if k == 0 then a
    else
      var b := Hop(next, a, k - 1);
      if b in next then next[b] else b
  }

  /** Then a search that starts at slobfree sees that one block for ever, and never slobfree again. */
  lemma {:induction false} NeverBack(units: map<nat, nat>, next: map<nat, nat>, a: nat, rest: Block, k: nat)
    requires Linked([rest], units, next) && a in next && next[a] == rest.addr && a != rest.addr && k > 0
    ensures Hop(next, a, k) == rest.addr != a
  {
    assert LeadsOn([rest], next, 0);
    if k > 1 {
      NeverBack(units, next, a, rest, k - 1);
    }
  }

  // ---------- the arena ----------

  /** The unit of the variable arena is free and its neighbours are not. */
  ghost predicate ArenaFree(bs: seq<Block>, arena: nat) {
    Inside(bs, arena) && !Inside(bs, arena - 1) && !Inside(bs, arena + 1)
  }

  /** So it is a block of its own, and any block of two units has company. */
  lemma ArenaBlock(bs: seq<Block>, arena: nat) returns (i: nat)
    requires Coalesced(bs) && ArenaFree(bs, arena)
    ensures i < |bs| && bs[i] == Block(arena, 1)
    ensures forall j :: 0 <= j < |bs| && bs[j].addr != arena ==> |bs| > 1
    ensures forall j :: 0 <= j < |bs| && bs[j].addr == arena ==> bs[j] == Block(arena, 1)
  {
    i :| 0 <= i < |bs| && Holds(bs[i], arena);
    assert !Holds(bs[i], arena - 1) && !Holds(bs[i], arena + 1);
  }

  /** Taking the arena leaves it free only if the list cannot do without it. */
  lemma ArenaTaken(bs: seq<Block>, k: nat, arena: nat)
    requires Coalesced(bs) && ArenaFree(bs, arena) && k < |bs| && bs[k] == Block(arena, 1)
    ensures ArenaFree(Left(bs, k, 1), arena) <==> |bs| == 1
  {
    if |bs| > 1 {
      TakeOk(bs, k, 1);
    }
    assert Holds(Block(arena, 1), arena);
  }

  function PageBlock(p: nat): Block {
    Block(p * PAGE_UNITS, PAGE_UNITS)
  }

  /** A page that may join the list. */
  ghost predicate PageFits(bs: seq<Block>, arena: nat, p: nat) {
    p > 0 && Fits(bs, PageBlock(p)) && !Holds(PageBlock(p), arena - 1) && !Holds(PageBlock(p), arena + 1)
  }

  /** The place of a page, which never touches the only block of a list of one. */
  lemma PagePlace(bs: seq<Block>, arena: nat, p: nat) returns (q: nat)
    requires Coalesced(bs) && ArenaFree(bs, arena) && PageFits(bs, arena, p)
    ensures Between(bs, q, PageBlock(p)) && (|bs| > 1 || End(PageBlock(p)) != bs[0].addr)
    ensures !Inside(bs, p * PAGE_UNITS)
  {
    q := Apart(bs, PageBlock(p));
    var i := ArenaBlock(bs, arena);
    assert |bs| == 1 ==> bs[0] == Block(arena, 1) && !Holds(PageBlock(p), arena - 1);
    assert Holds(PageBlock(p), p * PAGE_UNITS);
  }

  lemma PageJoined(bs: seq<Block>, arena: nat, p: nat, q: nat, after: seq<Block>)
    requires Coalesced(bs) && ArenaFree(bs, arena) && PageFits(bs, arena, p)
    requires Between(bs, q, PageBlock(p)) && after == Put(bs, q, PageBlock(p))
    ensures Coalesced(after) && ArenaFree(after, arena) && Inside(after, p * PAGE_UNITS)
    ensures forall u :: Inside(after, u) <==> Inside(bs, u) || Holds(PageBlock(p), u)
    ensures exists j :: 0 <= j < |after| && after[j].size >= PAGE_UNITS
  {
    PutOk(bs, q, PageBlock(p));
    PutSize(bs, q, PageBlock(p));
    assert Holds(PageBlock(p), p * PAGE_UNITS);
  }

  /** Headers outside the list, other than that of b, are as before. */
  ghost predicate HeadersKept(bs: seq<Block>, units: map<nat, nat>, units': map<nat, nat>, b: nat) {
    forall a :: a in units && a != b && !Inside(bs, a) ==> a in units' && units'[a] == units[a]
  }

  class FreeList {
    const arena: nat
    var units: map<nat, nat>
    var next: map<nat, nat>
    var slobfree: nat
    ghost var blocks: seq<Block>   // the free list in address order
    ghost var at: nat              // slobfree is its block number at

    /** The static initialisation: the list is the arena alone. */
    constructor (arena: nat)
      ensures ListOk() && ArenaFree(blocks, arena) && this.arena == arena && blocks == [Block(arena, 1)]
    {
      this.arena, slobfree := arena, arena;
      units, next := map[arena := 1], map[arena := arena];
      blocks, at := [Block(arena, 1)], 0;
      new;
      assert Holds(blocks[0], arena);
    }

    ghost predicate ListOk()
      reads this
    {
      && Coalesced(blocks) && Linked(blocks, units, next)
      && at < |blocks| && slobfree == blocks[at].addr
    }

    /** The search of slob_free: the block after which b belongs. */
    method FindPlace(b: nat, ghost q: nat, ghost n: nat) returns (cur: nat)
      requires ListOk() && Between(blocks, q, Block(b, n))
      ensures cur == blocks[Pred(|blocks|, q)].addr
    {
      cur := slobfree;
      ghost var k: nat, p := at, Pred(|blocks|, q);
      assert LinkedAt(blocks, units, next, k);
      while !(cur < b < next[cur])
        invariant k < |blocks| && cur == blocks[k].addr && LinkedAt(blocks, units, next, k)
        decreases if k <= p then p - k else p + |blocks| - k
      {
        assert LeadsOn(blocks, next, k);
        Place(blocks, q, Block(b, n), k);
        if cur >= next[cur] && (b > cur || b < next[cur]) {
          return;
        }
        cur := next[cur];
        k := Succ(blocks, k);
      }
      assert LeadsOn(blocks, next, k);
      Place(blocks, q, Block(b, n), k);
    }

    /** The first pair of writes of slob_free. */
    method LinkUp(b: nat, cur: nat)
      requires b in units && cur in next && next[cur] in next && next[cur] in units
      modifies `units, `next
      ensures units == UpUnits(old(units), old(next), b, cur) && next == UpNext(old(units), old(next), b, cur)
    {
      var nx := next[cur];
      if b + units[b] == nx {
        units, next := units[b := units[b] + units[nx]], next[b := next[nx]];
      } else {
        next := next[b := nx];
      }
    }

    /** The second pair. */
    method LinkDown(b: nat, cur: nat)
      requires b in units && cur in units && b in next
      modifies `units, `next
      ensures units == PutUnits(old(units), b, cur) && next == PutNext(old(units), old(next), b, cur)
    {
      if cur + units[cur] == b {
        units, next := units[cur := units[cur] + units[b]], next[cur := next[b]];
      } else {
        next := next[cur := b];
      }
    }

    /** All writes of slob_free. */
    method Relink(b: nat, cur: nat)
      requires b in units && cur in next && next[cur] in next && next[cur] in units
      requires cur in UpUnits(units, next, b, cur)
      modifies `units, `next, `slobfree
      ensures
        var units1, next1 := UpUnits(old(units), old(next), b, cur), UpNext(old(units), old(next), b, cur);
        units == PutUnits(units1, b, cur) && next == PutNext(units1, next1, b, cur) && slobfree == cur
    {
      LinkUp(b, cur);
      LinkDown(b, cur);
      slobfree := cur;
    }

    /** A block of n units that ends where the only free block a begins has been put back so that the
        units of a are in two blocks of the list. */
    ghost predicate Doubled(a: Block, b: nat, n: nat)
      reads this
    {
      && slobfree == a.addr
      && a.addr in units && units[a.addr] == a.size && b in units && units[b] == n + a.size
      && a.addr in next && next[a.addr] == b && b in next && next[b] == a.addr
    }

    /** The end of slob_free: b goes in after cur. */
    method LinkIn(b: nat, cur: nat, ghost q: nat)
      requires ListOk() && b in units && Between(blocks, q, Block(b, units[b])) && cur == blocks[Pred(|blocks|, q)].addr
      modifies `units, `next, `slobfree, `blocks, `at
      ensures |old(blocks)| > 1 || b + old(units)[b] != old(blocks)[0].addr ==>
        ListOk() && blocks == Put(old(blocks), q, Block(b, old(units)[b]))
      ensures |old(blocks)| == 1 && b + old(units)[b] == old(blocks)[0].addr ==>
        Doubled(old(blocks)[0], b, old(units)[b])
      ensures forall a :: a in old(units) && a != b && a != cur ==> a in units && units[a] == old(units)[a]
    {
      ghost var bs, blk := blocks, Block(b, units[b]);
      if |bs| > 1 || End(blk) != bs[0].addr {
        BackLinks(bs, units, next, q, blk);
        blocks, at := Put(bs, q, blk), Before(bs, q, blk);
      } else {
        assert bs == [bs[0]];
        DoubleLinks(bs[0], units, next, blk);
      }
      Relink(b, cur);
    }

    /** slob_free of the block at b, of size bytes or, when size is 0, as long as its header says. */
    method SlobFree(b: nat, size: nat, ghost q: nat, ghost n: nat)
      requires ListOk() && (size == 0 ==> b in units) && if size > 0 then JustHold(n, size) else n == units[b]
      requires Between(blocks, q, Block(b, n))
      modifies `units, `next, `slobfree, `blocks, `at
      ensures b == 0 ==> unchanged(this)
      ensures b != 0 && (|old(blocks)| > 1 || b + n != old(blocks)[0].addr) ==>
        ListOk() && blocks == Put(old(blocks), q, Block(b, n))
      ensures b != 0 && |old(blocks)| == 1 && b + n == old(blocks)[0].addr ==> Doubled(old(blocks)[0], b, n)
      ensures HeadersKept(old(blocks), old(units), units, b)
    {
      if b == 0 {
        return;
      }
      if size > 0 {
        UnitsHold(size);
        HeaderOutside(blocks, units, next, b, SlobUnits(size));
        units := units[b := SlobUnits(size)];
      }
      var cur := FindPlace(b, q, n);
      assert Holds(blocks[Pred(|blocks|, q)], cur) && Inside(blocks, cur);
      LinkIn(b, cur, q);
    }

    /** The end of slob_alloc: n units leave block j, which comes after block kp. */
    method TakeBlock(prev: nat, cur: nat, n: nat, ghost kp: nat, ghost j: nat)
      requires ListOk() && kp < |blocks| && j == Succ(blocks, kp)
      requires prev == blocks[kp].addr && cur == blocks[j].addr && 0 < n <= blocks[j].size
      modifies `units, `next, `slobfree, `blocks, `at
      ensures blocks == Left(old(blocks), j, n) && Linked(blocks, units, next) && slobfree == prev
      ensures |old(blocks)| > 1 || n == old(blocks)[j].size ==> ListOk()
      ensures |old(blocks)| == 1 && n < old(blocks)[j].size ==>
        && blocks == [Block(cur + n, old(blocks)[j].size - n)]
        && slobfree == cur && cur in next && next[cur] == blocks[0].addr != cur
      ensures cur in units && units[cur] == n
      ensures forall a :: a in old(units) && a != cur && (a != cur + n || n == old(blocks)[j].size) ==>
                a in units && units[a] == old(units)[a]
    {
      ghost var units1, next1;
      if |blocks| > 1 || n == blocks[j].size {
        TakeLinks(blocks, units, next, kp, j, n);
        at := if |blocks| > 1 then Behind(blocks, kp, j, n) else kp;
      } else {
        assert blocks == [blocks[0]];
        TakeLone(units, next, blocks[0], n);
      }
      units1, next1 := TakeUnits(units, cur, n), TakeNext(units, next, prev, cur, n);
      if units[cur] == n {
        next := next[prev := next[cur]];
      } else {
        next := next[prev := cur + n];
        units := units[cur + n := units[cur] - n];
        next := next[cur + n := next[cur]];
        units := units[cur := n];
      }
      assert units == units1 && next == next1;
      slobfree := prev;
      blocks := Left(blocks, j, n);
    }

    /** A fresh page joins the list. */
    method AddPage(p: nat)
      requires ListOk() && ArenaFree(blocks, arena) && PageFits(blocks, arena, p)
      modifies `units, `next, `slobfree, `blocks, `at
      ensures ListOk() && ArenaFree(blocks, arena)
      ensures forall u :: Inside(blocks, u) <==> Inside(old(blocks), u) || Holds(PageBlock(p), u)
      ensures forall a :: a in old(units) && !Inside(blocks, a) ==> a in units && units[a] == old(units)[a]
      ensures exists j :: 0 <= j < |blocks| && blocks[j].size >= PAGE_UNITS
    {
      ghost var bs := blocks;
      ghost var q := PagePlace(bs, arena, p);
      assert SlobUnits(PGSIZE) == PAGE_UNITS;
      SlobFree(p * PAGE_UNITS, PGSIZE, q, PAGE_UNITS);
      PageJoined(bs, arena, p, q, blocks);
    }

    /** One round of the search loop of slob_alloc: the first block that holds n units
        and the one before it, or found false back at slobfree. */
    method Search(n: nat) returns (found: bool, prev: nat, cur: nat, ghost kp: nat, ghost k: nat)
      requires ListOk()
      ensures kp < |blocks| && k == Succ(blocks, kp) && prev == blocks[kp].addr && cur == blocks[k].addr
      ensures found ==> FirstFit(blocks, at, k, n)
      ensures !found ==> forall i :: 0 <= i < |blocks| ==> blocks[i].size < n
    {
      prev, kp := slobfree, at;
      assert LinkedAt(blocks, units, next, at) && LeadsOn(blocks, next, at);
      cur, k := next[prev], Succ(blocks, at);
      found := false;
      while true
        invariant kp < |blocks| && k == Succ(blocks, kp) && prev == blocks[kp].addr && cur == blocks[k].addr
        invariant forall i :: 0 <= i < |blocks| && Passed(at, i, k) ==> blocks[i].size < n
        decreases if k <= at then at - k else at + |blocks| - k
      {
        assert LinkedAt(blocks, units, next, k) && LeadsOn(blocks, next, k);
        if units[cur] >= n {
          found := true;
          return;
        }
        if cur == slobfree {
          assert k == at;
          return;
        }
        prev, cur := cur, next[cur];
        kp, k := k, Succ(blocks, k);
      }
    }

    /** The block at which the search of slob_alloc begins. */
    ghost function First(): Block
      requires ListOk()
      reads this
    {
      blocks[Succ(blocks, at)]
    }

    /** slob_alloc without alignment, when a block fits. */
    method Grab(n: nat, prev: nat, cur: nat, ghost kp: nat, ghost k: nat)
      requires ListOk() && ArenaFree(blocks, arena)
      requires kp < |blocks| && k == Succ(blocks, kp) && prev == blocks[kp].addr && cur == blocks[k].addr
        && 0 < n <= blocks[k].size
      modifies `units, `next, `slobfree, `blocks, `at
      ensures ListOk() && blocks == Left(old(blocks), k, n) && cur in units && units[cur] == n
      ensures ArenaFree(blocks, arena) <==> cur != arena || |old(blocks)| == 1
      ensures cur != arena ==> Allocated(old(blocks), old(units), None, blocks, units, Block(cur, n))
    {
      ghost var i := ArenaBlock(blocks, arena);
      ghost var bs := blocks;
      if cur == arena {
        ArenaTaken(bs, k, arena);
      } else {
        GrabOk(bs, units, n, k, arena);
      }
      TakeBlock(prev, cur, n, kp, k);
    }

    /** slob_alloc after its first round found nothing: a page joins the list and the
        second round succeeds. */
    method AllocFromPage(n: nat, page: nat) returns (cur: nat)
      requires ListOk() && ArenaFree(blocks, arena) && PageFits(blocks, arena, page) && 1 < n <= PAGE_UNITS
      modifies `units, `next, `slobfree, `blocks, `at
      ensures ListOk() && ArenaFree(blocks, arena)
      ensures Allocated(old(blocks), old(units), Some(page), blocks, units, Block(cur, n))
    {
      AddPage(page);
      var found, prev;
      ghost var kp, k;
      found, prev, cur, kp, k := Search(n);
      assert found;
      Grab(n, prev, cur, kp, k);
    }

    /** slob_alloc without alignment; page is what alloc_page gives if it is asked, and
        fetched says that it was asked and gave one. */
    method SlobAlloc(size: nat, page: Option<nat>) returns (r: Option<nat>, fetched: bool)
      requires ListOk() && ArenaFree(blocks, arena) && 0 < size && size + UNIT < PGSIZE
      requires page.Some? ==> PageFits(blocks, arena, page.value)
      modifies `units, `next, `slobfree, `blocks, `at
      ensures ListOk()
      ensures r == Some(arena) <==> size <= 8 && old(First()) == Block(arena, 1)
      ensures ArenaFree(blocks, arena) <==> r != Some(arena) || |old(blocks)| == 1
      ensures size <= 8 ==>
        r == Some(old(First()).addr) && blocks == Left(old(blocks), Succ(old(blocks), old(at)), 1)
      ensures r.None? <==> page.None? && NoRoom(old(blocks), size)
      ensures r.Some? ==> r.value in units && JustHold(units[r.value], size)
      ensures r.None? ==> blocks == old(blocks) && units == old(units)
      ensures fetched <==> page.Some? && NoRoom(old(blocks), size)
      ensures r.Some? && !fetched ==>
        exists j: nat ::
          && FirstFit(old(blocks), old(at), j, units[r.value]) && r.value == old(blocks)[j].addr
          && blocks == Left(old(blocks), j, units[r.value])
      ensures r.Some? && r.value != arena ==>
        Allocated(old(blocks), old(units),
          if fetched then page else None, blocks, units, Block(r.value, units[r.value]))
    {
      var n := SlobUnits(size);
      UnitsHold(size);
      NothingFitsBytes(blocks, size);
      var found, prev, cur;
      ghost var kp, k;
      found, prev, cur, kp, k := Search(n);
      FirstTaken(blocks, arena, at, k, n, found);
      if found {
        Grab(n, prev, cur, kp, k);
        return Some(cur), false;
      }
      if page.None? {
        return None, false;
      }
      cur := AllocFromPage(n, page.value);
      return Some(cur), true;
    }

    /** slob_alloc for kmalloc(0), a single unit: the block after slobfree gives it, whatever that is.
        If it is the arena, the unit is handed out, and it stays on the list exactly when there is
        nothing else there. */
    method AllocForZero() returns (cur: nat)
      requires ListOk() && ArenaFree(blocks, arena)
      modifies `units, `next, `slobfree, `blocks, `at
      ensures ListOk() && cur == old(First()).addr && blocks == Left(old(blocks), Succ(old(blocks), old(at)), 1)
      ensures ArenaFree(blocks, arena) <==> cur != arena || |old(blocks)| == 1
      ensures Inside(blocks, cur) <==> cur == arena && |old(blocks)| == 1
    {
      OneUnit(blocks, arena, Succ(blocks, at));
      var r, fetched := SlobAlloc(UNIT, None);
      cur := r.value;
    }
  }

  /** A single unit that is taken stays on the list only if it is the arena and all there is. */
  lemma OneUnit(bs: seq<Block>, arena: nat, k: nat)
    requires Coalesced(bs) && ArenaFree(bs, arena) && k < |bs|
    ensures Inside(Left(bs, k, 1), bs[k].addr) <==> bs[k].addr == arena && |bs| == 1
  {
    var i := ArenaBlock(bs, arena);
    TakeOk(bs, k, 1);
    assert Holds(bs[k], bs[k].addr) && Holds(Block(bs[k].addr, 1), bs[k].addr);
  }

  /** Only a request of one unit can get the arena, and it does when the search begins there. */
  lemma FirstTaken(bs: seq<Block>, arena: nat, at: nat, k: nat, n: nat, found: bool)
    requires Coalesced(bs) && ArenaFree(bs, arena) && at < |bs| && k < |bs| && n > 0
    requires if found then FirstFit(bs, at, k, n) else NothingFits(bs, n)
    ensures found && bs[k].addr == arena <==> n == 1 && bs[Succ(bs, at)] == Block(arena, 1)
    ensures found && (n == 1 || bs[k].addr == arena) ==> k == Succ(bs, at)
    ensures !found ==> n > 1
  {
    var i := ArenaBlock(bs, arena);
    var first := Succ(bs, at);
    assert found && k != first ==> Passed(at, first, k) && bs[first].size < n;
    assert bs[first].size > 0;
    assert n == 1 && found ==> k == first;
  }

  lemma GrabOk(bs: seq<Block>, units: map<nat, nat>, n: nat, k: nat, arena: nat)
    requires Coalesced(bs) && ArenaFree(bs, arena) && k < |bs| && 0 < n <= bs[k].size && bs[k].addr != arena
    ensures |bs| > 1 && ArenaFree(Take(bs, k, n), arena)
    ensures forall u :: Holds(Block(bs[k].addr, n), u) ==> Inside(bs, u)
    ensures forall u :: Inside(Take(bs, k, n), u) <==> Inside(bs, u) && !Holds(Block(bs[k].addr, n), u)
    ensures Inside(bs, bs[k].addr) && (n < bs[k].size ==> Inside(bs, bs[k].addr + n))
  {
    var i := ArenaBlock(bs, arena);
    assert i < k ==> End(bs[i]) < bs[k].addr;
    assert k < i ==> End(bs[k]) < bs[i].addr;
    TakeOk(bs, k, n);
    assert forall u :: Holds(Block(bs[k].addr, n), u) ==> Holds(bs[k], u);
    assert Holds(bs[k], bs[k].addr) && (n < bs[k].size ==> Holds(bs[k], bs[k].addr + n));
  }

  ghost predicate NothingFits(bs: seq<Block>, n: nat) {
    forall i :: 0 <= i < |bs| ==> bs[i].size < n
  }

  /** No block has so many bytes. */
  ghost predicate NoRoom(bs: seq<Block>, bytes: nat) {
    forall i :: 0 <= i < |bs| ==> 8 * bs[i].size < bytes
  }

  lemma NothingFitsBytes(bs: seq<Block>, size: nat)
    requires size > 0
    ensures NothingFits(bs, SlobUnits(size)) <==> NoRoom(bs, size)
  {
    UnitsHold(size);
  }

  /** The list lost got, after page joined it if there is one, and headers outside the list are as before. */
  ghost predicate Allocated(bs: seq<Block>, units: map<nat, nat>, page: Option<nat>,
                            bs': seq<Block>, units': map<nat, nat>, got: Block) {
    && got.addr in units' && units'[got.addr] == got.size
    && (forall u :: Holds(got, u) ==> Inside(bs, u) || InPage(page, u))
    && (forall u :: Inside(bs', u) <==> (Inside(bs, u) || InPage(page, u)) && !Holds(got, u))
    && (forall a :: a in units && !Inside(bs, a) && !InPage(page, a) ==> a in units' && units'[a] == units[a])
  }

  predicate InPage(page: Option<nat>, u: int) {
    page.Some? && Holds(PageBlock(page.value), u)
  }
}
