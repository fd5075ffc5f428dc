/** Free lists as plain values: blocks in address order, how one is taken and how one is
    put back. Shared by the SLOB allocator, whose unit is 8 bytes, and the first-fit page
    allocator, whose unit is a page. */
module FreeBlocks {
  import opened Basics

  datatype Block = Block(addr: nat, size: nat)

  function End(b: Block): nat {
    b.addr + b.size
  }

  predicate Holds(b: Block, u: int) {
    b.addr <= u < End(b)
  }

  /** Address order, with a gap between any two blocks. */
  ghost predicate Coalesced(bs: seq<Block>) {
    && (forall i :: 0 <= i < |bs| ==> bs[i].size > 0)
    && (forall i, j :: 0 <= i < j < |bs| ==> End(bs[i]) < bs[j].addr)
  }

  /** Unit u is in a block of the list. */
  ghost predicate Inside(bs: seq<Block>, u: int) {
    exists i :: 0 <= i < |bs| && Holds(bs[i], u)
  }

  /** The next block around the circle. */
  function Succ(bs: seq<Block>, i: nat): (j: nat)
    requires i < |bs|
    ensures j < |bs|
  {
    if i + 1 < |bs| then i + 1 else 0
  }

  /** Taking n units from the front of block j. */
  function Take(bs: seq<Block>, j: nat, n: nat): seq<Block>
    requires j < |bs| && n <= bs[j].size
  {
    if n == bs[j].size then bs[..j] + bs[j + 1..] else bs[j := Block(bs[j].addr + n, bs[j].size - n)]
  }

  lemma TakeCoalesced(bs: seq<Block>, j: nat, n: nat)
    requires Coalesced(bs) && j < |bs| && n <= bs[j].size
    ensures Coalesced(Take(bs, j, n))
  {
    var ts := Take(bs, j, n);
    if n == bs[j].size {
      assert forall i :: 0 <= i < |ts| ==> ts[i] == bs[if i < j then i else i + 1];
    }
  }

  lemma TakeInside(bs: seq<Block>, j: nat, n: nat, u: int)
    requires Coalesced(bs) && j < |bs| && n <= bs[j].size
    ensures Inside(Take(bs, j, n), u) ==> Inside(bs, u) && !Holds(Block(bs[j].addr, n), u)
  {
    var ts := Take(bs, j, n);
    if Inside(ts, u) {
      var i :| 0 <= i < |ts| && Holds(ts[i], u);
      var k := if n == bs[j].size && i >= j then i + 1 else i;
      assert Holds(bs[k], u);
      assert k != j ==> End(bs[k]) < bs[j].addr || End(bs[j]) < bs[k].addr;
    }
  }

  lemma TakeOutside(bs: seq<Block>, j: nat, n: nat, u: int)
    requires j < |bs| && n <= bs[j].size && Inside(bs, u) && !Holds(Block(bs[j].addr, n), u)
    ensures Inside(Take(bs, j, n), u)
  {
    var ts := Take(bs, j, n);
    var k :| 0 <= k < |bs| && Holds(bs[k], u);
    assert Holds(ts[if n == bs[j].size && k > j then k - 1 else k], u);
  }

  lemma TakeOk(bs: seq<Block>, j: nat, n: nat)
    requires Coalesced(bs) && j < |bs| && n <= bs[j].size
    ensures Coalesced(Take(bs, j, n))
    ensures forall u :: Inside(Take(bs, j, n), u) <==> Inside(bs, u) && !Holds(Block(bs[j].addr, n), u)
  {
    TakeCoalesced(bs, j, n);
    forall u
      ensures Inside(Take(bs, j, n), u) <==> Inside(bs, u) && !Holds(Block(bs[j].addr, n), u)
    {
      TakeInside(bs, j, n, u);
      if Inside(bs, u) && !Holds(Block(bs[j].addr, n), u) {
        TakeOutside(bs, j, n, u);
      }
    }
  }

  /** Exactly the first q blocks start below address a. */
  ghost predicate IsRank(bs: seq<Block>, a: nat, q: nat) {
    && q <= |bs|
    && (forall i :: 0 <= i < q ==> bs[i].addr < a)
    && (forall i :: q <= i < |bs| ==> a <= bs[i].addr)
  }

  lemma {:induction false} RankExists(bs: seq<Block>, a: nat) returns (q: nat)
    requires Coalesced(bs)
    ensures IsRank(bs, a, q)
  {
    q := 0;
    while q < |bs| && bs[q].addr < a
      invariant q <= |bs| && forall i :: 0 <= i < q ==> bs[i].addr < a
    {
      q := q + 1;
    }
  }

  /** Coalesced, but blocks k - 1 and k may touch. */
  ghost predicate Loose(bs: seq<Block>, k: int) {
    && (forall i :: 0 <= i < |bs| ==> bs[i].size > 0)
    && (forall i, j :: 0 <= i < j < |bs| ==>
         End(bs[i]) <= bs[j].addr && (j != k || i + 1 < j ==> End(bs[i]) < bs[j].addr))
  }

  lemma InsertInside(bs: seq<Block>, q: nat, b: Block, u: int)
    requires q <= |bs|
    ensures Inside(Insert(bs, q, b), u) <==> Inside(bs, u) || Holds(b, u)
  {
    var cs := Insert(bs, q, b);
    if Inside(cs, u) {
      var k :| 0 <= k < |cs| && Holds(cs[k], u);
      assert k != q ==> Holds(bs[if k < q then k else k - 1], u);
    }
    if Inside(bs, u) {
      var k :| 0 <= k < |bs| && Holds(bs[k], u);
      assert Holds(cs[if k < q then k else k + 1], u);
    }
    assert Holds(cs[q], u) <==> Holds(b, u);
  }

  lemma InsertOk(bs: seq<Block>, q: nat, b: Block)
    requires Coalesced(bs) && q <= |bs| && b.size > 0
    requires forall i :: 0 <= i < q ==> End(bs[i]) <= b.addr
    requires forall i :: q <= i < |bs| ==> End(b) < bs[i].addr
    ensures Loose(Insert(bs, q, b), q)
  {
    var cs := Insert(bs, q, b);
    forall i, j | 0 <= i < j < |cs|
      ensures End(cs[i]) <= cs[j].addr && (j != q || i + 1 < j ==> End(cs[i]) < cs[j].addr)
    {
      if j == q && i + 1 < j {
        assert End(bs[i]) < bs[q - 1].addr;
      }
    }
  }

  /** Block q grows downwards by b. */
  function Grow(bs: seq<Block>, q: nat, b: Block): seq<Block>
    requires q < |bs|
  {
    bs[q := Block(b.addr, b.size + bs[q].size)]
  }

  lemma GrowOk(bs: seq<Block>, q: nat, b: Block)
    requires Coalesced(bs) && q < |bs| && b.size > 0 && End(b) == bs[q].addr
    requires forall i :: 0 <= i < q ==> End(bs[i]) <= b.addr
    ensures Loose(Grow(bs, q, b), q)
    ensures forall u :: Inside(Grow(bs, q, b), u) <==> Inside(bs, u) || Holds(b, u)
  {
    var cs := Grow(bs, q, b);
    assert q > 0 ==> End(bs[q - 1]) <= b.addr;
    forall u
      ensures Inside(cs, u) <==> Inside(bs, u) || Holds(b, u)
    {
      if Inside(bs, u) {
        var k :| 0 <= k < |bs| && Holds(bs[k], u);
        assert Holds(cs[k], u);
      }
      if Holds(b, u) {
        assert Holds(cs[q], u);
      }
      if Inside(cs, u) {
        var k :| 0 <= k < |cs| && Holds(cs[k], u);
        assert Holds(bs[k], u) || Holds(b, u);
      }
    }
  }

  /** Blocks q - 1 and q become one. */
  function Join(bs: seq<Block>, q: nat): (cs: seq<Block>)
    requires 0 < q < |bs|
    ensures |cs| == |bs| - 1
    ensures forall i :: 0 <= i < |cs| ==>
      cs[i] == if i < q - 1 then bs[i] else if i == q - 1 then Block(bs[i].addr, bs[i].size + bs[q].size) else bs[i + 1]
  {
    bs[..q - 1] + [Block(bs[q - 1].addr, bs[q - 1].size + bs[q].size)] + bs[q + 1..]
  }

  lemma JoinInside(bs: seq<Block>, q: nat, u: int)
    requires 0 < q < |bs| && End(bs[q - 1]) == bs[q].addr
    ensures Inside(Join(bs, q), u) <==> Inside(bs, u)
  {
    var cs := Join(bs, q);
    if Inside(bs, u) {
      var k :| 0 <= k < |bs| && Holds(bs[k], u);
      assert Holds(cs[if k < q then k else k - 1], u);
    }
    if Inside(cs, u) {
      var k :| 0 <= k < |cs| && Holds(cs[k], u);
      assert Holds(bs[if k < q - 1 || (k == q - 1 && u < bs[q].addr) then k else k + 1], u);
    }
  }

  lemma JoinOk(bs: seq<Block>, q: nat)
    requires 0 < q < |bs| && Loose(bs, q) && End(bs[q - 1]) == bs[q].addr
    ensures Coalesced(Join(bs, q))
    ensures forall u :: Inside(Join(bs, q), u) <==> Inside(bs, u)
  {
    forall u
      ensures Inside(Join(bs, q), u) <==> Inside(bs, u)
    {
      JoinInside(bs, q, u);
    }
  }

  /** The first half of putting block b back at position q: it takes in the block above it. */
  function Up(bs: seq<Block>, q: nat, b: Block): (cs: seq<Block>)
    requires q <= |bs|
    ensures q < |cs|
  {
    if q < |bs| && End(b) == bs[q].addr then Grow(bs, q, b) else Insert(bs, q, b)
  }

  /** Putting a block back: then the block below takes it in. */
  function Put(bs: seq<Block>, q: nat, b: Block): (cs: seq<Block>)
    requires q <= |bs|
  {
    if q > 0 && End(bs[q - 1]) == b.addr then Join(Up(bs, q, b), q) else Up(bs, q, b)
  }

  /** b overlaps none of the list. */
  ghost predicate Fits(bs: seq<Block>, b: Block) {
    b.size > 0 && forall u :: Holds(b, u) ==> !Inside(bs, u)
  }

  /** Block b lies between blocks q - 1 and q. */
  ghost predicate Between(bs: seq<Block>, q: nat, b: Block) {
    && b.size > 0 && q <= |bs|
    && (forall i :: 0 <= i < q ==> End(bs[i]) <= b.addr)
    && (forall i :: q <= i < |bs| ==> End(b) <= bs[i].addr)
  }

  lemma PutOk(bs: seq<Block>, q: nat, b: Block)
    requires Coalesced(bs) && Between(bs, q, b)
    ensures Coalesced(Put(bs, q, b))
    ensures forall u :: Inside(Put(bs, q, b), u) <==> Inside(bs, u) || Holds(b, u)
  {
    var up;
    if q < |bs| && End(b) == bs[q].addr {
      up := Grow(bs, q, b);
      GrowOk(bs, q, b);
    } else {
      up := Insert(bs, q, b);
      InsertOk(bs, q, b);
      forall u
        ensures Inside(up, u) <==> Inside(bs, u) || Holds(b, u)
      {
        InsertInside(bs, q, b, u);
      }
    }
    if q > 0 && End(bs[q - 1]) == b.addr {
      JoinOk(up, q);
    }
  }

  /** A block put back ends up in a block at least as large. */
  lemma PutSize(bs: seq<Block>, q: nat, b: Block)
    requires q <= |bs|
    ensures exists j :: 0 <= j < |Put(bs, q, b)| && Put(bs, q, b)[j].size >= b.size
  {
    var j := if q > 0 && End(bs[q - 1]) == b.addr then q - 1 else q;
    assert Put(bs, q, b)[j].size >= b.size;
  }

  /** A block that overlaps none of the list lies between two neighbours of the list. */
  lemma Apart(bs: seq<Block>, b: Block) returns (q: nat)
    requires Coalesced(bs) && Fits(bs, b)
    ensures Between(bs, q, b)
  {
    q := RankExists(bs, b.addr);
    assert Holds(b, b.addr);
    assert q > 0 ==> !Holds(bs[q - 1], b.addr);
    assert q < |bs| ==> Holds(bs[q], bs[q].addr) && !Holds(b, bs[q].addr);
    forall i | 0 <= i < q
      ensures End(bs[i]) <= b.addr
    {
      assert i < q - 1 ==> End(bs[i]) < bs[q - 1].addr;
    }
  }

  /** A coalesced list is known from the units it holds. */
  lemma {:induction false} Canonical(bs: seq<Block>, cs: seq<Block>)
    requires Coalesced(bs) && Coalesced(cs) && forall u :: Inside(bs, u) <==> Inside(cs, u)
    ensures bs == cs
    decreases |bs|
  {
    FirstInside(bs);
    FirstInside(cs);
    if bs == [] {
      assert cs == [];
    } else {
      assert cs != [];
      FirstCovers(bs, cs);
      FirstCovers(cs, bs);
      assert bs[0] == cs[0];
      forall u
        ensures Inside(bs[1..], u) <==> Inside(cs[1..], u)
      {
        RestInside(bs, u);
        RestInside(cs, u);
      }
      Canonical(bs[1..], cs[1..]);
      assert bs == [bs[0]] + bs[1..] && cs == [cs[0]] + cs[1..];
    }
  }

  lemma FirstInside(bs: seq<Block>)
    requires Coalesced(bs)
    ensures bs != [] ==> Inside(bs, bs[0].addr)
  {
    assert bs != [] ==> Holds(bs[0], bs[0].addr);
  }

  lemma RestInside(bs: seq<Block>, u: int)
    requires Coalesced(bs) && bs != []
    ensures Inside(bs[1..], u) <==> Inside(bs, u) && u >= End(bs[0])
  {
    if Inside(bs[1..], u) {
      var i :| 0 <= i < |bs[1..]| && Holds(bs[1..][i], u);
      assert Holds(bs[i + 1], u);
    }
    if Inside(bs, u) && u >= End(bs[0]) {
      var i :| 0 <= i < |bs| && Holds(bs[i], u);
      assert Holds(bs[1..][i - 1], u);
    }
  }

  /** The first block of one list starts no later and ends no later than that of an equal one. */
  lemma FirstCovers(bs: seq<Block>, cs: seq<Block>)
    requires Coalesced(bs) && Coalesced(cs) && bs != [] && cs != [] && forall u :: Inside(bs, u) <==> Inside(cs, u)
    ensures bs[0].addr <= cs[0].addr && (bs[0].addr == cs[0].addr ==> End(bs[0]) <= End(cs[0]))
  {
    assert Holds(cs[0], cs[0].addr) && Inside(cs, cs[0].addr);
    var i :| 0 <= i < |bs| && Holds(bs[i], cs[0].addr);
    assert bs[0].addr == cs[0].addr ==> !Inside(bs, End(cs[0]));
  }
}
