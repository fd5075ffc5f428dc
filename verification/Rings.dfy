/** The circular doubly linked list of list.h. Links are arrays indexed by node; node 0
    is the list head. */
module Rings {

  /** The node after position i of the ring that starts at the head, round to the head. */
  function RingAt(items: seq<nat>, i: nat): nat
    requires i <= |items| + 1
  {
    if i == 0 || i == |items| + 1 then 0 else items[i - 1]
  }

  /** Insertion in the ring. */
  lemma InsertAt(items: seq<nat>, k: nat, elm: nat, i: nat)
    requires k <= |items| && i <= |items| + 2
    ensures
      var more := items[..k] + [elm] + items[k..];
      RingAt(more, i) == if i <= k then RingAt(items, i) else if i == k + 1 then elm else RingAt(items, i - 1)
  {
  }

  /** Deletion from the ring. */
  lemma DeleteAt(items: seq<nat>, k: nat, i: nat)
    requires k < |items| && i <= |items|
    ensures RingAt(items[..k] + items[k + 1..], i) == RingAt(items, if i <= k then i else i + 1)
  {
  }

  predicate Unlike(x: nat, y: nat) {
    x != y
  }

  ghost predicate Once(items: seq<nat>) {
    && (forall i :: 0 <= i < |items| ==> 0 < items[i])
    && (forall i, j {:trigger Unlike(items[i], items[j])} :: 0 <= i < j < |items| ==> Unlike(items[i], items[j]))
  }

  lemma OnceInsert(items: seq<nat>, k: nat, elm: nat)
    requires Once(items) && k <= |items| && 0 < elm && elm !in items
    ensures Once(items[..k] + [elm] + items[k..])
  {
    var more := items[..k] + [elm] + items[k..];
    forall i, j | 0 <= i < j < |more|
      ensures Unlike(more[i], more[j])
    {
      if i != k && j != k {
        assert Unlike(items[if i < k then i else i - 1], items[if j < k then j else j - 1]);
      }
    }
  }

  lemma OnceDelete(items: seq<nat>, k: nat)
    requires Once(items) && k < |items|
    ensures Once(items[..k] + items[k + 1..]) && items[k] !in items[..k] + items[k + 1..]
  {
    var less := items[..k] + items[k + 1..];
    forall i | 0 <= i < |less|
      ensures less[i] != items[k]
    {
      OnceRound(items, if i < k then i + 1 else i + 2, k + 1);
    }
    forall i, j | 0 <= i < j < |less|
      ensures Unlike(less[i], less[j])
    {
      assert Unlike(items[if i < k then i else i + 1], items[if j < k then j else j + 1]);
    }
  }

  /** Going round once, no node comes twice. */
  lemma OnceRound(items: seq<nat>, i: nat, j: nat)
    requires Once(items) && ((i <= |items| && j <= |items|) || (0 < i <= |items| + 1 && 0 < j <= |items| + 1))
    ensures i != j ==> RingAt(items, i) != RingAt(items, j)
  {
    if 0 < i < j <= |items| {
      assert Unlike(items[i - 1], items[j - 1]);
    } else if 0 < j < i <= |items| {
      assert Unlike(items[j - 1], items[i - 1]);
    }
  }

  ghost predicate NextAt(next: seq<nat>, items: seq<nat>, i: nat)
    requires i <= |items|
  {
    RingAt(items, i) < |next| && next[RingAt(items, i)] == RingAt(items, i + 1)
  }

  ghost predicate PrevAt(prev: seq<nat>, items: seq<nat>, i: nat)
    requires i <= |items|
  {
    RingAt(items, i + 1) < |prev| && prev[RingAt(items, i + 1)] == RingAt(items, i)
  }

  ghost predicate Nexts(next: seq<nat>, items: seq<nat>) {
    Once(items) && forall i {:trigger NextAt(next, items, i)} :: 0 <= i <= |items| ==> NextAt(next, items, i)
  }

  ghost predicate Prevs(prev: seq<nat>, items: seq<nat>) {
    Once(items) && forall i {:trigger PrevAt(prev, items, i)} :: 0 <= i <= |items| ==> PrevAt(prev, items, i)
  }

  /** The writes of __list_add to next, and to prev. */
  lemma LinkNext(link: seq<nat>, items: seq<nat>, elm: nat, k: nat)
    requires Nexts(link, items) && 0 < elm < |link| && elm !in items && k <= |items|
    ensures
      var x := RingAt(items, k);
      x < |link| && Nexts(link[x := elm][elm := RingAt(items, k + 1)], items[..k] + [elm] + items[k..])
  {
    assert NextAt(link, items, k);
    var x, more := RingAt(items, k), items[..k] + [elm] + items[k..];
    var link' := link[x := elm][elm := RingAt(items, k + 1)];
    OnceInsert(items, k, elm);
    forall i | 0 <= i <= |more|
      ensures NextAt(link', more, i)
    {
      InsertAt(items, k, elm, i);
      InsertAt(items, k, elm, i + 1);
      if i != k && i != k + 1 {
        var j := if i < k then i else i - 1;
        assert NextAt(link, items, j);
        OnceRound(items, j, k);
      }
    }
  }

  lemma LinkPrev(link: seq<nat>, items: seq<nat>, elm: nat, k: nat)
    requires Prevs(link, items) && 0 < elm < |link| && elm !in items && k <= |items|
    ensures
      var x := RingAt(items, k + 1);
      x < |link| && Prevs(link[x := elm][elm := RingAt(items, k)], items[..k] + [elm] + items[k..])
  {
    assert PrevAt(link, items, k);
    var x, more := RingAt(items, k + 1), items[..k] + [elm] + items[k..];
    var link' := link[x := elm][elm := RingAt(items, k)];
    OnceInsert(items, k, elm);
    forall i | 0 <= i <= |more|
      ensures PrevAt(link', more, i)
    {
      InsertAt(items, k, elm, i);
      InsertAt(items, k, elm, i + 1);
      if i != k && i != k + 1 {
        var j := if i < k then i else i - 1;
        assert PrevAt(link, items, j);
        OnceRound(items, j + 1, k + 1);
      }
    }
  }

  /** The write of __list_del to next, and to prev. */
  lemma DeleteNext(link: seq<nat>, items: seq<nat>, k: nat)
    requires Nexts(link, items) && k < |items|
    ensures
      var x := RingAt(items, k);
      x < |link| && Nexts(link[x := RingAt(items, k + 2)], items[..k] + items[k + 1..])
  {
    assert NextAt(link, items, k);
    var x, less := RingAt(items, k), items[..k] + items[k + 1..];
    var link' := link[x := RingAt(items, k + 2)];
    OnceDelete(items, k);
    forall i | 0 <= i <= |less|
      ensures NextAt(link', less, i)
    {
      DeleteAt(items, k, i);
      DeleteAt(items, k, i + 1);
      var j := if i < k then i else i + 1;
      assert NextAt(link, items, j);
      OnceRound(items, j, k);
    }
  }

  lemma DeletePrev(link: seq<nat>, items: seq<nat>, k: nat)
    requires Prevs(link, items) && k < |items|
    ensures
      var x := RingAt(items, k + 2);
      x < |link| && Prevs(link[x := RingAt(items, k)], items[..k] + items[k + 1..])
  {
    assert PrevAt(link, items, k + 1);
    var x, less := RingAt(items, k + 2), items[..k] + items[k + 1..];
    var link' := link[x := RingAt(items, k)];
    OnceDelete(items, k);
    forall i | 0 <= i <= |less|
      ensures PrevAt(link', less, i)
    {
      DeleteAt(items, k, i);
      DeleteAt(items, k, i + 1);
      var j := if i < k then i else i + 1;
      assert PrevAt(link, items, j);
      OnceRound(items, j + 1, k + 2);
    }
  }

  /** The links of a node outside the ring. */
  lemma OutsideKeeps(next: seq<nat>, prev: seq<nat>, items: seq<nat>, elm: nat)
    requires Nexts(next, items) && Prevs(prev, items) && 0 < elm < |next| == |prev| && elm !in items
    ensures Nexts(next[elm := elm], items) && Prevs(prev[elm := elm], items)
  {
    var next', prev' := next[elm := elm], prev[elm := elm];
    forall i | 0 <= i <= |items|
      ensures NextAt(next', items, i) && PrevAt(prev', items, i)
    {
      assert NextAt(next, items, i) && PrevAt(prev, items, i);
    }
  }

  class Ring {
    const next: array<nat>
    const prev: array<nat>
    ghost var items: seq<nat>   // the nodes after the head, in order

    ghost predicate Valid()
      reads this, next, prev
    {
      && next != prev && 0 < next.Length == prev.Length && (forall i :: 0 <= i < |items| ==> items[i] < next.Length)
      && Nexts(next[..], items) && Prevs(prev[..], items)
    }

    /** The links at position i of the ring. */
    lemma Links(i: nat)
      requires Valid() && i <= |items|
      ensures RingAt(items, i) < next.Length && next[RingAt(items, i)] == RingAt(items, i + 1)
      ensures RingAt(items, i + 1) < next.Length && prev[RingAt(items, i + 1)] == RingAt(items, i)
    {
      assert NextAt(next[..], items, i) && PrevAt(prev[..], items, i);
    }

    /** list_init of the head and of every node. */
    constructor (nodes: nat)
      ensures Valid() && items == [] && next.Length == nodes + 1 && fresh(next) && fresh(prev)
      ensures forall x :: 0 <= x < next.Length ==> next[x] == x
    {
      next, prev := new nat[nodes + 1](i => i), new nat[nodes + 1](i => i);
      items := [];
    }

    /** __list_add: elm goes between positions k and k + 1 of the ring. */
    method Link(elm: nat, p: nat, n: nat, ghost k: nat)
      requires Valid() && 0 < elm < next.Length && elm !in items
      requires k <= |items| && p == RingAt(items, k) && n == RingAt(items, k + 1)
      modifies next, prev, `items
      ensures Valid() && items == old(items)[..k] + [elm] + old(items)[k..]
      ensures forall x :: 0 < x < next.Length && x != elm && x !in old(items) ==> next[x] == old(next[x])
    {
      LinkNext(next[..], items, elm, k);
      LinkPrev(prev[..], items, elm, k);
      Links(k);
      prev[n] := elm;
      next[p] := elm;
      next[elm] := n;
      prev[elm] := p;
      items := items[..k] + [elm] + items[k..];
      assert next[..] == old(next[..])[p := elm][elm := n];
      assert prev[..] == old(prev[..])[n := elm][elm := p];
    }

    /** list_add: elm goes after le, which is at position k of the ring. */
    method AddAfter(le: nat, elm: nat, ghost k: nat)
      requires Valid() && 0 < elm < next.Length && elm !in items && k <= |items| && le == RingAt(items, k)
      modifies next, prev, `items
      ensures Valid() && items == old(items)[..k] + [elm] + old(items)[k..]
      ensures forall x :: 0 < x < next.Length && x != elm && x !in old(items) ==> next[x] == old(next[x])
    {
      Links(k);
      Link(elm, le, next[le], k);
    }

    /** list_add_before: elm goes before le, which is at position k + 1 of the ring. */
    method AddBefore(le: nat, elm: nat, ghost k: nat)
      requires Valid() && 0 < elm < next.Length && elm !in items && k <= |items| && le == RingAt(items, k + 1)
      modifies next, prev, `items
      ensures Valid() && items == old(items)[..k] + [elm] + old(items)[k..]
      ensures forall x :: 0 < x < next.Length && x != elm && x !in old(items) ==> next[x] == old(next[x])
    {
      Links(k);
      Link(elm, prev[le], le, k);
    }

    /** list_del of item k. */
    method Delete(elm: nat, ghost k: nat)
      requires Valid() && k < |items| && elm == items[k]
      modifies next, prev, `items
      ensures Valid() && items == old(items)[..k] + old(items)[k + 1..]
      ensures forall x :: 0 < x < next.Length && x !in old(items) ==> next[x] == old(next[x])
    {
      DeleteNext(next[..], items, k);
      DeletePrev(prev[..], items, k);
      Links(k);
      Links(k + 1);
      var p, n := prev[elm], next[elm];
      next[p] := n;
      prev[n] := p;
      items := items[..k] + items[k + 1..];
      assert next[..] == old(next[..])[p := n];
      assert prev[..] == old(prev[..])[n := p];
    }

    /** list_del_init of item k: the node is then linked to itself. */
    method DeleteInit(elm: nat, ghost k: nat)
      requires Valid() && k < |items| && elm == items[k]
      modifies next, prev, `items
      ensures Valid() && items == old(items)[..k] + old(items)[k + 1..] && next[elm] == elm
      ensures forall x :: 0 < x < next.Length && x !in old(items) ==> next[x] == old(next[x])
    {
      OnceDelete(items, k);
      Delete(elm, k);
      ghost var was, was' := next[..], prev[..];
      OutsideKeeps(was, was', items, elm);
      next[elm] := elm;
      prev[elm] := elm;
      assert next[..] == was[elm := elm];
      assert prev[..] == was'[elm := elm];
    }
  }
}
