/** The pointer skew heap of skew_heap.h, with parent links, proved to build the
    trees of SkewTree. */
module SkewHeap {
  import opened SkewTree

  datatype ProcState = Uninit | Sleeping | Runnable | Zombie

  /** The parts of struct proc_struct that scheduling uses; left, right and parent
      are those of lab6_run_pool. */
  class Proc {
    var left: Proc?
    var right: Proc?
    var parent: Proc?
    var stride: Word
    var priority: Word
    var state: ProcState
    var waitState: nat
    var runs: nat
    var timeSlice: int
    var needResched: bool

    /** alloc_proc. */
    constructor ()
      ensures left == null && right == null && parent == null
      ensures stride == 0 && priority == 0 && state == Uninit && waitState == 0 && runs == 0
      ensures timeSlice == 0 && !needResched
    {
      left, right, parent := null, null, null;
      stride, priority, state, waitState, runs := 0, 0, Uninit, 0, 0;
      timeSlice, needResched := 0, false;
    }
  }

  // ---------- the links that a tree stands for ----------

  ghost function RootOf(t: Tree<Proc>): Proc? {
    if t.Leaf? then null else t.item
  }

  /** The subtree whose root is p. */
  ghost function At(t: Tree<Proc>, p: Proc): (s: Tree<Proc>)
    requires p in Items(t)
    ensures s.Node? && s.item == p
  {
    if p == t.item then t else if p in Items(t.left) then At(t.left, p) else At(t.right, p)
  }

  /** The entry above p. */
  ghost function Above(t: Tree<Proc>, p: Proc): Proc?
    requires p in Items(t)
  {
    if p == t.item then null
    else if p in Items(t.left) then (if RootOf(t.left) == p then t.item else Above(t.left, p))
    else (if RootOf(t.right) == p then t.item else Above(t.right, p))
  }

  /** n is the root of a heap laid out in memory as the tree t: left and right
      links, strides, and the parent links of all entries below the root. */
  ghost predicate HeapOf(n: Proc?, t: Tree<Proc>)
    reads Items(t)`left, Items(t)`right, Items(t)`parent, Items(t)`stride
  {
    && n == RootOf(t) && Distinct(t)
    && forall p {:trigger At(t, p)} {:trigger p in Items(t)} :: p in Items(t) ==>
      && p.left == RootOf(At(t, p).left) && p.right == RootOf(At(t, p).right) && p.stride == At(t, p).key
      && (p != n ==> p.parent == Above(t, p))
  }

  /** The two subheaps of a heap. */
  lemma Subheaps(n: Proc, t: Tree<Proc>)
    requires HeapOf(n, t)
    ensures HeapOf(n.left, t.left) && HeapOf(n.right, t.right)
    ensures n.left != null ==> n.left.parent == n
    ensures n.right != null ==> n.right.parent == n
  {
    assert At(t, n) == t;
    forall p | p in Items(t.left) || p in Items(t.right)
      ensures p in Items(t.left) ==> At(t, p) == At(t.left, p) && (p == t.left.item || Above(t, p) == Above(t.left, p))
      ensures p in Items(t.right) ==>
        At(t, p) == At(t.right, p) && (p == t.right.item || Above(t, p) == Above(t.right, p))
    {
    }
  }

  /** Two heaps under a new root. */
  lemma {:induction false} Joined(n: Proc, l: Tree<Proc>, r: Tree<Proc>)
    requires HeapOf(n.left, l) && HeapOf(n.right, r) && Items(l) !! Items(r)
    requires n !in Items(l) && n !in Items(r)
    requires n.left != null ==> n.left.parent == n
    requires n.right != null ==> n.right.parent == n
    ensures HeapOf(n, Node(l, n, n.stride, r))
  {
  }

  /** A tree that exists is made of entries that exist. */
  lemma {:induction false} ItemsExist(t: Tree<Proc>)
    ensures forall p :: p in Items(t) ==> allocated(p)
  {
    if t.Node? {
      ItemsExist(t.left);
      ItemsExist(t.right);
    }
  }

  /** The last lines of both branches of skew_heap_merge: the merged heap goes left
      and the old left heap goes right. */
  method Relink(p: Proc, l: Proc?, r: Proc?, ghost tl: Tree<Proc>, ghost tr: Tree<Proc>)
    requires HeapOf(l, tl) && HeapOf(r, tr) && Items(tl) !! Items(tr)
    requires p !in Items(tl) && p !in Items(tr) && (r != null ==> r.parent == p)
    modifies p`left, p`right, (if l == null then {} else {l})`parent
    ensures HeapOf(p, Node(tl, p, p.stride, tr))
  {
    p.left, p.right := l, r;
    if l != null {
      l.parent := p;
    }
    Joined(p, tl, tr);
  }

  /** skew_heap_merge: the links change in place to those of the merged tree; no
      stride and no root's parent is touched. `calls` counts the recursive calls. */
  method MergeHeaps(a: Proc?, b: Proc?, ghost ta: Tree<Proc>, ghost tb: Tree<Proc>)
    returns (root: Proc?, ghost calls: nat)
    requires HeapOf(a, ta) && HeapOf(b, tb) && Items(ta) !! Items(tb)
    modifies (Items(ta) + Items(tb))`left, (Items(ta) + Items(tb))`right, (Items(ta) + Items(tb))`parent
    ensures HeapOf(root, Merge(ta, tb)) && calls == Calls(ta, tb)
    ensures root != null ==> root.parent == old(root.parent)
    decreases Size(ta) + Size(tb)
  {
    if a == null {
      return b, 1;
    } else if b == null {
      return a, 1;
    }
    if StrideComp(a.stride, b.stride) == -1 {
      Subheaps(a, ta);
      var r := a.left;
      ItemsExist(ta.left);
      MergeItems(ta.right, tb);
      var l, c := MergeHeaps(a.right, b, ta.right, tb);
      Relink(a, l, r, Merge(ta.right, tb), ta.left);
      return a, 1 + c;
    } else {
      Subheaps(b, tb);
      var r := b.left;
      ItemsExist(tb.left);
      MergeItems(ta, tb.right);
      var l, c := MergeHeaps(a, b.right, ta, tb.right);
      Relink(b, l, r, Merge(ta, tb.right), tb.left);
      return b, 1 + c;
    }
  }

  /** skew_heap_insert. */
  method InsertHeap(a: Proc?, b: Proc, ghost t: Tree<Proc>) returns (root: Proc, ghost calls: nat)
    requires HeapOf(a, t) && b !in Items(t) && (a != null ==> a.parent == null)
    modifies (Items(t) + {b})`left, (Items(t) + {b})`right, (Items(t) + {b})`parent
    ensures HeapOf(root, Insert(t, b, b.stride)) && root.parent == null
    ensures calls == OpCalls(t, Add(b, b.stride))
  {
    b.left, b.right, b.parent := null, null, null;
    ItemsExist(t);
    ghost var one := Node(Leaf, b, b.stride, Leaf);
    MergeItems(t, one);
    var r, c := MergeHeaps(a, b, t, one);
    return r, c;
  }

  // ---------- removing an entry anywhere ----------

  /** The heap that takes the place of x. */
  ghost function Replacement(t: Tree<Proc>, x: Proc): Tree<Proc>
    requires x in Items(t)
  {
    Merge(At(t, x).left, At(t, x).right)
  }

  ghost function Replaced(link: Proc?, x: Proc, rep: Proc?): Proc? {
    if link == x then rep else link
  }

  lemma {:induction false} AtItems(t: Tree<Proc>, x: Proc)
    requires Distinct(t) && x in Items(t)
    ensures Distinct(At(t, x)) && Items(At(t, x)) <= Items(t)
    ensures x != t.item ==> t.item !in Items(At(t, x))
  {
    if x != t.item {
      AtItems(if x in Items(t.left) then t.left else t.right, x);
    }
  }

  lemma {:induction false} ReplacementItems(t: Tree<Proc>, x: Proc)
    requires Distinct(t) && x in Items(t)
    ensures Items(Replacement(t, x)) == Items(At(t, x)) - {x}
    ensures Items(Replacement(t, x)) <= Items(Remove(t, x)) && Distinct(Replacement(t, x))
  {
    AtItems(t, x);
    MergeItems(At(t, x).left, At(t, x).right);
    MergeDistinct(At(t, x).left, At(t, x).right);
    RemoveItems(t, x);
  }

  /** Inside the replacement, the links of the removed heap are those of the
      replacement. */
  lemma {:induction false} RemoveInside(t: Tree<Proc>, x: Proc, p: Proc)
    requires Distinct(t) && x in Items(t) && p in Items(Replacement(t, x))
    ensures p in Items(Remove(t, x)) && At(Remove(t, x), p) == At(Replacement(t, x), p)
    ensures x != t.item ==>
      Above(Remove(t, x), p) == if p == Replacement(t, x).item then Above(t, x) else Above(Replacement(t, x), p)
  {
    ReplacementItems(t, x);
    if x != t.item {
      var inLeft := x in Items(t.left);
      var side := if inLeft then t.left else t.right;
      RemoveInside(side, x, p);
      RemoveMissing(if inLeft then t.right else t.left, x);
      AtItems(side, x);
      ReplacementItems(side, x);
    }
  }

  /** Outside it, only the link that led to x changes, and it leads to the
      replacement. */
  lemma {:induction false} RemoveOutside(t: Tree<Proc>, x: Proc, p: Proc)
    requires Distinct(t) && x in Items(t) && x != t.item
    requires p in Items(t) && p != x && p !in Items(Replacement(t, x))
    ensures p in Items(Remove(t, x))
    ensures
      var u, v, rep := At(t, p), At(Remove(t, x), p), RootOf(Replacement(t, x));
      && v.key == u.key && RootOf(v.left) == Replaced(RootOf(u.left), x, rep)
      && RootOf(v.right) == Replaced(RootOf(u.right), x, rep)
    ensures Above(Remove(t, x), p) == Above(t, p)
  {
    var inLeft := x in Items(t.left);
    var side, other := if inLeft then t.left else t.right, if inLeft then t.right else t.left;
    RemoveMissing(other, x);
    RemoveItems(side, x);
    if p in Items(other) {
      AtItems(other, p);
    } else if p in Items(side) {
      ReplacementItems(side, x);
      RemoveOutside(side, x, p);
    } else {
      assert RootOf(other) != x;
      assert x == side.item ==> At(t, x) == side && Remove(side, x) == Replacement(t, x);
    }
  }

  /** The part of a heap that hangs at x is a heap. */
  lemma {:induction false} SubheapAt(n: Proc, t: Tree<Proc>, x: Proc)
    requires HeapOf(n, t) && x in Items(t)
    ensures HeapOf(x, At(t, x))
  {
    if x != n {
      Subheaps(n, t);
      if x in Items(t.left) {
        SubheapAt(n.left, t.left, x);
      } else {
        SubheapAt(n.right, t.right, x);
      }
    }
  }

  /** The removed heap is in place once the replacement is, and every other entry
      kept its links except the one that led to b. */
  lemma {:induction false} Spliced(a: Proc, t: Tree<Proc>, b: Proc)
    requires Distinct(t) && b in Items(t) && a == RootOf(t) && a != b
    requires HeapOf(RootOf(Replacement(t, b)), Replacement(t, b))
    requires RootOf(Replacement(t, b)) != null ==> RootOf(Replacement(t, b)).parent == Above(t, b)
    requires forall x :: x in Items(t) && x !in Items(At(t, b)) ==>
      && x.stride == At(t, x).key && (x != a ==> x.parent == Above(t, x))
      && x.left == Replaced(RootOf(At(t, x).left), b, RootOf(Replacement(t, b)))
      && x.right == Replaced(RootOf(At(t, x).right), b, RootOf(Replacement(t, b)))
    ensures HeapOf(a, Remove(t, b))
  {
    var m := Replacement(t, b);
    AtItems(t, b);
    ReplacementItems(t, b);
    RemoveItems(t, b);
    forall x | x in Items(Remove(t, b))
      ensures
        var u := At(Remove(t, b), x);
        && x.left == RootOf(u.left) && x.right == RootOf(u.right) && x.stride == u.key
        && (x != a ==> x.parent == Above(Remove(t, b), x))
    {
      if x in Items(m) {
        RemoveInside(t, b, x);
      } else {
        RemoveOutside(t, b, x);
      }
    }
  }

  /** The last lines of skew_heap_remove: rep takes the place of b below p. */
  method Splice(a: Proc, b: Proc, p: Proc, rep: Proc?, ghost t: Tree<Proc>)
    requires Distinct(t) && b in Items(t) && a == RootOf(t) && a != b && p == Above(t, b)
    requires HeapOf(rep, Replacement(t, b)) && (rep != null ==> rep.parent == p)
    requires forall x {:trigger At(t, x)} :: x in Items(t) && x !in Items(At(t, b)) ==>
      && x.left == RootOf(At(t, x).left) && x.right == RootOf(At(t, x).right) && x.stride == At(t, x).key
      && (x != a ==> x.parent == Above(t, x))
    modifies p`left, p`right
    ensures HeapOf(a, Remove(t, b))
  {
    AboveLeads(t, b);
    OnlyAboveLeads(t, b);
    ReplacementItems(t, b);
    if p.left == b {
      p.left := rep;
    } else {
      p.right := rep;
    }
    Spliced(a, t, b);
  }

  /** skew_heap_remove, for any entry b of the heap. */
  method RemoveFromHeap(a: Proc, b: Proc, ghost t: Tree<Proc>) returns (root: Proc?, ghost calls: nat)
    requires HeapOf(a, t) && b in Items(t) && a.parent == null
    modifies Items(t)`left, Items(t)`right, Items(t)`parent
    ensures HeapOf(root, Remove(t, b)) && (root != null ==> root.parent == null)
    ensures calls == Calls(At(t, b).left, At(t, b).right)
  {
    ItemsExist(t);
    AtItems(t, b);
    ReplacementItems(t, b);
    RemoveItems(t, b);
    ghost var sub := At(t, b);
    ghost var m := Replacement(t, b);
    var p := b.parent;
    if b != a {
      AboveLeads(t, b);
    }
    SubheapAt(a, t, b);
    Subheaps(b, sub);
    var rep, c := MergeHeaps(b.left, b.right, sub.left, sub.right);
    if rep != null {
      rep.parent := p;
    }
    if p == null {
      return rep, c;
    }
    Splice(a, b, p, rep, t);
    return a, c;
  }

  /** The entry above x is outside what x heads, and leads to x by one link. */
  lemma {:induction false} AboveLeads(t: Tree<Proc>, x: Proc)
    requires Distinct(t) && x in Items(t) && x != t.item
    ensures
      var q := Above(t, x);
      && q != null && q in Items(t) && q !in Items(At(t, x))
      && (RootOf(At(t, q).left) == x || RootOf(At(t, q).right) == x)
      && RootOf(At(t, q).left) != RootOf(At(t, q).right)
  {
    var side := if x in Items(t.left) then t.left else t.right;
    AtItems(side, x);
    if x != side.item {
      AboveLeads(side, x);
    }
  }

  /** No other entry leads to x. */
  lemma {:induction false} OnlyAboveLeads(t: Tree<Proc>, x: Proc)
    requires Distinct(t) && x in Items(t) && x != t.item
    ensures forall p :: p in Items(t) && p != Above(t, x) ==> RootOf(At(t, p).left) != x && RootOf(At(t, p).right) != x
  {
    var side, other := if x in Items(t.left) then t.left else t.right, if x in Items(t.left) then t.right else t.left;
    if x != side.item {
      OnlyAboveLeads(side, x);
    }
    forall p | p in Items(t) && p != Above(t, x)
      ensures RootOf(At(t, p).left) != x && RootOf(At(t, p).right) != x
    {
      if p in Items(other) {
        AtItems(other, p);
      } else if p in Items(side) {
        AtItems(side, p);
      }
    }
  }
}
