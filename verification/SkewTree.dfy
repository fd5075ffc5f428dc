/** Skew heaps as values: the tree that skew_heap.h builds out of links, with the
    wrap-around stride comparison of default_sched.c as its order. */
module SkewTree {
  import Basics

  const TWO32: int := 0x1_0000_0000

  /** lab6_stride, an unsigned 32-bit number. */
  type Word = x: int | 0 <= x < TWO32

  /** BIG_STRIDE of default_sched.c. */
  const BIG_STRIDE: int := 219695257

  function Wrap(x: int): Word {
    x % TWO32
  }

  /** The int32_t value of the difference p - q of two words. */
  function SignedDifference(p: Word, q: Word): int {
    var d := Wrap(p - q);
    if d < 0x8000_0000 then d else d - TWO32
  }

  /** proc_stride_comp_f. */
  function StrideComp(p: Word, q: Word): int {
    var c := SignedDifference(p, q);
    if c > 0 then 1 else if c == 0 then 0 else -1
  }

  datatype Tree<T> = Leaf | Node(left: Tree<T>, item: T, key: Word, right: Tree<T>)

  ghost function Items<T>(t: Tree<T>): set<T> {
    match t
    case Leaf => {}
    case Node(l, x, _, r) => Items(l) + {x} + Items(r)
  }

  function Size<T>(t: Tree<T>): nat {
    match t
    case Leaf => 0
    case Node(l, _, _, r) => Size(l) + 1 + Size(r)
  }

  /** No item occurs twice. */
  ghost predicate Distinct<T>(t: Tree<T>) {
    match t
    case Leaf => true
    case Node(l, x, _, r) => x !in Items(l) && x !in Items(r) && Items(l) !! Items(r) && Distinct(l) && Distinct(r)
  }

  /** skew_heap_merge. */
  function Merge<T>(a: Tree<T>, b: Tree<T>): Tree<T>
    decreases Size(a) + Size(b)
  {
    if a.Leaf? then b
    else if b.Leaf? then a
    else if StrideComp(a.key, b.key) == -1 then Node(Merge(a.right, b), a.item, a.key, a.left)
    else Node(Merge(a, b.right), b.item, b.key, b.left)
  }

  /** skew_heap_insert of a single entry. */
  function Insert<T>(t: Tree<T>, x: T, key: Word): Tree<T> {
    Merge(t, Node(Leaf, x, key, Leaf))
  }

  /** skew_heap_remove of entry x. */
  function Remove<T(==)>(t: Tree<T>, x: T): Tree<T> {
    match t
    case Leaf => Leaf
    case Node(l, y, key, r) => if x == y then Merge(l, r) else Node(Remove(l, x), y, key, Remove(r, x))
  }

  /** Merging loses and duplicates nothing. */
  lemma {:induction false} MergeItems<T>(a: Tree<T>, b: Tree<T>)
    ensures Items(Merge(a, b)) == Items(a) + Items(b)
    ensures Size(Merge(a, b)) == Size(a) + Size(b)
    decreases Size(a) + Size(b)
  {
    if a.Node? && b.Node? {
      if StrideComp(a.key, b.key) == -1 {
        MergeItems(a.right, b);
      } else {
        MergeItems(a, b.right);
      }
    }
  }

  lemma {:induction false} MergeDistinct<T>(a: Tree<T>, b: Tree<T>)
    requires Distinct(a) && Distinct(b) && Items(a) !! Items(b)
    ensures Distinct(Merge(a, b))
    decreases Size(a) + Size(b)
  {
    if a.Node? && b.Node? {
      if StrideComp(a.key, b.key) == -1 {
        MergeDistinct(a.right, b);
        MergeItems(a.right, b);
      } else {
        MergeDistinct(a, b.right);
        MergeItems(a, b.right);
      }
    }
  }

  lemma {:induction false} RemoveMissing<T>(t: Tree<T>, x: T)
    requires x !in Items(t)
    ensures Remove(t, x) == t
  {
    if t.Node? {
      RemoveMissing(t.left, x);
      RemoveMissing(t.right, x);
    }
  }

  /** Removing an entry removes it and nothing else. */
  lemma {:induction false} RemoveItems<T>(t: Tree<T>, x: T)
    requires Distinct(t)
    ensures Items(Remove(t, x)) == Items(t) - {x} && Distinct(Remove(t, x))
    ensures Size(Remove(t, x)) == Size(t) - (if x in Items(t) then 1 else 0)
  {
    if t.Node? {
      if x == t.item {
        MergeItems(t.left, t.right);
        MergeDistinct(t.left, t.right);
      } else {
        RemoveItems(t.left, x);
        RemoveItems(t.right, x);
      }
    }
  }

  // ---------- order, inside a window of strides ----------

  /** How far the word k lies beyond base, going upwards and wrapping. */
  function Ahead(base: Word, k: Word): Word {
    Wrap(k - base)
  }

  /** Every key lies at most BIG_STRIDE beyond base. */
  ghost predicate InWindow<T>(t: Tree<T>, base: Word) {
    match t
    case Leaf => true
    case Node(l, _, key, r) => Ahead(base, key) <= BIG_STRIDE && InWindow(l, base) && InWindow(r, base)
  }

  /** No key in t is behind `least`. */
  ghost predicate AtLeast<T>(t: Tree<T>, base: Word, least: int) {
    match t
    case Leaf => true
    case Node(l, _, key, r) => Ahead(base, key) >= least && AtLeast(l, base, least) && AtLeast(r, base, least)
  }

  /** Heap order: no key is behind one above it. */
  ghost predicate Heap<T>(t: Tree<T>, base: Word) {
    match t
    case Leaf => true
    case Node(l, _, key, r) =>
      Heap(l, base) && Heap(r, base) && AtLeast(l, base, Ahead(base, key)) && AtLeast(r, base, Ahead(base, key))
  }

  /** Inside the window the wrap-around comparison is the true order. */
  lemma CompIsOrder(base: Word, p: Word, q: Word)
    requires Ahead(base, p) <= BIG_STRIDE && Ahead(base, q) <= BIG_STRIDE
    ensures SignedDifference(p, q) == Ahead(base, p) - Ahead(base, q)
    ensures StrideComp(p, q) == -1 <==> Ahead(base, p) < Ahead(base, q)
  {
  }

  lemma {:induction false} AtLeastWeaken<T>(t: Tree<T>, base: Word, low: int, high: int)
    requires AtLeast(t, base, high) && low <= high
    ensures AtLeast(t, base, low)
  {
    if t.Node? {
      AtLeastWeaken(t.left, base, low, high);
      AtLeastWeaken(t.right, base, low, high);
    }
  }

  lemma {:induction false} MergeAtLeast<T>(a: Tree<T>, b: Tree<T>, base: Word, least: int)
    requires AtLeast(a, base, least) && AtLeast(b, base, least)
    ensures AtLeast(Merge(a, b), base, least)
    decreases Size(a) + Size(b)
  {
    if a.Node? && b.Node? {
      if StrideComp(a.key, b.key) == -1 {
        MergeAtLeast(a.right, b, base, least);
      } else {
        MergeAtLeast(a, b.right, base, least);
      }
    }
  }

  /** Merging keeps heap order and the window. */
  lemma {:induction false} MergeHeap<T>(a: Tree<T>, b: Tree<T>, base: Word)
    requires Heap(a, base) && Heap(b, base) && InWindow(a, base) && InWindow(b, base)
    ensures Heap(Merge(a, b), base) && InWindow(Merge(a, b), base)
    decreases Size(a) + Size(b)
  {
    if a.Node? && b.Node? {
      CompIsOrder(base, a.key, b.key);
      var ka, kb := Ahead(base, a.key), Ahead(base, b.key);
      if StrideComp(a.key, b.key) == -1 {
        MergeHeap(a.right, b, base);
        AtLeastWeaken(b.left, base, ka, kb);
        AtLeastWeaken(b.right, base, ka, kb);
        MergeAtLeast(a.right, b, base, ka);
      } else {
        MergeHeap(a, b.right, base);
        AtLeastWeaken(a.left, base, kb, ka);
        AtLeastWeaken(a.right, base, kb, ka);
        MergeAtLeast(a, b.right, base, kb);
      }
    }
  }

  lemma {:induction false} RemoveAtLeast<T>(t: Tree<T>, x: T, base: Word, least: int)
    requires AtLeast(t, base, least)
    ensures AtLeast(Remove(t, x), base, least)
  {
    if t.Node? {
      if x == t.item {
        MergeAtLeast(t.left, t.right, base, least);
      } else {
        RemoveAtLeast(t.left, x, base, least);
        RemoveAtLeast(t.right, x, base, least);
      }
    }
  }

  /** Removing any entry keeps heap order and the window. */
  lemma {:induction false} RemoveHeap<T>(t: Tree<T>, x: T, base: Word)
    requires Heap(t, base) && InWindow(t, base)
    ensures Heap(Remove(t, x), base) && InWindow(Remove(t, x), base)
  {
    if t.Node? {
      if x == t.item {
        MergeHeap(t.left, t.right, base);
      } else {
        RemoveHeap(t.left, x, base);
        RemoveHeap(t.right, x, base);
        RemoveAtLeast(t.left, x, base, Ahead(base, t.key));
        RemoveAtLeast(t.right, x, base, Ahead(base, t.key));
      }
    }
  }

  // ---------- amortised cost ----------

  /** The calls of skew_heap_merge made by merging a and b. */
  function Calls<T>(a: Tree<T>, b: Tree<T>): nat
    decreases Size(a) + Size(b)
  {
    if a.Leaf? || b.Leaf? then 1
    else if StrideComp(a.key, b.key) == -1 then 1 + Calls(a.right, b)
    else 1 + Calls(a, b.right)
  }

  predicate RightHeavy<T>(t: Tree<T>) {
    t.Node? && Size(t.right) > Size(t.left)
  }

  /** The potential: the number of right-heavy entries. */
  function Potential<T>(t: Tree<T>): nat {
    match t
    case Leaf => 0
    case Node(l, _, _, r) => Potential(l) + Potential(r) + (if RightHeavy(t) then 1 else 0)
  }

  /** The number of binary digits of n. */
  function Bits(n: nat): nat {
    if n == 0 then 0 else 1 + Bits(n / 2)
  }

  lemma {:induction false} BitsMonotone(m: nat, n: nat)
    requires m <= n
    ensures Bits(m) <= Bits(n)
  {
    if m > 0 {
      BitsMonotone(m / 2, n / 2);
    }
  }

  /** Bits is the logarithm: n takes more than k digits exactly when n >= 2^k. */
  lemma {:induction false} BitsIsLogarithm(n: nat, k: nat)
    ensures Bits(n) > k <==> n >= Basics.Pow2(k)
  {
    if k > 0 && n > 0 {
      BitsIsLogarithm(n / 2, k - 1);
    }
  }

  /** One merge: its calls and the rise in potential are paid for by the digits of
      the two sizes. */
  lemma {:induction false} MergeCost<T>(a: Tree<T>, b: Tree<T>)
    ensures Calls(a, b) + Potential(Merge(a, b))
         <= Potential(a) + Potential(b) + 1 + 2 * (Bits(Size(a)) + Bits(Size(b)))
    decreases Size(a) + Size(b)
  {
    if a.Node? && b.Node? {
      if StrideComp(a.key, b.key) == -1 {
        MergeCost(a.right, b);
        MergeItems(a.right, b);
        LightStep(a);
      } else {
        MergeCost(a, b.right);
        MergeItems(a, b.right);
        LightStep(b);
      }
    }
  }

  /** Going right at an entry that is not right-heavy loses a binary digit. */
  lemma {:induction false} LightStep<T>(t: Tree<T>)
    requires t.Node?
    ensures Bits(Size(t.right)) <= Bits(Size(t))
    ensures !RightHeavy(t) ==> Bits(Size(t.right)) + 1 <= Bits(Size(t))
  {
    BitsMonotone(Size(t.right), Size(t));
    if !RightHeavy(t) {
      BitsMonotone(Size(t.right), Size(t) / 2);
    }
  }

  datatype Op<T> = Add(item: T, key: Word) | Pop

  /** Removing the root. */
  function PopRoot<T>(t: Tree<T>): Tree<T> {
    if t.Leaf? then Leaf else Merge(t.left, t.right)
  }

  function Apply<T>(t: Tree<T>, op: Op<T>): Tree<T> {
    match op
    case Add(x, key) => Insert(t, x, key)
    case Pop => PopRoot(t)
  }

  function OpCalls<T>(t: Tree<T>, op: Op<T>): nat {
    match op
    case Add(x, key) => Calls(t, Node(Leaf, x, key, Leaf))
    case Pop => if t.Leaf? then 0 else Calls(t.left, t.right)
  }

  function ApplyAll<T>(t: Tree<T>, ops: seq<Op<T>>): Tree<T> {
    if ops == [] then t else Apply(ApplyAll(t, ops[..|ops| - 1]), ops[|ops| - 1])
  }

  /** The calls of skew_heap_merge made by a whole sequence of operations. */
  function AllCalls<T>(t: Tree<T>, ops: seq<Op<T>>): nat {
    if ops == [] then 0
    else AllCalls(t, ops[..|ops| - 1]) + OpCalls(ApplyAll(t, ops[..|ops| - 1]), ops[|ops| - 1])
  }

  lemma {:induction false} OpCost<T>(t: Tree<T>, op: Op<T>)
    ensures OpCalls(t, op) + Potential(Apply(t, op)) <= Potential(t) + 3 + 4 * Bits(Size(t))
  {
    match op
    case Add(x, key) =>
      MergeCost(t, Node(Leaf, x, key, Leaf));
      assert Bits(1) == 1;
    case Pop =>
      if t.Node? {
        MergeCost(t.left, t.right);
        BitsMonotone(Size(t.left), Size(t));
        BitsMonotone(Size(t.right), Size(t));
      }
  }

  /** Every heap that an operation of the sequence works on has at most n entries. */
  predicate SizesWithin<T>(ops: seq<Op<T>>, n: nat) {
    ops != [] ==> SizesWithin(ops[..|ops| - 1], n) && Size(ApplyAll(Leaf, ops[..|ops| - 1])) <= n
  }

  /** Amortised bound: starting empty, m insertions and root removals on heaps of at
      most n entries make at most m * (3 + 4 * Bits(n)) calls of skew_heap_merge. */
  lemma {:induction false} AmortisedCost<T>(ops: seq<Op<T>>, n: nat)
    requires SizesWithin(ops, n)
    ensures AllCalls(Leaf, ops) + Potential(ApplyAll(Leaf, ops)) <= |ops| * (3 + 4 * Bits(n))
  {
    if ops != [] {
      var before, op := ops[..|ops| - 1], ops[|ops| - 1];
      AmortisedCost(before, n);
      CostOfOne(ApplyAll(Leaf, before), op, n);
      AddOne(|before|, 3 + 4 * Bits(n));
    }
  }

  lemma {:induction false} CostOfOne<T>(t: Tree<T>, op: Op<T>, n: nat)
    requires Size(t) <= n
    ensures OpCalls(t, op) + Potential(Apply(t, op)) <= Potential(t) + 3 + 4 * Bits(n)
  {
    OpCost(t, op);
    BitsMonotone(Size(t), n);
  }

  lemma AddOne(m: nat, c: nat)
    ensures (m + 1) * c == m * c + c
  {
  }
}
