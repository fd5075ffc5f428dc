/** Stride scheduling of a fixed set of runnable processes (default_sched.c and
    schedule in sched.c): the wrapped 32-bit strides, kept in a skew heap, behave
    as the unbounded strides they stand for. */
module StrideFairness {
  import Basics
  import opened SkewTree

  /** What stride_pick_next adds to a picked process's stride. */
  function Pass(priority: Word): Word {
    if priority > 1 then BIG_STRIDE / priority else BIG_STRIDE
  }

  /** d is how far a stride of the given priority is raised: the priority fits d times into BIG_STRIDE
      and not once more, and priority 0 counts as 1. */
  predicate IsPass(d: int, priority: Word) {
    if priority == 0 then d == BIG_STRIDE
    else d * priority <= BIG_STRIDE < d * priority + priority
  }

  lemma OneQuotient(x: nat, n: nat, d: int, q: int)
    requires n > 0 && q * n <= x < q * n + n
    ensures d * n <= x < d * n + n <==> d == q
  {
    if d < q {
      assert q * n == d * n + (q - d) * n;
      Basics.ProductBounds(q - d, n);
    } else if d > q {
      assert d * n == q * n + (d - q) * n;
      Basics.ProductBounds(d - q, n);
    }
  }

  /** Only the pass is such a number. */
  lemma PassIs(priority: Word, d: int)
    ensures IsPass(d, priority) <==> d == Pass(priority)
  {
    if 0 < priority {
      var q := BIG_STRIDE / priority;
      assert BIG_STRIDE == q * priority + BIG_STRIDE % priority;
      OneQuotient(BIG_STRIDE, priority, d, q);
    }
  }

  /** A stride is raised from `before` to `after`: by the pass, round the end of a word. */
  predicate Raised(before: Word, after: Word, priority: Word) {
    IsPass(Wrap(after - before), priority)
  }

  lemma RaisedByPass(before: Word, priority: Word)
    ensures Raised(before, Wrap(before + Pass(priority)), priority)
  {
    var d := Pass(priority);
    PassSmall(priority);
    PassIs(priority, d);
    var after := Wrap(before + d);
    assert after - before == d || after - before == d - TWO32;
  }

  /** Processes are numbered; `current` is running, if it is one of them, and every other one
      is in the heap. `runs` counts how often each was picked. */
  datatype State = State(
    heap: Tree<nat>,
    current: Basics.Option<nat>,
    stride: seq<Word>,
    priority: seq<Word>,
    runs: seq<nat>)

  function Running(s: State): set<nat> {
    if s.current.Some? then {s.current.value} else {}
  }

  ghost predicate Shape(s: State) {
    && 0 < |s.stride| == |s.priority| == |s.runs|
    && (s.current.Some? ==> s.current.value < |s.stride|)
    && Distinct(s.heap)
    && Items(s.heap) == Basics.AllBelow(|s.stride|) - Running(s)
    && KeysMatch(s.heap, s.stride)
  }

  /** Every heap entry carries its process's stride. */
  ghost predicate KeysMatch(t: Tree<nat>, stride: seq<Word>) {
    match t
    case Leaf => true
    case Node(l, x, key, r) => x < |stride| && key == stride[x] && KeysMatch(l, stride) && KeysMatch(r, stride)
  }

  /** The heap once schedule() has put the current process back. */
  function Refilled(s: State): Tree<nat>
    requires s.current.Some? ==> s.current.value < |s.stride|
  {
    if s.current.Some? then Insert(s.heap, s.current.value, s.stride[s.current.value]) else s.heap
  }

  /** There is something to pick. */
  ghost predicate CanPick(s: State) {
    && (s.current.Some? ==> s.current.value < |s.stride|)
    && |s.stride| == |s.priority| == |s.runs|
    && Refilled(s).Node? && Refilled(s).item < |s.stride|
  }

  /** schedule(): put the current process back, pick the root, raise its stride in
      place, and remove it. */
  ghost function Schedule(s: State): State
    requires CanPick(s)
  {
    var t := Refilled(s);
    var p := t.item;
    var key := Wrap(s.stride[p] + Pass(s.priority[p]));
    s.(heap := Remove(t.(key := key), p), current := Basics.Some(p), stride := s.stride[p := key],
       runs := s.runs[p := s.runs[p] + 1])
  }

  // ---------- the unbounded strides ----------

  /** The stride process i would have without wrap-around; start[i] is what it would have had
      before it was ever picked. */
  function Unbounded(s: State, start: seq<int>, i: nat): int
    requires i < |s.runs| == |s.priority| == |start|
  {
    start[i] + s.runs[i] * Pass(s.priority[i])
  }

  ghost predicate Sized(s: State, start: seq<int>) {
    |s.runs| == |s.priority| == |s.stride| == |start|
  }

  ghost predicate Wrapped(s: State, start: seq<int>)
    requires Sized(s, start)
  {
    forall i :: 0 <= i < |s.runs| ==> s.stride[i] == Wrap(Unbounded(s, start, i))
  }

  /** All unbounded strides lie in [low, low + BIG_STRIDE]. */
  ghost predicate Within(s: State, start: seq<int>, low: int)
    requires Sized(s, start)
  {
    forall i {:trigger Unbounded(s, start, i)} :: 0 <= i < |s.runs| ==>
      low <= Unbounded(s, start, i) <= low + BIG_STRIDE
  }

  ghost predicate InvAt(s: State, start: seq<int>, low: int) {
    && Shape(s) && Sized(s, start) && Wrapped(s, start) && Within(s, start, low)
    && Heap(s.heap, Wrap(low)) && InWindow(s.heap, Wrap(low))
  }

  lemma WrapAhead(low: int, x: int)
    requires low <= x <= low + BIG_STRIDE
    ensures Ahead(Wrap(low), Wrap(x)) == x - low
  {
    var d := x - low;
    assert Wrap(low + d) == Wrap(Wrap(low) + d) by { ModAdd(low, d); }
    var w := Wrap(low);
    assert Wrap(w + d) == w + d || Wrap(w + d) == w + d - TWO32;
  }

  lemma ModAdd(a: int, d: int)
    ensures (a + d) % TWO32 == (a % TWO32 + d) % TWO32
  {
    var q := a / TWO32;
    assert a == q * TWO32 + a % TWO32;
    ModShift(a % TWO32 + d, q);
  }

  lemma {:induction false} ModShift(a: int, q: int)
    ensures (a + q * TWO32) % TWO32 == a % TWO32
    decreases if q >= 0 then q else -q
  {
    if q > 0 {
      ModShift(a, q - 1);
      assert a + q * TWO32 == (a + (q - 1) * TWO32) + TWO32;
    } else if q < 0 {
      ModShift(a, q + 1);
      assert a + (q + 1) * TWO32 == (a + q * TWO32) + TWO32;
    }
  }

  /** Outside any window: the comparison of two strides d apart is right exactly up to 2^31.
      So a process that starts at 0 is taken to be ahead of one whose stride is above 2^31. */
  lemma CompExact(a: int, d: int)
    requires 0 < d < TWO32
    ensures StrideComp(Wrap(a), Wrap(a + d)) == -1 <==> d <= 0x8000_0000
    ensures StrideComp(Wrap(a + d), Wrap(a)) == 1 <==> d < 0x8000_0000
  {
    var turns := (a + d) / TWO32 - a / TWO32;
    assert Wrap(a) - Wrap(a + d) == -d + turns * TWO32;
    assert Wrap(a + d) - Wrap(a) == d + -turns * TWO32;
    ModShift(-d, turns);
    ModShift(d, -turns);
    assert Wrap(-d) == TWO32 - d;
  }

  lemma KeyAhead(s: State, start: seq<int>, low: int, i: nat)
    requires Sized(s, start) && i < |s.stride|
    requires Wrapped(s, start) && Within(s, start, low)
    ensures Ahead(Wrap(low), s.stride[i]) == Unbounded(s, start, i) - low
  {
    WrapAhead(low, Unbounded(s, start, i));
  }

  lemma {:induction false} MergeKeys(a: Tree<nat>, b: Tree<nat>, stride: seq<Word>)
    requires KeysMatch(a, stride) && KeysMatch(b, stride)
    ensures KeysMatch(Merge(a, b), stride)
    decreases Size(a) + Size(b)
  {
    if a.Node? && b.Node? {
      if StrideComp(a.key, b.key) == -1 {
        MergeKeys(a.right, b, stride);
      } else {
        MergeKeys(a, b.right, stride);
      }
    }
  }

  lemma {:induction false} KeysElsewhere(t: Tree<nat>, stride: seq<Word>, p: nat, key: Word)
    requires KeysMatch(t, stride) && p < |stride| && p !in Items(t)
    ensures KeysMatch(t, stride[p := key])
  {
    if t.Node? {
      KeysElsewhere(t.left, stride, p, key);
      KeysElsewhere(t.right, stride, p, key);
    }
  }

  /** The whole heap lies at or beyond its root, and a heap whose keys are all at
      least `low'` keeps its order when the window moves up to start there. */
  lemma {:induction false} MoveWindow(t: Tree<nat>, s: State, start: seq<int>, low: int, low': int)
    requires Sized(s, start)
    requires Wrapped(s, start) && Within(s, start, low) && Within(s, start, low') && low <= low'
    requires KeysMatch(t, s.stride) && Heap(t, Wrap(low))
    ensures Heap(t, Wrap(low')) && InWindow(t, Wrap(low'))
  {
    if t.Node? {
      MoveWindow(t.left, s, start, low, low');
      MoveWindow(t.right, s, start, low, low');
      KeyAhead(s, start, low, t.item);
      KeyAhead(s, start, low', t.item);
      var least := Ahead(Wrap(low), t.key);
      MoveLeast(t.left, s, start, low, low', least);
      MoveLeast(t.right, s, start, low, low', least);
    }
  }

  lemma {:induction false} MoveLeast(t: Tree<nat>, s: State, start: seq<int>, low: int, low': int, least: int)
    requires Sized(s, start)
    requires Wrapped(s, start) && Within(s, start, low) && Within(s, start, low') && low <= low'
    requires KeysMatch(t, s.stride) && AtLeast(t, Wrap(low), least)
    ensures AtLeast(t, Wrap(low'), least - (low' - low))
  {
    if t.Node? {
      KeyAhead(s, start, low, t.item);
      KeyAhead(s, start, low', t.item);
      MoveLeast(t.left, s, start, low, low', least);
      MoveLeast(t.right, s, start, low, low', least);
    }
  }

  lemma {:induction false} LeastHolds(t: Tree<nat>, s: State, start: seq<int>, low: int, least: int, j: nat)
    requires Sized(s, start)
    requires Wrapped(s, start) && Within(s, start, low)
    requires KeysMatch(t, s.stride) && AtLeast(t, Wrap(low), least) && j in Items(t)
    ensures j < |s.stride| && Unbounded(s, start, j) >= low + least
  {
    if j == t.item {
      KeyAhead(s, start, low, j);
    } else if j in Items(t.left) {
      LeastHolds(t.left, s, start, low, least, j);
    } else {
      LeastHolds(t.right, s, start, low, least, j);
    }
  }

  /** Putting the current process back keeps the heap in order, and it then holds
      every process once. */
  lemma RefilledFits(s: State, start: seq<int>, low: int)
    requires InvAt(s, start, low)
    ensures CanPick(s)
    ensures
      var t := Refilled(s);
      && Distinct(t) && Items(t) == Basics.AllBelow(|s.stride|)
      && KeysMatch(t, s.stride) && Heap(t, Wrap(low)) && InWindow(t, Wrap(low))
  {
    if s.current.Some? {
      var c := s.current.value;
      var one: Tree<nat> := Node(Leaf, c, s.stride[c], Leaf);
      KeyAhead(s, start, low, c);
      MergeItems(s.heap, one);
      MergeDistinct(s.heap, one);
      MergeKeys(s.heap, one, s.stride);
      MergeHeap(s.heap, one, Wrap(low));
    }
    assert 0 in Basics.AllBelow(|s.stride|);
    assert Items(Refilled(s)) == Basics.AllBelow(|s.stride|);
  }

  /** Every pick is a true minimum of the unbounded strides. */
  lemma PickIsMinimum(s: State, start: seq<int>, low: int, j: nat)
    requires InvAt(s, start, low) && j < |s.stride|
    ensures CanPick(s) && Unbounded(s, start, Refilled(s).item) <= Unbounded(s, start, j)
  {
    RefilledFits(s, start, low);
    var t := Refilled(s);
    assert t.item in Items(t);
    KeyAhead(s, start, low, t.item);
    if j != t.item {
      assert j in Items(t);
      if j in Items(t.left) {
        LeastHolds(t.left, s, start, low, Ahead(Wrap(low), t.key), j);
      } else {
        LeastHolds(t.right, s, start, low, Ahead(Wrap(low), t.key), j);
      }
    }
  }

  lemma QuotientBounds(a: nat, b: nat)
    requires b > 0
    ensures 0 <= a / b <= a
    ensures a / b == 0 <==> a < b
  {
    var q := a / b;
    assert a == q * b + a % b && 0 <= a % b < b;
    if q >= 1 {
      Basics.ProductBounds(q, b);
    }
  }

  lemma PassSmall(priority: Word)
    ensures 0 <= Pass(priority) <= BIG_STRIDE
  {
    if 1 < priority {
      QuotientBounds(BIG_STRIDE, priority);
    }
  }

  lemma UnboundedAfter(s: State, start: seq<int>, low: int, i: nat)
    requires InvAt(s, start, low) && i < |s.stride| && CanPick(s)
    ensures
      var p := Refilled(s).item;
      Unbounded(Schedule(s), start, i) == Unbounded(s, start, i) + (if i == p then Pass(s.priority[p]) else 0)
  {
    var p := Refilled(s).item;
    assert (s.runs[p] + 1) * Pass(s.priority[p]) == s.runs[p] * Pass(s.priority[p]) + Pass(s.priority[p]);
  }

  /** After a pick the strides still fit, in the window that starts at the pick. */
  lemma StridesAfter(s: State, start: seq<int>, low: int)
    requires InvAt(s, start, low) && CanPick(s)
    ensures
      var low' := Unbounded(s, start, Refilled(s).item);
      && low <= low' && Within(s, start, low')
      && Within(Schedule(s), start, low') && Wrapped(Schedule(s), start)
  {
    var p := Refilled(s).item;
    var s', low' := Schedule(s), Unbounded(s, start, p);
    forall i | 0 <= i < |s.stride|
      ensures low' <= Unbounded(s, start, i) <= low' + BIG_STRIDE
      ensures low' <= Unbounded(s', start, i) <= low' + BIG_STRIDE
      ensures s'.stride[i] == Wrap(Unbounded(s', start, i))
    {
      PickIsMinimum(s, start, low, i);
      UnboundedAfter(s, start, low, i);
      PassSmall(s.priority[p]);
      ModAdd(Unbounded(s, start, i), Pass(s.priority[p]));
    }
  }

  /** After a pick the heap holds everybody but the picked process. */
  lemma HeapAfter(s: State, start: seq<int>, low: int, low': int)
    requires InvAt(s, start, low) && CanPick(s)
    requires low <= low' && Within(s, start, low')
    ensures Shape(Schedule(s)) && Heap(Schedule(s).heap, Wrap(low')) && InWindow(Schedule(s).heap, Wrap(low'))
  {
    RefilledFits(s, start, low);
    var t, s' := Refilled(s), Schedule(s);
    assert s'.heap == Merge(t.left, t.right);
    MoveWindow(t, s, start, low, low');
    MergeHeap(t.left, t.right, Wrap(low'));
    MergeItems(t.left, t.right);
    MergeDistinct(t.left, t.right);
    MergeKeys(t.left, t.right, s.stride);
    KeysElsewhere(s'.heap, s.stride, t.item, s'.stride[t.item]);
    assert Items(s'.heap) == Items(t) - {t.item};
  }

  /** One call of schedule() keeps the invariant; the window moves up to the stride
      that was picked. */
  lemma ScheduleKeepsInv(s: State, start: seq<int>, low: int)
    requires InvAt(s, start, low)
    ensures CanPick(s)
    ensures InvAt(Schedule(s), start, Unbounded(s, start, Refilled(s).item))
  {
    PickIsMinimum(s, start, low, 0);
    StridesAfter(s, start, low);
    HeapAfter(s, start, low, Unbounded(s, start, Refilled(s).item));
  }

  // ---------- any start inside one window ----------

  /** All strides lie at most BIG_STRIDE beyond low. */
  ghost predicate Near(s: State, low: Word) {
    forall i :: 0 <= i < |s.stride| ==> Ahead(low, s.stride[i]) <= BIG_STRIDE
  }

  /** What the unbounded strides are counted from, if those of s lie where the words do. */
  function StartOf(s: State, low: Word): seq<int>
    requires |s.stride| == |s.priority| == |s.runs|
  {
    seq(|s.stride|, i requires 0 <= i < |s.stride| =>
      low + Ahead(low, s.stride[i]) - s.runs[i] * Pass(s.priority[i]))
  }

  lemma WrapBack(low: Word, k: Word)
    ensures Wrap(low + Ahead(low, k)) == k
  {
    assert Ahead(low, k) == k - low || Ahead(low, k) == k - low + TWO32;
  }

  lemma {:induction false} KeysInWindow(t: Tree<nat>, s: State, low: Word)
    requires KeysMatch(t, s.stride) && Near(s, low)
    ensures InWindow(t, low)
  {
    if t.Node? {
      KeysInWindow(t.left, s, low);
      KeysInWindow(t.right, s, low);
    }
  }

  /** Strides inside one window and a heap in order are all that is needed to start. */
  lemma StartFits(s: State, low: Word)
    requires Shape(s) && Near(s, low) && Heap(s.heap, low)
    ensures InvAt(s, StartOf(s, low), low)
  {
    var start := StartOf(s, low);
    forall i | 0 <= i < |s.runs|
      ensures Unbounded(s, start, i) == low + Ahead(low, s.stride[i])
      ensures s.stride[i] == Wrap(Unbounded(s, start, i))
    {
      WrapBack(low, s.stride[i]);
    }
    KeysInWindow(s.heap, s, low);
  }

  /** Any number of consecutive calls of schedule(). */
  ghost predicate Run(r: seq<State>, low: Word) {
    && |r| > 0 && Shape(r[0]) && Near(r[0], low) && Heap(r[0].heap, low)
    && forall k :: 0 <= k < |r| - 1 ==> StepTo(r[k], r[k + 1])
  }

  ghost predicate StepTo(s: State, s': State) {
    CanPick(s) && s' == Schedule(s)
  }

  lemma OneMore(r: seq<State>, low: Word) returns (more: seq<State>)
    requires Run(r, low) && CanPick(r[|r| - 1])
    ensures Run(more, low) && |more| == |r| + 1 && more[0] == r[0]
    ensures more[|r|] == Schedule(r[|r| - 1])
  {
    more := r + [Schedule(r[|r| - 1])];
    forall k | 0 <= k < |more| - 1
      ensures StepTo(more[k], more[k + 1])
    {
      assert more[k] == r[k];
      if k < |r| - 1 {
        assert StepTo(r[k], r[k + 1]) && more[k + 1] == r[k + 1];
      }
    }
  }

  /** The invariant holds in the last state of every run. */
  lemma {:induction false} RunInv(r: seq<State>, low: Word) returns (now: int)
    requires Run(r, low)
    ensures InvAt(r[|r| - 1], StartOf(r[0], low), now)
    ensures r[|r| - 1].priority == r[0].priority
  {
    if |r| == 1 {
      now := low;
      StartFits(r[0], low);
    } else {
      var start := StartOf(r[0], low);
      var before := RunInv(r[..|r| - 1], low);
      var s := r[|r| - 2];
      assert StepTo(s, r[|r| - 2 + 1]);
      ScheduleKeepsInv(s, start, before);
      now := Unbounded(s, start, Refilled(s).item);
    }
  }

  /** A run goes on for ever. */
  lemma {:induction false} RunOf(s: State, low: Word, n: nat) returns (r: seq<State>)
    requires Shape(s) && Near(s, low) && Heap(s.heap, low)
    ensures Run(r, low) && r[0] == s && |r| == n + 1
  {
    if n == 0 {
      r := [s];
    } else {
      var before := RunOf(s, low, n - 1);
      var now := RunInv(before, low);
      ScheduleKeepsInv(before[n - 1], StartOf(s, low), now);
      r := OneMore(before, low);
    }
  }

  // ---------- main results ----------

  /** How far beyond low a stride lies, unbounded, that was `stride` and was raised `gained` times. */
  function Moved(low: Word, stride: Word, gained: int, priority: Word): int {
    Ahead(low, stride) + gained * Pass(priority)
  }

  /** How far beyond low process i is at the end of a run. */
  function MovedIn(r: seq<State>, low: Word, i: nat): int
    requires |r| > 0 && i < |r[0].stride| == |r[0].priority| == |r[0].runs| == |r[|r| - 1].runs|
  {
    Moved(low, r[0].stride[i], r[|r| - 1].runs[i] as int - r[0].runs[i], r[0].priority[i])
  }

  /** For ever, once all strides lie in one window: they stay within BIG_STRIDE of each other,
      counted without wrap-around from where they were, and the wrap-around comparison is
      their true order. So from equal strides the CPU shares, picks times pass, differ by at
      most BIG_STRIDE. */
  lemma WindowAndFairness(r: seq<State>, low: Word, i: nat, j: nat)
    requires Run(r, low) && i < |r[0].stride| && j < |r[0].stride|
    ensures
      var s := r[|r| - 1];
      && |s.stride| == |s.runs| == |r[0].stride|
      && -BIG_STRIDE <= MovedIn(r, low, i) - MovedIn(r, low, j) <= BIG_STRIDE
      && s.stride[i] == Wrap(low + MovedIn(r, low, i))
      && (StrideComp(s.stride[i], s.stride[j]) == -1 <==> MovedIn(r, low, i) < MovedIn(r, low, j))
  {
    var now := RunInv(r, low);
    var s, start := r[|r| - 1], StartOf(r[0], low);
    KeyAhead(s, start, now, i);
    KeyAhead(s, start, now, j);
    CompIsOrder(Wrap(now), s.stride[i], s.stride[j]);
    UnboundedIsMoved(r, low, i);
    UnboundedIsMoved(r, low, j);
  }

  lemma UnboundedIsMoved(r: seq<State>, low: Word, i: nat)
    requires |r| > 0 && i < |r[0].stride| == |r[0].priority| == |r[0].runs| == |r[|r| - 1].runs|
    requires r[|r| - 1].priority == r[0].priority
    ensures Unbounded(r[|r| - 1], StartOf(r[0], low), i) == low + MovedIn(r, low, i)
  {
    var gained: int := r[|r| - 1].runs[i] as int - r[0].runs[i];
    var pass := Pass(r[0].priority[i]);
    assert gained * pass == r[|r| - 1].runs[i] * pass - r[0].runs[i] * pass;
  }

  /** Every process picked in a run is one whose unbounded stride is least at that moment. */
  lemma EveryPickIsMinimum(r: seq<State>, low: Word, j: nat)
    requires Run(r, low) && j < |r[0].stride|
    ensures
      var s := r[|r| - 1];
      && CanPick(s) && |s.runs| == |r[0].stride|
      && Refilled(s).item < |s.runs| && Schedule(s).current == Basics.Some(Refilled(s).item)
      && MovedIn(r, low, Refilled(s).item) <= MovedIn(r, low, j)
  {
    var now := RunInv(r, low);
    var s, start := r[|r| - 1], StartOf(r[0], low);
    PickIsMinimum(s, start, now, j);
    UnboundedIsMoved(r, low, Refilled(s).item);
    UnboundedIsMoved(r, low, j);
  }

  // ---------- nobody starves ----------

  function Total(runs: seq<nat>): nat {
    if runs == [] then 0 else Total(runs[..|runs| - 1]) + runs[|runs| - 1]
  }

  lemma {:induction false} TotalOneMore(runs: seq<nat>, p: nat)
    requires p < |runs|
    ensures Total(runs[p := runs[p] + 1]) == Total(runs) + 1
  {
    var more, n := runs[p := runs[p] + 1], |runs| - 1;
    if p < n {
      TotalOneMore(runs[..n], p);
      assert more[..n] == runs[..n][p := runs[p] + 1];
    } else {
      assert more[..n] == runs[..n];
    }
  }

  lemma {:induction false} RunTotal(r: seq<State>, low: Word)
    requires Run(r, low)
    ensures Total(r[|r| - 1].runs) == Total(r[0].runs) + |r| - 1
  {
    if |r| > 1 {
      var s := r[|r| - 2];
      RunTotal(r[..|r| - 1], low);
      assert StepTo(s, r[|r| - 2 + 1]);
      TotalOneMore(s.runs, Refilled(s).item);
    }
  }

  /** No pass is 0. */
  predicate Moderate(priority: seq<Word>) {
    forall j :: 0 <= j < |priority| ==> priority[j] <= BIG_STRIDE
  }

  /** How often the processes can be picked, each until it has moved by two windows. */
  function Turns(priority: seq<Word>): nat {
    if priority == [] then 0
    else
      var pass := Pass(priority[|priority| - 1]);
      PassSmall(priority[|priority| - 1]);
      Turns(priority[..|priority| - 1]) + (if pass > 0 then 2 * BIG_STRIDE / pass else 0)
  }

  lemma AtMostQuotient(x: nat, a: nat, b: nat)
    requires b > 0 && x * b <= a
    ensures x <= a / b
  {
    var q := a / b;
    assert a == q * b + a % b && 0 <= a % b < b;
    if x > q {
      assert x * b == q * b + (x - q) * b;
      Basics.ProductBounds(x - q, b);
    }
  }

  lemma {:induction false} FewTurns(before: seq<nat>, after: seq<nat>, priority: seq<Word>)
    requires |before| == |after| == |priority|
    requires Moderate(priority)
    requires forall j {:trigger after[j]} :: 0 <= j < |priority| ==>
      after[j] >= before[j] && (after[j] - before[j]) * Pass(priority[j]) <= 2 * BIG_STRIDE
    ensures Total(after) <= Total(before) + Turns(priority)
  {
    if |priority| > 0 {
      var n := |priority| - 1;
      FewTurns(before[..n], after[..n], priority[..n]);
      PassZero(priority[n]);
      PassSmall(priority[n]);
      assert after[n] >= before[n];
      AtMostQuotient(after[n] - before[n], 2 * BIG_STRIDE, Pass(priority[n]));
    }
  }

  lemma {:induction false} RunsGrow(r: seq<State>, low: Word, j: nat)
    requires Run(r, low) && j < |r[0].stride|
    ensures |r[|r| - 1].runs| == |r[0].runs| == |r[0].stride| && r[|r| - 1].runs[j] >= r[0].runs[j]
  {
    if |r| > 1 {
      RunsGrow(r[..|r| - 1], low, j);
      assert StepTo(r[|r| - 2], r[|r| - 2 + 1]);
    }
  }

  /** While one process is not picked, no other moves by more than two windows. */
  lemma OthersWait(r: seq<State>, low: Word, i: nat, j: nat)
    requires Run(r, low) && i < |r[0].stride| && j < |r[0].stride|
    requires |r[|r| - 1].runs| == |r[0].runs| && r[|r| - 1].runs[i] == r[0].runs[i]
    ensures (r[|r| - 1].runs[j] as int - r[0].runs[j]) * Pass(r[0].priority[j]) <= 2 * BIG_STRIDE
  {
    WindowAndFairness(r, low, i, j);
    assert MovedIn(r, low, i) == Ahead(low, r[0].stride[i]) <= BIG_STRIDE;
    var gained: int := r[|r| - 1].runs[j] as int - r[0].runs[j];
    assert MovedIn(r, low, j) == Ahead(low, r[0].stride[j]) + gained * Pass(r[0].priority[j]);
  }

  /** If no priority is above BIG_STRIDE, every process is picked among the first Turns + 1 picks. */
  lemma NobodyStarves(r: seq<State>, low: Word, i: nat)
    requires Run(r, low) && i < |r[0].stride|
    requires Moderate(r[0].priority)
    requires |r| - 1 > Turns(r[0].priority)
    ensures |r[|r| - 1].runs| == |r[0].runs| == |r[0].stride| && r[|r| - 1].runs[i] > r[0].runs[i]
  {
    var before, after := r[0].runs, r[|r| - 1].runs;
    RunsGrow(r, low, i);
    if after[i] == before[i] {
      forall j | 0 <= j < |before|
        ensures after[j] >= before[j] && (after[j] - before[j]) * Pass(r[0].priority[j]) <= 2 * BIG_STRIDE
      {
        RunsGrow(r, low, j);
        OthersWait(r, low, i, j);
      }
      FewTurns(before, after, r[0].priority);
      RunTotal(r, low);
    }
  }

  /** From every state on, a run is again one that starts inside one window. */
  lemma RunFrom(r: seq<State>, low: Word, k: nat) returns (low': Word)
    requires Run(r, low) && k < |r|
    ensures Run(r[k..], low') && r[k].priority == r[0].priority && |r[k].stride| == |r[0].stride|
  {
    var now := RunInv(r[..k + 1], low);
    var s, start := r[k], StartOf(r[0], low);
    low' := Wrap(now);
    forall i | 0 <= i < |s.stride|
      ensures Ahead(low', s.stride[i]) <= BIG_STRIDE
    {
      KeyAhead(s, start, now, i);
    }
    var rest := r[k..];
    forall j | 0 <= j < |rest| - 1
      ensures StepTo(rest[j], rest[j + 1])
    {
      assert StepTo(r[j + k], r[j + k + 1]);
    }
  }

  /** So every process is picked again and again, among any Turns + 1 consecutive picks. */
  lemma PickedAgain(r: seq<State>, low: Word, k: nat, i: nat)
    requires Run(r, low) && k < |r| && i < |r[0].stride|
    requires Moderate(r[0].priority) && |r| - 1 - k > Turns(r[0].priority)
    ensures |r[|r| - 1].runs| == |r[k].runs| == |r[0].stride| && r[|r| - 1].runs[i] > r[k].runs[i]
  {
    var low' := RunFrom(r, low, k);
    NobodyStarves(r[k..], low', i);
  }

  /** After k times as many picks every process has been picked k times. */
  lemma {:induction false} PickedOften(r: seq<State>, low: Word, i: nat, k: nat, turn: nat)
    requires Run(r, low) && i < |r[0].stride| && Moderate(r[0].priority)
    requires turn == Turns(r[0].priority) + 1 && |r| - 1 >= k * turn
    ensures |r[|r| - 1].runs| == |r[0].runs| == |r[0].stride| && r[|r| - 1].runs[i] >= r[0].runs[i] + k
  {
    if k == 0 {
      RunsGrow(r, low, i);
    } else {
      var before := (k - 1) * turn;
      assert k * turn == before + turn;
      PickedOften(r[..before + 1], low, i, k - 1, turn);
      PickedAgain(r, low, before, i);
    }
  }

  lemma InsertLeast(t: Tree<nat>, x: nat, key: Word)
    requires t.Node? ==> StrideComp(t.key, key) != -1
    ensures Insert(t, x, key) == Node(Merge(t, Leaf), x, key, Leaf)
    ensures Remove(Insert(t, x, key), x) == t
  {
  }

  /** The root of the heap does not compare as less than a stride that is least. */
  lemma RootIsNotLess(s: State, start: seq<int>, low: int, c: nat)
    requires InvAt(s, start, low) && s.heap.Node? && c < |s.stride|
    requires forall j {:trigger Unbounded(s, start, j)} :: 0 <= j < |s.stride| ==>
      Unbounded(s, start, c) <= Unbounded(s, start, j)
    ensures StrideComp(s.heap.key, s.stride[c]) != -1
  {
    KeyAhead(s, start, low, s.heap.item);
    KeyAhead(s, start, low, c);
    CompIsOrder(Wrap(low), s.heap.key, s.stride[c]);
  }

  lemma NothingRaised(s: State)
    requires CanPick(s) && Pass(s.priority[Refilled(s).item]) == 0
    ensures Schedule(s).stride == s.stride && Schedule(s).current == Basics.Some(Refilled(s).item)
  {
  }

  /** The pass is zero exactly for priorities beyond BIG_STRIDE; a running process
      with such a priority and a minimal stride is then picked every time. */
  lemma ZeroPassKeepsRunning(s: State, start: seq<int>, low: int, c: nat)
    requires InvAt(s, start, low) && s.current == Basics.Some(c)
    requires forall j {:trigger Unbounded(s, start, j)} :: 0 <= j < |s.stride| ==>
      Unbounded(s, start, c) <= Unbounded(s, start, j)
    ensures Pass(s.priority[c]) == 0 <==> s.priority[c] > BIG_STRIDE
    ensures CanPick(s) && Refilled(s).item == c
    ensures s.priority[c] > BIG_STRIDE ==>
      Schedule(s).current == s.current && Schedule(s).stride == s.stride
  {
    if s.heap.Node? {
      RootIsNotLess(s, start, low, c);
    }
    InsertLeast(s.heap, c, s.stride[c]);
    PassZero(s.priority[c]);
    if s.priority[c] > BIG_STRIDE {
      NothingRaised(s);
    }
  }

  lemma PassZero(priority: Word)
    ensures Pass(priority) == 0 <==> priority > BIG_STRIDE
  {
    if 1 < priority {
      QuotientBounds(BIG_STRIDE, priority);
    }
  }
}
