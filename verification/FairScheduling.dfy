/** The scheduler over the pointer heap does, for a fixed set of runnable processes, what
    StrideFairness says of numbered ones; so what is proved there holds of the fields. */
module FairScheduling {
  import Basics
  import opened SkewTree
  import opened SkewHeap
  import StrideFairness
  import Shares
  import Scheduler

  /** Every item is a number below n. */
  ghost predicate Numbered(t: Tree<nat>, n: nat) {
    match t
    case Leaf => true
    case Node(l, x, _, r) => x < n && Numbered(l, n) && Numbered(r, n)
  }

  /** The tree with processes for their numbers. */
  ghost function Named(t: Tree<nat>, names: seq<Proc>): Tree<Proc>
    requires Numbered(t, |names|)
  {
    match t
    case Leaf => Leaf
    case Node(l, x, key, r) => Node(Named(l, names), names[x], key, Named(r, names))
  }

  lemma {:induction false} NamedMerge(a: Tree<nat>, b: Tree<nat>, names: seq<Proc>)
    requires Numbered(a, |names|) && Numbered(b, |names|)
    ensures Numbered(Merge(a, b), |names|)
    ensures Named(Merge(a, b), names) == Merge(Named(a, names), Named(b, names))
    decreases Size(a) + Size(b)
  {
    if a.Node? && b.Node? {
      if StrideComp(a.key, b.key) == -1 {
        NamedMerge(a.right, b, names);
      } else {
        NamedMerge(a, b.right, names);
      }
    }
  }

  lemma {:induction false} NamedRemove(t: Tree<nat>, x: nat, names: seq<Proc>)
    requires Basics.NoDuplicates(names) && x < |names| && Numbered(t, |names|)
    ensures Numbered(Remove(t, x), |names|)
    ensures Named(Remove(t, x), names) == Remove(Named(t, names), names[x])
  {
    if t.Node? {
      if t.item == x {
        NamedMerge(t.left, t.right, names);
      } else {
        assert names[t.item] != names[x];
        NamedRemove(t.left, x, names);
        NamedRemove(t.right, x, names);
      }
    }
  }

  // ---------- the numbered state that the fields stand for ----------

  /** names has each of `all` once. */
  ghost predicate Lists(names: seq<Proc>, all: set<Proc>) {
    Basics.NoDuplicates(names) && (set p | p in names) == all
  }

  ghost function NumberOf(names: seq<Proc>, p: Proc): (i: nat)
    requires p in names
    ensures i < |names| && names[i] == p
  {
    var i :| 0 <= i < |names| && names[i] == p;
    i
  }

  /** The tree with numbers for the processes. */
  ghost function Numbers(t: Tree<Proc>, names: seq<Proc>): Tree<nat>
    requires forall p :: p in Items(t) ==> p in names
  {
    match t
    case Leaf => Leaf
    case Node(l, p, key, r) => Node(Numbers(l, names), NumberOf(names, p), key, Numbers(r, names))
  }

  lemma {:induction false} NumbersNamed(t: Tree<Proc>, names: seq<Proc>)
    requires Basics.NoDuplicates(names) && forall p :: p in Items(t) ==> p in names
    ensures Numbered(Numbers(t, names), |names|) && Named(Numbers(t, names), names) == t
    ensures forall i: nat :: i in Items(Numbers(t, names)) <==> i < |names| && names[i] in Items(t)
  {
    if t.Node? {
      NumbersNamed(t.left, names);
      NumbersNamed(t.right, names);
      forall i: nat | i < |names|
        ensures i == NumberOf(names, t.item) <==> names[i] == t.item
      {
        var k := NumberOf(names, t.item);
        if i != k {
          assert names[i] != names[k];
        }
      }
    }
  }

  lemma {:induction false} NumbersDistinct(t: Tree<Proc>, names: seq<Proc>)
    requires Basics.NoDuplicates(names) && (forall p :: p in Items(t) ==> p in names) && Distinct(t)
    ensures Distinct(Numbers(t, names))
  {
    if t.Node? {
      NumbersDistinct(t.left, names);
      NumbersDistinct(t.right, names);
      NumbersNamed(t.left, names);
      NumbersNamed(t.right, names);
    }
  }

  lemma {:induction false} NumbersAtLeast(t: Tree<Proc>, names: seq<Proc>, low: Word, least: int)
    requires AtLeast(t, low, least) && forall p :: p in Items(t) ==> p in names
    ensures AtLeast(Numbers(t, names), low, least)
  {
    if t.Node? {
      NumbersAtLeast(t.left, names, low, least);
      NumbersAtLeast(t.right, names, low, least);
    }
  }

  lemma {:induction false} NumbersHeap(t: Tree<Proc>, names: seq<Proc>, low: Word)
    requires Heap(t, low) && forall p :: p in Items(t) ==> p in names
    ensures Heap(Numbers(t, names), low)
  {
    if t.Node? {
      NumbersHeap(t.left, names, low);
      NumbersHeap(t.right, names, low);
      NumbersAtLeast(t.left, names, low, Ahead(low, t.key));
      NumbersAtLeast(t.right, names, low, Ahead(low, t.key));
    }
  }

  lemma {:induction false} NumbersKeys(t: Tree<Proc>, names: seq<Proc>, stride: seq<Word>)
    requires Distinct(t) && |stride| == |names| && forall p :: p in Items(t) ==> p in names
    requires forall p {:trigger At(t, p)} :: p in Items(t) ==> stride[NumberOf(names, p)] == At(t, p).key
    ensures StrideFairness.KeysMatch(Numbers(t, names), stride)
  {
    if t.Node? {
      assert At(t, t.item) == t;
      forall p | p in Items(t.left)
        ensures stride[NumberOf(names, p)] == At(t.left, p).key
      {
        assert At(t, p) == At(t.left, p);
      }
      forall p | p in Items(t.right)
        ensures stride[NumberOf(names, p)] == At(t.right, p).key
      {
        assert At(t, p) == At(t.right, p);
      }
      NumbersKeys(t.left, names, stride);
      NumbersKeys(t.right, names, stride);
    }
  }

  /** schedule() will put the current process back. */
  ghost predicate Returns(sched: Scheduler.Scheduler)
    reads sched, sched.current
  {
    sched.current.state == Runnable && sched.current != sched.idle
  }

  /** Process number i of s is names[i], all of them are runnable, and the heap is that of s. */
  ghost predicate Stands(sched: Scheduler.Scheduler, s: StrideFairness.State, names: seq<Proc>)
    reads sched, sched.current, sched.procs
  {
    && StrideFairness.Shape(s) && |names| == |s.stride| && Basics.NoDuplicates(names)
    && (forall i :: 0 <= i < |names| ==>
         names[i] in sched.procs && names[i] != sched.idle && names[i].state == Runnable)
    && (forall i :: 0 <= i < |names| ==>
         names[i].stride == s.stride[i] && names[i].priority == s.priority[i] && names[i].runs == s.runs[i])
    && (Returns(sched) <==> s.current.Some?)
    && (s.current.Some? ==> sched.current == names[s.current.value])
    && Numbered(s.heap, |names|) && sched.heap == Named(s.heap, names)
  }

  lemma FieldsOf(names: seq<Proc>) returns (s: StrideFairness.State)
    ensures |s.stride| == |s.priority| == |s.runs| == |names|
    ensures forall i :: 0 <= i < |names| ==>
      names[i].stride == s.stride[i] && names[i].priority == s.priority[i] && names[i].runs == s.runs[i]
  {
    var stride, priority, runs := [], [], [];
    for i := 0 to |names|
      invariant |stride| == |priority| == |runs| == i
      invariant forall k :: 0 <= k < i ==>
        names[k].stride == stride[k] && names[k].priority == priority[k] && names[k].runs == runs[k]
    {
      stride, priority, runs := stride + [names[i].stride], priority + [names[i].priority], runs + [names[i].runs];
    }
    s := StrideFairness.State(Leaf, Basics.None, stride, priority, runs);
  }

  /** The numbers in the heap are those of all but the current process. */
  lemma NumbersWaiting(sched: Scheduler.Scheduler, names: seq<Proc>, s: StrideFairness.State)
    requires sched.Valid() && Lists(names, Items(sched.Candidates()))
    requires forall i: nat :: i in Items(s.heap) <==> i < |names| && names[i] in Items(sched.heap)
    requires s.current.Some? <==> Returns(sched)
    requires s.current.Some? ==> s.current.value < |names| && names[s.current.value] == sched.current
    ensures Items(s.heap) == Basics.AllBelow(|names|) - StrideFairness.Running(s)
  {
    sched.CandidateItems();
    assert sched.current !in Items(sched.heap);
    forall i: nat
      ensures i in Items(s.heap) <==> i < |names| && i !in StrideFairness.Running(s)
    {
      if i < |names| {
        assert names[i] in Items(sched.Candidates());
        if s.current.Some? && i != s.current.value {
          assert names[i] != names[s.current.value];
        }
      }
    }
  }

  /** Whatever is there to be picked from, some numbered state stands for it. */
  lemma Describe(sched: Scheduler.Scheduler, names: seq<Proc>, low: Word) returns (s: StrideFairness.State)
    requires sched.Valid() && Lists(names, Items(sched.Candidates())) && |names| > 0
    requires Fits(sched, names, low)
    ensures Stands(sched, s, names) && StrideFairness.Near(s, low) && Heap(s.heap, low)
  {
    sched.CandidateItems();
    s := FieldsOf(names);
    var heap := Numbers(sched.heap, names);
    NumbersNamed(sched.heap, names);
    NumbersDistinct(sched.heap, names);
    NumbersHeap(sched.heap, names, low);
    NumbersKeys(sched.heap, names, s.stride);
    if Returns(sched) {
      assert sched.current in Items(sched.Candidates());
      s := s.(heap := heap, current := Basics.Some(NumberOf(names, sched.current)));
    } else {
      s := s.(heap := heap, current := Basics.None);
    }
    NumbersWaiting(sched, names, s);
    assert forall i :: 0 <= i < |names| ==> names[i] in Items(sched.Candidates());
  }

  // ---------- schedule() ----------

  /** What schedule() picks from stands for what it picks from there. */
  lemma CandidatesNamed(sched: Scheduler.Scheduler, s: StrideFairness.State, names: seq<Proc>)
    requires Stands(sched, s, names)
    ensures
      var t := StrideFairness.Refilled(s);
      && Numbered(t, |names|) && StrideFairness.KeysMatch(t, s.stride) && sched.Candidates() == Named(t, names)
  {
    if s.current.Some? {
      var c := s.current.value;
      var one: Tree<nat> := Node(Leaf, c, s.stride[c], Leaf);
      NamedMerge(s.heap, one, names);
      StrideFairness.MergeKeys(s.heap, one, s.stride);
    }
  }

  /** Both pick the same process, and the heaps still agree when its stride has been raised
      and it has been taken out. */
  lemma PickNamed(sched: Scheduler.Scheduler, s: StrideFairness.State, names: seq<Proc>, start: seq<int>, low: int)
    requires Stands(sched, s, names) && StrideFairness.InvAt(s, start, low)
    ensures StrideFairness.CanPick(s)
    ensures
      && sched.Candidates().Node?
      && sched.Candidates().item == names[StrideFairness.Refilled(s).item]
      && sched.Candidates().key == s.stride[StrideFairness.Refilled(s).item]
    ensures
      var x, s' := StrideFairness.Refilled(s).item, StrideFairness.Schedule(s);
      && StrideFairness.Shape(s') && |s'.stride| == |names| && Numbered(s'.heap, |names|)
      && Named(s'.heap, names) == Remove(sched.Candidates().(key := s'.stride[x]), names[x])
  {
    StrideFairness.ScheduleKeepsInv(s, start, low);
    CandidatesNamed(sched, s, names);
    var t := StrideFairness.Refilled(s);
    var u := t.(key := Wrap(t.key + StrideFairness.Pass(s.priority[t.item])));
    NamedRemove(u, t.item, names);
    assert Named(u, names) == Named(t, names).(key := u.key);
  }

  /** One call of schedule() is one step there. */
  method Schedule(sched: Scheduler.Scheduler, ghost s: StrideFairness.State, ghost names: seq<Proc>,
                  ghost start: seq<int>, ghost low: int)
    requires sched.Valid() && Stands(sched, s, names) && StrideFairness.InvAt(s, start, low)
    modifies sched`pool, sched`procNum, sched`heap, sched`current
    modifies sched.procs`left, sched.procs`right, sched.procs`parent, sched.procs`timeSlice
    modifies sched.procs`stride, sched.procs`runs, sched.procs`needResched
    ensures sched.Valid() && StrideFairness.CanPick(s) && Stands(sched, StrideFairness.Schedule(s), names)
  {
    PickNamed(sched, s, names, start, low);
    sched.Schedule();
  }

  /** How far beyond low a process's unbounded stride is, if its stride and runs were these before. */
  function Moved(p: Proc, low: Word, stride: Word, runs: nat): int
    reads p
  {
    StrideFairness.Moved(low, stride, p.runs - runs, p.priority)
  }

  lemma {:induction false} NamedAtLeast(t: Tree<nat>, names: seq<Proc>, low: Word, least: int)
    requires Numbered(t, |names|) && AtLeast(t, low, least)
    ensures AtLeast(Named(t, names), low, least)
  {
    if t.Node? {
      NamedAtLeast(t.left, names, low, least);
      NamedAtLeast(t.right, names, low, least);
    }
  }

  lemma {:induction false} NamedHeap(t: Tree<nat>, names: seq<Proc>, low: Word)
    requires Numbered(t, |names|) && Heap(t, low) && InWindow(t, low)
    ensures Heap(Named(t, names), low) && InWindow(Named(t, names), low)
  {
    if t.Node? {
      NamedHeap(t.left, names, low);
      NamedHeap(t.right, names, low);
      NamedAtLeast(t.left, names, low, Ahead(low, t.key));
      NamedAtLeast(t.right, names, low, Ahead(low, t.key));
    }
  }

  /** The queue is in order and, with whatever can run, in the window from low. */
  ghost predicate Fits(sched: Scheduler.Scheduler, names: seq<Proc>, low: Word)
    reads sched, names
  {
    && Heap(sched.heap, low) && InWindow(sched.heap, low)
    && forall i :: 0 <= i < |names| ==> Ahead(low, names[i].stride) <= BIG_STRIDE
  }

  /** At the end of a run the queue fits again, in the window that starts at the last pick. */
  lemma FitsAgain(sched: Scheduler.Scheduler, r: seq<StrideFairness.State>, names: seq<Proc>, low: Word, now: int)
    requires StrideFairness.Run(r, low) && Stands(sched, r[|r| - 1], names)
    requires StrideFairness.InvAt(r[|r| - 1], StrideFairness.StartOf(r[0], low), now)
    ensures Fits(sched, names, Wrap(now))
  {
    var s, start := r[|r| - 1], StrideFairness.StartOf(r[0], low);
    NamedHeap(s.heap, names, Wrap(now));
    forall i | 0 <= i < |names|
      ensures Ahead(Wrap(now), names[i].stride) <= BIG_STRIDE
    {
      StrideFairness.KeyAhead(s, start, now, i);
    }
  }

  /** At the end of a run all unbounded strides lie in one window, and everybody has been picked. */
  lemma SharesOf(r: seq<StrideFairness.State>, low: Word) returns (base: int)
    requires StrideFairness.Run(r, low)
    ensures StrideFairness.InvAt(r[|r| - 1], StrideFairness.StartOf(r[0], low), low + base)
    ensures r[|r| - 1].priority == r[0].priority && |r[|r| - 1].runs| == |r[0].runs| == |r[0].priority| == |r[0].stride|
    ensures forall i :: 0 <= i < |r[0].runs| ==> base <= StrideFairness.MovedIn(r, low, i) <= base + BIG_STRIDE
    ensures StrideFairness.Moderate(r[0].priority) && |r| - 1 > StrideFairness.Turns(r[0].priority) ==>
      forall i :: 0 <= i < |r[0].runs| ==> r[|r| - 1].runs[i] > r[0].runs[i]
  {
    var now := StrideFairness.RunInv(r, low);
    base := now - low;
    forall i | 0 <= i < |r[0].runs|
      ensures base <= StrideFairness.MovedIn(r, low, i) <= base + BIG_STRIDE
    {
      StrideFairness.UnboundedIsMoved(r, low, i);
    }
    if StrideFairness.Moderate(r[0].priority) && |r| - 1 > StrideFairness.Turns(r[0].priority) {
      forall i | 0 <= i < |r[0].runs|
        ensures r[|r| - 1].runs[i] > r[0].runs[i]
      {
        StrideFairness.NobodyStarves(r, low, i);
      }
    }
  }

  /** The same of the fields that the last state stands for. */
  lemma FieldsOfRun(sched: Scheduler.Scheduler, r: seq<StrideFairness.State>, names: seq<Proc>, low: Word)
    returns (base: int)
    requires StrideFairness.Run(r, low) && Stands(sched, r[|r| - 1], names)
    ensures |names| == |r[0].runs| == |r[0].stride| && Fits(sched, names, Wrap(low + base))
    ensures forall i :: 0 <= i < |names| ==>
      base <= Moved(names[i], low, r[0].stride[i], r[0].runs[i]) <= base + BIG_STRIDE
    ensures StrideFairness.Moderate(r[0].priority) && |r| - 1 > StrideFairness.Turns(r[0].priority) ==>
      forall i :: 0 <= i < |names| ==> names[i].runs > r[0].runs[i]
  {
    base := SharesOf(r, low);
    FitsAgain(sched, r, names, low, low + base);
    var last := r[|r| - 1];
    forall i | 0 <= i < |names|
      ensures names[i].runs == last.runs[i] && names[i].priority == r[0].priority[i]
      ensures Moved(names[i], low, r[0].stride[i], r[0].runs[i]) == StrideFairness.MovedIn(r, low, i)
    {
    }
  }

  method Repeat(sched: Scheduler.Scheduler, n: nat, ghost s: StrideFairness.State, ghost names: seq<Proc>,
                ghost low: Word)
    returns (ghost r: seq<StrideFairness.State>)
    requires sched.Valid() && Stands(sched, s, names) && StrideFairness.Near(s, low) && Heap(s.heap, low)
    modifies sched`pool, sched`procNum, sched`heap, sched`current
    modifies sched.procs`left, sched.procs`right, sched.procs`parent, sched.procs`timeSlice
    modifies sched.procs`stride, sched.procs`runs, sched.procs`needResched
    ensures sched.Valid() && |r| == n + 1 && r[0] == s && StrideFairness.Run(r, low) && Stands(sched, r[n], names)
  {
    r := [s];
    ghost var procs := sched.procs;
    for k := 0 to n
      invariant sched.Valid() && sched.procs == procs
      invariant |r| == k + 1 && r[0] == s && StrideFairness.Run(r, low) && Stands(sched, r[k], names)
    {
      ghost var now := StrideFairness.RunInv(r, low);
      Schedule(sched, r[k], names, StrideFairness.StartOf(s, low), now);
      r := StrideFairness.OneMore(r, low);
    }
  }

  /** The same with what it means for the fields. */
  method RepeatFairly(sched: Scheduler.Scheduler, n: nat, ghost s: StrideFairness.State, ghost names: seq<Proc>,
                      ghost low: Word)
    returns (ghost base: int, ghost r: seq<StrideFairness.State>)
    requires sched.Valid() && Stands(sched, s, names) && StrideFairness.Near(s, low) && Heap(s.heap, low)
    modifies sched`pool, sched`procNum, sched`heap, sched`current
    modifies sched.procs`left, sched.procs`right, sched.procs`parent, sched.procs`timeSlice
    modifies sched.procs`stride, sched.procs`runs, sched.procs`needResched
    ensures sched.Valid() && |r| == n + 1 && r[0] == s && StrideFairness.Run(r, low) && Stands(sched, r[n], names)
    ensures Fits(sched, names, Wrap(low + base))
    ensures forall i :: 0 <= i < |names| ==>
      base <= Moved(names[i], low, old(names[i].stride), old(names[i].runs)) <= base + BIG_STRIDE
    ensures StrideFairness.Moderate(s.priority) && n > StrideFairness.Turns(s.priority) ==>
      forall i :: 0 <= i < |names| ==> names[i].runs > old(names[i].runs)
  {
    r := Repeat(sched, n, s, names, low);
    base := FieldsOfRun(sched, r, names, low);
    assert forall i :: 0 <= i < |names| ==> old(names[i].stride) == s.stride[i] && old(names[i].runs) == s.runs[i];
  }

  /** Any number of calls of schedule(), from any state in which the strides of what it can pick
      from lie in one window, wherever the current process stands: all strides, counted without
      wrap-around, still lie in one window. */
  method KeepScheduling(sched: Scheduler.Scheduler, n: nat, ghost names: seq<Proc>, ghost low: Word)
    returns (ghost base: int, ghost r: seq<StrideFairness.State>)
    requires sched.Valid() && Lists(names, Items(sched.Candidates())) && |names| > 0
    requires Fits(sched, names, low)
    modifies sched`pool, sched`procNum, sched`heap, sched`current
    modifies sched.procs`left, sched.procs`right, sched.procs`parent, sched.procs`timeSlice
    modifies sched.procs`stride, sched.procs`runs, sched.procs`needResched
    ensures sched.Valid() && |r| == n + 1 && StrideFairness.Run(r, low)
    ensures old(Stands(sched, r[0], names)) && Stands(sched, r[n], names) && Fits(sched, names, Wrap(low + base))
    ensures forall i :: 0 <= i < |names| ==>
      base <= Moved(names[i], low, old(names[i].stride), old(names[i].runs)) <= base + BIG_STRIDE
    ensures StrideFairness.Moderate(r[0].priority) && n > StrideFairness.Turns(r[0].priority) ==>
      forall i :: 0 <= i < |names| ==> names[i].runs > old(names[i].runs)
  {
    ghost var s := Describe(sched, names, low);
    base, r := RepeatFairly(sched, n, s, names, low);
  }

  // ---------- processes that join ----------

  lemma OneMoreName(names: seq<Proc>, p: Proc, before: set<Proc>, after: set<Proc>)
    requires Lists(names, before) && p !in before && after == before + {p}
    ensures Lists(names + [p], after)
  {
    assert forall i :: 0 <= i < |names| ==> names[i] in before;
    assert (set q | q in names + [p]) == (set q | q in names) + {p};
  }

  /** wakeup_proc of a process that was not runnable: it joins what schedule() can pick from. */
  method Wake(sched: Scheduler.Scheduler, p: Proc, ghost names: seq<Proc>)
    requires sched.Valid() && p in sched.procs && p.state != Zombie && p.state != Runnable && p != sched.current
    requires Lists(names, Items(sched.Candidates()))
    modifies sched`pool, sched`procNum, sched`heap, sched.procs`left, sched.procs`right, sched.procs`parent
    modifies p`state, p`waitState, p`timeSlice
    ensures sched.Valid() && Lists(names + [p], Items(sched.Candidates()))
    ensures sched.heap == Insert(old(sched.heap), p, p.stride)
  {
    sched.CandidateItems();
    ghost var able := sched.Able();
    sched.WakeupProc(p);
    assert sched.Able() == able + {p};
    sched.CandidateItems();
    OneMoreName(names, p, able, sched.Able());
  }

  lemma InsertFits(t: Tree<Proc>, p: Proc, key: Word, low: Word)
    requires Heap(t, low) && InWindow(t, low) && Ahead(low, key) <= BIG_STRIDE
    ensures Heap(Insert(t, p, key), low) && InWindow(Insert(t, p, key), low)
  {
    MergeHeap(t, Node(Leaf, p, key, Leaf), low);
  }

  /** A process that wakes up with a stride inside the window leaves the queue in order, so that
      KeepScheduling goes on with one process more. */
  method WakeInWindow(sched: Scheduler.Scheduler, p: Proc, ghost names: seq<Proc>, ghost low: Word)
    requires sched.Valid() && p in sched.procs && p.state != Zombie && p.state != Runnable && p != sched.current
    requires Lists(names, Items(sched.Candidates())) && Fits(sched, names, low) && Ahead(low, p.stride) <= BIG_STRIDE
    modifies sched`pool, sched`procNum, sched`heap, sched.procs`left, sched.procs`right, sched.procs`parent
    modifies p`state, p`waitState, p`timeSlice
    ensures sched.Valid() && Lists(names + [p], Items(sched.Candidates())) && Fits(sched, names + [p], low)
  {
    InsertFits(sched.heap, p, p.stride, low);
    Wake(sched, p, names);
  }

  // ---------- from the start ----------

  lemma {:induction false} EqualKeysHeap(t: Tree<Proc>, key: Word)
    requires forall p {:trigger At(t, p)} :: p in Items(t) ==> At(t, p).key == key
    requires Distinct(t)
    ensures Heap(t, key) && AtLeast(t, key, 0) && InWindow(t, key)
  {
    if t.Node? {
      assert At(t, t.item) == t;
      forall p | p in Items(t.left)
        ensures At(t.left, p).key == key
      {
        assert At(t, p) == At(t.left, p);
      }
      forall p | p in Items(t.right)
        ensures At(t.right, p).key == key
      {
        assert At(t, p) == At(t.right, p);
      }
      EqualKeysHeap(t.left, key);
      EqualKeysHeap(t.right, key);
    }
  }

  /** A queue of equal strides is in order. */
  lemma EqualStrides(sched: Scheduler.Scheduler, key: Word)
    requires sched.Valid() && forall p :: p in Items(sched.heap) ==> p.stride == key
    ensures Heap(sched.heap, key) && InWindow(sched.heap, key)
  {
    EqualKeysHeap(sched.heap, key);
  }

  /** A new process of alloc_proc, not yet runnable. */
  method Alloc(sched: Scheduler.Scheduler, priority: Word) returns (p: Proc)
    requires sched.Valid()
    modifies sched`procs
    ensures sched.Valid() && fresh(p) && sched.procs == old(sched.procs) + {p}
    ensures p.state == Uninit && p.priority == priority && p.stride == 0 && p.runs == 0
  {
    p := new Proc();
    p.priority := priority;
    sched.AddProcess(p);
  }

  /** While the kernel is idle: names are the processes in the queue, all fresh, with these priorities. */
  ghost predicate Forked(sched: Scheduler.Scheduler, names: seq<Proc>, priorities: seq<Word>)
    reads sched, sched.procs, names
  {
    && sched.Valid() && sched.current == sched.idle && Lists(names, Items(sched.heap))
    && |names| <= |priorities|
    && forall i :: 0 <= i < |names| ==>
         names[i].priority == priorities[i] && names[i].stride == 0 && names[i].runs == 0
  }

  /** do_fork, as far as scheduling goes, while the kernel is idle. */
  method Fork(sched: Scheduler.Scheduler, ghost names: seq<Proc>, ghost priorities: seq<Word>, priority: Word)
    returns (p: Proc)
    requires Forked(sched, names, priorities) && |names| < |priorities| && priority == priorities[|names|]
    modifies sched`pool, sched`procNum, sched`heap, sched`procs
    modifies sched.procs`left, sched.procs`right, sched.procs`parent
    ensures Forked(sched, names + [p], priorities) && fresh(p) && sched.procs == old(sched.procs) + {p}
  {
    p := Alloc(sched, priority);
    assert p !in names;
    Wake(sched, p, names);
    ghost var more := names + [p];
    forall i | 0 <= i < |more|
      ensures more[i].priority == priorities[i] && more[i].stride == 0 && more[i].runs == 0
    {
      assert more[i] == if i < |names| then names[i] else p;
    }
  }

  method Boot() returns (sched: Scheduler.Scheduler)
    ensures fresh(sched) && fresh(sched.procs) && sched.Valid() && sched.current == sched.idle && sched.heap == Leaf
  {
    var idle := new Proc();
    idle.state, idle.needResched := Runnable, true;
    sched := new Scheduler.Scheduler(idle);
  }

  /** The kernel starts idle, and processes of the given priorities are forked. */
  method Start(priorities: seq<Word>) returns (sched: Scheduler.Scheduler, names: seq<Proc>)
    ensures fresh(sched) && fresh(sched.procs) && |names| == |priorities| && Forked(sched, names, priorities)
  {
    sched := Boot();
    names := [];
    while |names| < |priorities|
      invariant fresh(sched) && fresh(sched.procs) && Forked(sched, names, priorities)
    {
      var p := Fork(sched, names, priorities, priorities[|names|]);
      names := names + [p];
    }
  }

  /** The CPU share of a process. */
  function Share(p: Proc): int
    reads p
  {
    p.runs * StrideFairness.Pass(p.priority)
  }

  lemma SharesAreMoves(names: seq<Proc>)
    ensures forall i :: 0 <= i < |names| ==> Moved(names[i], 0, 0, 0) == Share(names[i])
  {
  }

  /** How often each has run agrees with the priorities. */
  ghost predicate ByPriority(names: seq<Proc>)
    reads names
  {
    forall i, j :: 0 <= i < |names| && 0 <= j < |names| ==>
      Shares.Agree(names[i].runs, names[i].priority, names[j].runs, names[j].priority)
  }

  lemma SharesAreByPriority(names: seq<Proc>, base: int)
    requires forall i :: 0 <= i < |names| ==> base <= Share(names[i]) <= base + BIG_STRIDE
    ensures ByPriority(names)
  {
    forall i, j | 0 <= i < |names| && 0 <= j < |names|
      ensures Shares.Agree(names[i].runs, names[i].priority, names[j].runs, names[j].priority)
    {
      assert base <= Share(names[i]) && Share(names[j]) <= base + BIG_STRIDE;
      Shares.EvenAgrees(names[i].runs, names[i].priority, names[j].runs, names[j].priority);
    }
  }

  /** Fresh processes in the queue of the idle kernel: after any number of calls of schedule()
      the CPU shares lie within BIG_STRIDE of each other, so that they go by the priorities. */
  method KeepFresh(sched: Scheduler.Scheduler, n: nat, ghost names: seq<Proc>)
    returns (ghost base: int, ghost r: seq<StrideFairness.State>)
    requires sched.Valid() && sched.current == sched.idle && Lists(names, Items(sched.heap)) && |names| > 0
    requires forall p :: p in names ==> p.stride == 0 && p.runs == 0
    modifies sched`pool, sched`procNum, sched`heap, sched`current
    modifies sched.procs`left, sched.procs`right, sched.procs`parent, sched.procs`timeSlice
    modifies sched.procs`stride, sched.procs`runs, sched.procs`needResched
    ensures sched.Valid() && |r| == n + 1 && old(Stands(sched, r[0], names))
    ensures forall i :: 0 <= i < |names| ==> base <= Share(names[i]) <= base + BIG_STRIDE
    ensures ByPriority(names)
    ensures StrideFairness.Moderate(r[0].priority) && n > StrideFairness.Turns(r[0].priority) ==>
      forall i :: 0 <= i < |names| ==> names[i].runs > 0
  {
    EqualStrides(sched, 0);
    base, r := KeepScheduling(sched, n, names, 0);
    SharesAreMoves(names);
    SharesAreByPriority(names, base);
  }

  /** From the start of the kernel on: the CPU shares lie within BIG_STRIDE of each other and go by
      the priorities. */
  method FairFromStart(priorities: seq<Word>, n: nat) returns (sched: Scheduler.Scheduler, names: seq<Proc>,
                                                              ghost base: int)
    requires |priorities| > 0
    ensures fresh(sched) && fresh(sched.procs) && sched.Valid() && |names| == |priorities|
    ensures forall i :: 0 <= i < |names| ==> names[i].priority == priorities[i]
    ensures forall i :: 0 <= i < |names| ==> base <= Share(names[i]) <= base + BIG_STRIDE
    ensures ByPriority(names)
    ensures StrideFairness.Moderate(priorities) && n > StrideFairness.Turns(priorities) ==>
      forall i :: 0 <= i < |names| ==> names[i].runs > 0
  {
    sched, names := Start(priorities);
    ghost var r;
    base, r := KeepFresh(sched, n, names);
    assert r[0].priority == priorities;
  }
}
