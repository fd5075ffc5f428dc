/** The run queue and the scheduler (sched.c with the stride class of
    default_sched.c), over the pointer skew heap. Interrupts are disabled inside
    each method, so each is one atomic step. */
module Scheduler {
  import opened SkewTree
  import opened SkewHeap
  import StrideFairness

  class Scheduler {
    var pool: Proc?              // rq->lab6_run_pool
    var procNum: nat             // rq->proc_num
    var current: Proc
    const idle: Proc             // idleproc
    ghost var heap: Tree<Proc>   // what pool points to
    ghost var procs: set<Proc>   // every process there is

    /** rq->max_time_slice, set by sched_init. */
    const maxTimeSlice: int := 5

    /** The processes that ought to be queued. */
    ghost function Ready(): set<Proc>
      reads this, procs
    {
      set p | p in procs && p.state == Runnable && p != current && p != idle
    }

    /** The processes that can run, other than idle. */
    ghost function Able(): set<Proc>
      reads this, procs
    {
      set p | p in procs && p.state == Runnable && p != idle
    }

    ghost predicate QueueValid()
      reads this, procs
    {
      && current in procs && idle in procs && Items(heap) <= procs
      && HeapOf(pool, heap) && (pool != null ==> pool.parent == null)
      && procNum == Size(heap)
    }

    /** The heap holds exactly the runnable processes other than current and idle. */
    ghost predicate Valid()
      reads this, procs
    {
      QueueValid() && idle.state == Runnable && Items(heap) == Ready()
    }

    /** sched_init, with idleproc running. */
    constructor (idleproc: Proc)
      requires idleproc.state == Runnable
      ensures Valid() && current == idle == idleproc && procs == {idleproc} && heap == Leaf
    {
      pool, procNum := null, 0;
      current, idle := idleproc, idleproc;
      heap, procs := Leaf, {idleproc};
    }

    /** The time slice of a process that joins the queue with slice t. */
    function Slice(t: int): (r: int)
      ensures r != 0 && r <= maxTimeSlice
      ensures r == t || (r == maxTimeSlice && (t == 0 || maxTimeSlice < t))
    {
      if t == 0 || t > maxTimeSlice then maxTimeSlice else t
    }

    /** stride_enqueue but for the time slice. */
    method Push(p: Proc)
      requires QueueValid() && p in procs && p !in Items(heap)
      modifies `pool, `procNum, `heap, procs`left, procs`right, procs`parent
      ensures QueueValid() && heap == Insert(old(heap), p, p.stride)
    {
      MergeItems(heap, Node(Leaf, p, p.stride, Leaf));
      ghost var calls;
      pool, calls := InsertHeap(pool, p, heap);
      heap := Insert(heap, p, p.stride);
      procNum := procNum + 1;
    }

    /** stride_enqueue. */
    method Enqueue(p: Proc)
      requires QueueValid() && p in procs && p !in Items(heap)
      modifies `pool, `procNum, `heap, procs`left, procs`right, procs`parent, p`timeSlice
      ensures QueueValid() && heap == Insert(old(heap), p, p.stride)
      ensures p.timeSlice == Slice(old(p.timeSlice))
    {
      Push(p);
      if p.timeSlice == 0 || p.timeSlice > maxTimeSlice {
        p.timeSlice := maxTimeSlice;
      }
    }

    /** stride_dequeue. */
    method Dequeue(p: Proc)
      requires QueueValid() && p in Items(heap)
      modifies `pool, `procNum, `heap, procs`left, procs`right, procs`parent
      ensures QueueValid() && heap == Remove(old(heap), p)
    {
      RemoveItems(heap, p);
      ghost var calls;
      pool, calls := RemoveFromHeap(pool, p, heap);
      heap := Remove(heap, p);
      procNum := procNum - 1;
    }

    /** stride_pick_next: the root of the heap, its stride raised where it stands. */
    method PickNext() returns (p: Proc?)
      requires QueueValid()
      modifies `heap, procs`stride
      ensures QueueValid() && p == RootOf(old(heap))
      ensures forall q :: q in procs && q != p ==> q.stride == old(q.stride)
      ensures p == null ==> heap == old(heap)
      ensures p != null ==>
        && p.stride == Wrap(old(p.stride) + StrideFairness.Pass(p.priority))
        && StrideFairness.Raised(old(p.stride), p.stride, p.priority)
        && heap == old(heap).(key := p.stride)
    {
      p := pool;
      if p != null {
        assert At(heap, p) == heap;
        StrideFairness.RaisedByPass(p.stride, p.priority);
        if p.priority > 1 {
          StrideFairness.PassSmall(p.priority);
          p.stride := Wrap(p.stride + BIG_STRIDE / p.priority);
        } else {
          p.stride := Wrap(p.stride + BIG_STRIDE);
        }
        ghost var before := heap;
        heap := heap.(key := p.stride);
        Rekeyed(before, p.stride);
      }
    }

    /** Changing the root's key changes nothing else. */
    static lemma Rekeyed(t: Tree<Proc>, key: Word)
      requires t.Node?
      ensures
        var u := t.(key := key);
        && Items(u) == Items(t) && Size(u) == Size(t) && (Distinct(t) ==> Distinct(u))
        && forall p :: p in Items(t) ==> Above(u, p) == Above(t, p) && (p != t.item ==> At(u, p) == At(t, p))
    {
    }

    /** wakeup_proc; a zombie would stop at its assertion. */
    method WakeupProc(p: Proc)
      requires Valid() && p in procs && p.state != Zombie
      modifies `pool, `procNum, `heap, procs`left, procs`right, procs`parent, p`state, p`waitState, p`timeSlice
      ensures Valid() && p.state == Runnable
      ensures old(p.state) != Runnable ==> p.waitState == 0
      ensures old(p.state) == Runnable ==> p.waitState == old(p.waitState)
      ensures heap == if old(p.state) != Runnable && p != current then Insert(old(heap), p, p.stride) else old(heap)
    {
      if p.state != Runnable {
        assert p !in Ready();
        ghost var ready := Ready();
        p.state := Runnable;
        p.waitState := 0;
        if p != current {
          MergeItems(heap, Node(Leaf, p, p.stride, Leaf));
          Enqueue(p);
          assert Ready() == ready + {p};
        } else {
          assert Ready() == ready;
        }
      }
    }

    /** What schedule() picks from: the heap, with the current process put back if it
        can still run. */
    ghost function Candidates(): Tree<Proc>
      reads this, current
    {
      if current.state == Runnable && current != idle then Insert(heap, current, current.stride) else heap
    }

    /** schedule(), first part: the current process goes back into the queue. */
    method PutBack()
      requires Valid()
      modifies `pool, `procNum, `heap, procs`left, procs`right, procs`parent, procs`timeSlice, current`needResched
      ensures QueueValid() && heap == old(Candidates()) && !current.needResched
      ensures current.timeSlice ==
        if current.state == Runnable && current != idle then Slice(old(current.timeSlice)) else old(current.timeSlice)
      ensures forall q :: q in procs && q != current ==> q.timeSlice == old(q.timeSlice)
    {
      current.needResched := false;
      if current.state == Runnable && current != idle {
        MergeItems(heap, Node(Leaf, current, current.stride, Leaf));
        Enqueue(current);
      }
    }

    /** schedule(), second part: the next process is picked and leaves the queue. */
    method TakeNext() returns (p: Proc?)
      requires QueueValid()
      modifies `pool, `procNum, `heap, procs`left, procs`right, procs`parent, procs`stride
      ensures QueueValid() && p == RootOf(old(heap))
      ensures p == null ==> heap == old(heap)
      ensures p != null ==>
        && p in procs
        && p.stride == Wrap(old(p.stride) + StrideFairness.Pass(p.priority))
        && StrideFairness.Raised(old(p.stride), p.stride, p.priority)
        && heap == Remove(old(heap).(key := p.stride), p)
      ensures forall q :: q in procs && q != p ==> q.stride == old(q.stride)
    {
      p := PickNext();
      if p != null {
        Dequeue(p);
      }
    }

    /** schedule(), last part: the next process, or idle when there is none, runs. */
    method SwitchToNext()
      requires QueueValid()
      modifies `pool, `procNum, `heap, `current
      modifies procs`left, procs`right, procs`parent, procs`stride, procs`runs
      ensures QueueValid() && Items(heap) == Items(old(heap)) - {current}
      ensures old(heap).Leaf? ==> current == idle && heap == Leaf
      ensures old(heap).Node? ==>
        && current == old(heap).item
        && current.stride == Wrap(old(heap).key + StrideFairness.Pass(current.priority))
        && StrideFairness.Raised(old(heap).key, current.stride, current.priority)
        && heap == Remove(old(heap).(key := current.stride), current)
      ensures forall p :: p in procs ==>
        && p.runs == old(p.runs) + (if p == current then 1 else 0)
        && (p != current ==> p.stride == old(p.stride))
    {
      ghost var t := heap;
      var next := TakeNext();
      if next == null {
        next := idle;
      } else {
        Rekeyed(t, next.stride);
        RemoveItems(t.(key := next.stride), next);
      }
      next.runs := next.runs + 1;
      if next != current {
        current := next;
      }
    }

    /** schedule(): the process at the root of Candidates() runs next, or idle when
        there is none. */
    method Schedule()
      requires Valid()
      modifies `pool, `procNum, `heap, `current
      modifies procs`left, procs`right, procs`parent, procs`timeSlice, procs`stride, procs`runs, procs`needResched
      ensures Valid()
      ensures old(Candidates()).Leaf? ==> current == idle && heap == Leaf
      ensures old(Candidates()).Node? ==>
        && current == old(Candidates()).item
        && current.stride == Wrap(old(Candidates()).key + StrideFairness.Pass(current.priority))
        && StrideFairness.Raised(old(Candidates()).key, current.stride, current.priority)
        && heap == Remove(old(Candidates()).(key := current.stride), current)
      ensures forall p :: p in procs ==>
        && p.runs == old(p.runs) + (if p == current then 1 else 0)
        && (p != current ==> p.stride == old(p.stride))
      ensures forall p {:trigger p.needResched} :: p in procs ==>
        p.needResched == (old(p.needResched) && p != old(current))
      ensures forall p {:trigger p.timeSlice} :: p in procs ==>
        p.timeSlice ==
          if p == old(current) && p.state == Runnable && p != idle then Slice(old(p.timeSlice)) else old(p.timeSlice)
    {
      CandidateItems();
      ghost var able := Able();
      PutBack();
      SwitchToNext();
      assert Able() == able;
      ReadyIsRest();
    }

    lemma ReadyIsRest()
      ensures Ready() == Able() - {current}
    {
    }

    /** Candidates() holds every runnable process but idle. */
    lemma CandidateItems()
      requires Valid()
      ensures Items(Candidates()) == Able() && Distinct(Candidates())
    {
      ReadyIsRest();
      MergeItems(heap, Node(Leaf, current, current.stride, Leaf));
      if current.state == Runnable && current != idle {
        MergeDistinct(heap, Node(Leaf, current, current.stride, Leaf));
      }
    }

    /** The first half of do_sleep, do_wait and wait_current_set: the current process
        goes to sleep but still runs until it calls schedule(). */
    method SleepCurrent(waitState: nat)
      requires Valid() && current != idle
      modifies current`state, current`waitState
      ensures Valid() && current.state == Sleeping && current.waitState == waitState
    {
      ghost var ready := Ready();
      current.state := Sleeping;
      current.waitState := waitState;
      assert Ready() == ready;
    }

    /** The end of do_exit, before its call of schedule(). */
    method ExitCurrent()
      requires Valid() && current != idle
      modifies current`state
      ensures Valid() && current.state == Zombie
    {
      ghost var ready := Ready();
      current.state := Zombie;
      assert Ready() == ready;
    }

    /** do_fork: a new process exists, not yet runnable. */
    method AddProcess(p: Proc)
      requires Valid() && p !in procs && p.state == Uninit
      modifies `procs
      ensures Valid() && procs == old(procs) + {p}
    {
      ghost var ready := Ready();
      procs := procs + {p};
      assert Ready() == ready;
    }

    /** do_wait: a zombie is freed. */
    method FreeProcess(p: Proc)
      requires Valid() && p in procs && p.state == Zombie && p != current
      modifies `procs
      ensures Valid() && procs == old(procs) - {p}
    {
      ghost var ready := Ready();
      procs := procs - {p};
      assert Ready() == ready;
    }

    /** A process that is woken after it went to sleep and before it calls schedule()
        is neither lost nor queued twice: it keeps running or is in the heap, once. */
    method SleepAndBeWoken(waitState: nat)
      requires Valid() && current != idle
      modifies `pool, `procNum, `heap, `current, procs
      ensures Valid() && Distinct(heap)
      ensures old(current) == current || old(current) in Items(heap)
    {
      var p := current;
      SleepCurrent(waitState);
      WakeupProc(p);
      Schedule();
      assert p in procs && p.state == Runnable ==> p == current || p in Ready();
    }
  }
}
