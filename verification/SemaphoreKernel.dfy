/** Kernel semaphores under every interleaving (sem.c and wait.c), together with
    the other things that put threads to sleep and wake them: timed sleep, waiting
    for a child, kill and exit. Interrupts are disabled inside each method of
    Kernel, so a method is one atomic step and a run is any sequence of calls. */
module SemaphoreKernel {
  import opened Basics
  import opened Semaphores

  type WaitState = bv32

  const WT_INTERRUPTED: WaitState := 0x8000_0000
  const WT_CHILD: WaitState := 0x8000_0001
  const WT_TIMER: WaitState := 0x8000_0002
  const WT_KSEM: WaitState := 0x100

  datatype ThreadState = Sleeping | Runnable | Zombie

  /** Where a thread is. Queued and Served: past wait_current_set, before wait_current_del,
      without a unit and with one. Napping: in do_sleep (with its timer) or do_wait, before
      it runs again. */
  datatype Place = Running | Queued(sem: Semaphore) | Served(sem: Semaphore) | Napping(timer: bool) | Gone

  datatype KillResult = Killed | AlreadyKilled | NoSuchProcess

  class Thread {
    var state: ThreadState
    var waitState: WaitState
    var exiting: bool             // PF_EXITING
    var wakeupFlags: WaitState    // of the wait_t on this thread's stack
    ghost var place: Place

    constructor ()
      ensures state == Runnable && waitState == 0 && !exiting && place == Running
    {
      state, waitState, exiting, wakeupFlags := Runnable, 0, false, 0;
      place := Running;
    }
  }

  class Semaphore {
    var value: int
    var queue: seq<Thread>        // wait_queue, oldest first
    ghost const initial: nat
    ghost var ups: nat            // calls of up
    ghost var calls: seq<Thread>  // calls of down, and try_down calls that succeed, in order
    ghost var granted: seq<Thread> // units given out, in order
    ghost var served: set<Thread> // those inside down that have been granted a unit
    ghost var taken: multiset<Thread> // one for each return from down, and for each try_down that succeeds

    /** sem_init. */
    constructor (value: nat)
      ensures this.value == value == initial && queue == [] && ups == 0 && calls == granted == []
      ensures served == {} && taken == multiset{}
    {
      this.value, queue := value, [];
      initial, ups, calls, granted, served, taken := value, 0, [], [], {}, multiset{};
    }
  }

  /** The semaphore as a plain value. */
  function View(s: Semaphore): Sem<Thread>
    reads s`value, s`queue
  {
    Sem(s.value, s.queue)
  }

  /** Units are conserved, and they are granted in the order in which down was called:
      whoever has called and is not granted yet is queued, in that order. */
  ghost predicate Balanced(supply: int, value: int, queue: seq<Thread>, calls: seq<Thread>, granted: seq<Thread>) {
    && value >= 0
    && (value > 0 ==> queue == [])
    && supply == value + |granted|
    && calls == granted + queue
    && NoDuplicates(queue)
  }

  /** Each unit given out is taken up once, by the thread to which it was given. */
  ghost predicate TakenOnce(granted: seq<Thread>, served: set<Thread>, taken: multiset<Thread>) {
    multiset(granted) == taken + multiset(served)
  }

  ghost predicate Accounts(s: Semaphore)
    reads s
  {
    && Balanced(s.initial + s.ups, s.value, s.queue, s.calls, s.granted)
    && TakenOnce(s.granted, s.served, s.taken)
  }

  lemma GrantHead(supply: int, value: int, queue: seq<Thread>, calls: seq<Thread>, granted: seq<Thread>)
    requires Balanced(supply, value, queue, calls, granted) && queue != []
    ensures Balanced(supply + 1, value, queue[1..], calls, granted + [queue[0]])
    ensures queue[0] !in queue[1..]
    ensures forall t :: t in queue <==> t == queue[0] || t in queue[1..]
  {
    assert queue == [queue[0]] + queue[1..];
    assert granted + queue == granted + [queue[0]] + queue[1..];
  }

  lemma JoinQueue(supply: int, value: int, queue: seq<Thread>, calls: seq<Thread>, granted: seq<Thread>, t: Thread)
    requires Balanced(supply, value, queue, calls, granted) && value == 0 && t !in queue
    ensures Balanced(supply, value, queue + [t], calls + [t], granted)
  {
    assert granted + queue + [t] == granted + (queue + [t]);
  }

  lemma TakeUnit(supply: int, value: int, queue: seq<Thread>, calls: seq<Thread>, granted: seq<Thread>,
                 served: set<Thread>, taken: multiset<Thread>, t: Thread)
    requires Balanced(supply, value, queue, calls, granted) && TakenOnce(granted, served, taken) && value > 0
    ensures Balanced(supply, value - 1, queue, calls + [t], granted + [t])
    ensures TakenOnce(granted + [t], served, taken + multiset{t})
  {
    assert multiset(granted + [t]) == multiset(granted) + multiset([t]);
  }

  lemma GiveUnit(granted: seq<Thread>, served: set<Thread>, taken: multiset<Thread>, t: Thread)
    requires TakenOnce(granted, served, taken) && t !in served
    ensures TakenOnce(granted + [t], served + {t}, taken)
  {
    assert multiset(granted + [t]) == multiset(granted) + multiset([t]);
    assert multiset(served + {t}) == multiset(served) + multiset{t};
  }

  lemma TakeUp(granted: seq<Thread>, served: set<Thread>, taken: multiset<Thread>, t: Thread)
    requires TakenOnce(granted, served, taken) && t in served
    ensures TakenOnce(granted, served - {t}, taken + multiset{t})
  {
    assert multiset(served) == multiset(served - {t}) + multiset{t};
  }

  lemma TakenSum(granted: seq<Thread>, served: set<Thread>, taken: multiset<Thread>)
    requires TakenOnce(granted, served, taken)
    ensures |granted| == |taken| + |served|
  {
    assert |multiset(granted)| == |granted|;
  }

  /** A thread inside down sleeps until it has been granted a unit, and is runnable then. */
  ghost predicate PlaceOk(place: Place, state: ThreadState, waitState: WaitState, flags: WaitState,
                          sems: set<Semaphore>) {
    match place
    case Running => state == Runnable && waitState == 0
    case Queued(s) => s in sems && state == Sleeping && waitState == WT_KSEM && flags == WT_INTERRUPTED
    case Served(s) => s in sems && state == Runnable && waitState == 0 && flags == WT_KSEM
    case Napping(timer) =>
      || (state == Sleeping && waitState == (if timer then WT_TIMER else WT_CHILD))
      || (state == Runnable && waitState == 0)
    case Gone => state == Zombie && waitState == 0
  }

  /** The threads and the semaphore that a step changes. */
  datatype Changed = Changed(threads: set<Thread>, sem: Semaphore?)

  /** Not inside down of any semaphore but s. */
  predicate At(place: Place, s: Semaphore?) {
    place.Queued? || place.Served? ==> place.sem == s
  }

  class Kernel {
    ghost var threads: set<Thread>
    ghost var sems: set<Semaphore>

    ghost predicate ThreadOk(t: Thread)
      reads `sems, t
    {
      PlaceOk(t.place, t.state, t.waitState, t.wakeupFlags, sems)
    }

    /** The queue of s and the set of those served list exactly the threads inside down(s). */
    ghost predicate QueueOk(s: Semaphore)
      reads `threads, s`queue, s`served, threads`place
    {
      && (forall t {:trigger t in s.queue} :: t in s.queue ==> t in threads)
      && (forall t {:trigger t in s.queue} :: t in threads ==> (t in s.queue <==> t.place == Queued(s)))
      && s.served <= threads
      && (forall t {:trigger t in s.served} :: t in threads ==> (t in s.served <==> t.place == Served(s)))
    }

    ghost predicate ThreadsOk()
      reads this, threads
    {
      forall t {:trigger ThreadOk(t)} :: t in threads ==> ThreadOk(t)
    }

    ghost predicate QueuesOk()
      reads this, threads, sems
    {
      forall s {:trigger QueueOk(s)} :: s in sems ==> QueueOk(s)
    }

    ghost predicate AccountsOk()
      reads this, sems
    {
      forall s {:trigger Accounts(s)} :: s in sems ==> Accounts(s)
    }

    ghost predicate Valid()
      reads this, threads, sems
    {
      ThreadsOk() && QueuesOk() && AccountsOk()
    }

    /** Nothing but c has changed. */
    twostate predicate Only(c: Changed)
      reads this, threads, sems
    {
      && threads == old(threads) && sems == old(sems)
      && (forall u :: u in threads && u !in c.threads ==> unchanged(u))
      && (forall r :: r in sems && r != c.sem ==> unchanged(r))
    }

    /** A thread of c has not entered or left any semaphore but that of c. */
    twostate predicate Moved(c: Changed)
      reads this, threads
    {
      forall u :: u in c.threads && u in threads ==>
        u.place == old(u.place) || (At(old(u.place), c.sem) && At(u.place, c.sem))
    }

    /** It is enough to look at what has changed. */
    twostate lemma OthersKept(c: Changed)
      requires old(Valid()) && Only(c) && Moved(c)
      requires forall u :: u in c.threads && u in threads ==> ThreadOk(u)
      requires c.sem != null && c.sem in sems ==> QueueOk(c.sem) && Accounts(c.sem)
      ensures Valid()
    {
      forall u | u in threads
        ensures ThreadOk(u)
      {
        assert old(ThreadOk(u));
      }
      forall r | r in sems
        ensures QueueOk(r) && Accounts(r)
      {
        assert old(QueueOk(r)) && old(Accounts(r));
      }
    }

    constructor ()
      ensures Valid() && threads == {} && sems == {}
    {
      threads, sems := {}, {};
    }

    method AddSemaphore(s: Semaphore)
      requires Valid() && s !in sems && Accounts(s) && s.queue == [] && s.served == {}
      modifies `sems
      ensures Valid() && sems == old(sems) + {s}
    {
      forall t | t in threads
        ensures t.place != Queued(s) && t.place != Served(s)
      {
        assert ThreadOk(t);
      }
      sems := sems + {s};
      forall r | r in sems && r != s
        ensures QueueOk(r) && Accounts(r)
      {
        assert old(QueueOk(r)) && old(Accounts(r));
      }
      forall t | t in threads
        ensures ThreadOk(t)
      {
        assert old(ThreadOk(t));
      }
    }

    method AddThread(t: Thread)
      requires Valid() && t !in threads && t.place == Running && t.state == Runnable && t.waitState == 0
      modifies `threads
      ensures Valid() && threads == old(threads) + {t}
    {
      threads := threads + {t};
      forall s | s in sems
        ensures QueueOk(s)
      {
        assert old(QueueOk(s));
      }
    }

    /** wakeup_wait: t is served. */
    method WakeupWait(s: Semaphore, t: Thread)
      requires s.queue != [] && t == s.queue[0] && t.state == Sleeping
      modifies s`queue, s`served, s`granted, t`state, t`waitState, t`wakeupFlags, t`place
      ensures s.queue == old(s.queue[1..]) && s.granted == old(s.granted) + [t] && s.served == old(s.served) + {t}
      ensures t.state == Runnable && t.waitState == 0 && t.wakeupFlags == WT_KSEM && t.place == Served(s)
    {
      s.queue := s.queue[1..];
      t.wakeupFlags, t.place := WT_KSEM, Served(s);
      var warned := WakeupProc(t);
      assert !warned;
      s.granted, s.served := s.granted + [t], s.served + {t};
    }

    /** wakeup_proc; true when it only warns. */
    static method WakeupProc(t: Thread) returns (warned: bool)
      requires t.state != Zombie
      modifies t`state, t`waitState
      ensures t.state == Runnable && warned == (old(t.state) == Runnable)
      ensures t.waitState == if warned then old(t.waitState) else 0
    {
      warned := t.state == Runnable;
      if !warned {
        t.state := Runnable;
        t.waitState := 0;
      }
    }

    /** up. Its assertion about the woken thread's wait_state holds. */
    method Up(s: Semaphore)
      requires Valid() && s in sems
      modifies s, threads`state, threads`waitState, threads`wakeupFlags, threads`place
      ensures Valid()
      ensures s.ups == old(s.ups) + 1 && s.calls == old(s.calls) && s.taken == old(s.taken)
      ensures View(s) == UpSem(old(View(s)))
      ensures Woken(old(View(s))).Some? ==>
        Woken(old(View(s))).value.state == Runnable && Woken(old(View(s))).value.place == Served(s)
      ensures forall t :: t in threads && Some(t) != Woken(old(View(s))) ==> unchanged(t)
    {
      ghost var c := Changed({}, s);
      assert QueueOk(s) && Accounts(s);
      if |s.queue| == 0 {
        s.value := s.value + 1;
      } else {
        var t := s.queue[0];
        assert t in s.queue && t.place == Queued(s) && ThreadOk(t);
        c := Changed({t}, s);
        GrantHead(s.initial + s.ups, s.value, s.queue, s.calls, s.granted);
        GiveUnit(s.granted, s.served, s.taken, t);
        assert t.waitState == WT_KSEM;
        WakeupWait(s, t);
      }
      s.ups := s.ups + 1;
      OthersKept(c);
    }

    /** try_down, and the fast path of down. */
    method TryDown(s: Semaphore, t: Thread) returns (ok: bool)
      requires Valid() && s in sems && t in threads && t.place == Running
      modifies s`value, s`calls, s`granted, s`taken
      ensures Valid()
      ensures ok <==> old(s.value) > 0
      ensures s.value == old(s.value) - (if ok then 1 else 0)
      ensures s.granted == old(s.granted) + (if ok then [t] else [])
      ensures s.calls == old(s.calls) + (if ok then [t] else [])
      ensures s.taken == old(s.taken) + (if ok then multiset{t} else multiset{})
    {
      ok := s.value > 0;
      assert QueueOk(s) && Accounts(s);
      if ok {
        TakeUnit(s.initial + s.ups, s.value, s.queue, s.calls, s.granted, s.served, s.taken, t);
        s.value := s.value - 1;
        s.calls, s.granted, s.taken := s.calls + [t], s.granted + [t], s.taken + multiset{t};
      }
      OthersKept(Changed({}, s));
    }

    /** The slow path of down (wait_current_set): t goes to sleep at the end of the queue. */
    method WaitCurrentSet(s: Semaphore, t: Thread)
      requires Valid() && s in sems && t in threads && t.place == Running && s.value == 0
      modifies s`queue, s`calls, t`state, t`waitState, t`wakeupFlags, t`place
      ensures Valid() && s.calls == old(s.calls) + [t] && s.queue == old(s.queue) + [t]
      ensures t.place == Queued(s) && t.state == Sleeping
    {
      assert QueueOk(s) && Accounts(s) && ThreadOk(t);
      JoinQueue(s.initial + s.ups, s.value, s.queue, s.calls, s.granted, t);
      t.wakeupFlags := WT_INTERRUPTED;
      t.state := Sleeping;
      t.waitState := WT_KSEM;
      s.queue := s.queue + [t];
      t.place := Queued(s);
      s.calls := s.calls + [t];
      OthersKept(Changed({t}, s));
    }

    /** down, up to its call of schedule(): true when it has returned. */
    method Down(s: Semaphore, t: Thread) returns (done: bool)
      requires Valid() && s in sems && t in threads && t.place == Running
      modifies s`value, s`queue, s`calls, s`granted, s`taken, t`state, t`waitState, t`wakeupFlags, t`place
      ensures Valid() && s.calls == old(s.calls) + [t]
      ensures View(s) == DownSem(old(View(s)), t) && (done <==> Grants(old(View(s))))
      ensures done ==> t.place == Running && s.taken == old(s.taken) + multiset{t}
      ensures !done ==> t.place == Queued(s) && t.state == Sleeping && s.taken == old(s.taken)
    {
      assert Accounts(s);
      done := TryDown(s, t);
      if !done {
        WaitCurrentSet(s, t);
      }
    }

    /** down, from the return of schedule() on; the thread runs, so it is runnable.
        Its wait is out of the queue already and the assertion of down holds. */
    method DownReturns(s: Semaphore, t: Thread)
      requires Valid() && t in threads && t.place in {Queued(s), Served(s)} && t.state == Runnable
      modifies t`place, s`served, s`taken
      ensures Valid() && t.place == Running && s.taken == old(s.taken) + multiset{t}
    {
      assert ThreadOk(t);
      assert QueueOk(s) && Accounts(s);
      assert t !in s.queue;
      assert t.wakeupFlags == WT_KSEM;
      TakeUp(s.granted, s.served, s.taken, t);
      s.served, s.taken := s.served - {t}, s.taken + multiset{t};
      t.place := Running;
      OthersKept(Changed({t}, s));
    }

    /** do_sleep and do_wait, up to schedule(). */
    method Nap(t: Thread, timer: bool)
      requires Valid() && t in threads && t.place == Running
      modifies t
      ensures Valid() && t.place == Napping(timer) && t.state == Sleeping && t.exiting == old(t.exiting)
    {
      assert ThreadOk(t);
      t.state := Sleeping;
      t.waitState := if timer then WT_TIMER else WT_CHILD;
      t.place := Napping(timer);
      OthersKept(Changed({t}, null));
    }

    /** do_sleep and do_wait, when the thread runs again. */
    method NapReturns(t: Thread)
      requires Valid() && t in threads && t.place.Napping? && t.state == Runnable
      modifies t`place
      ensures Valid() && t.place == Running
    {
      assert ThreadOk(t);
      t.place := Running;
      OthersKept(Changed({t}, null));
    }

    /** run_timer_list reaches a thread's timer. Its assertion holds; the warning is
        given exactly when something else woke the thread first. */
    method TimerFires(t: Thread) returns (warned: bool)
      requires Valid() && t in threads && t.place == Napping(true)
      modifies t`state, t`waitState
      ensures Valid() && t.state == Runnable && warned == (old(t.state) == Runnable)
    {
      assert ThreadOk(t);
      if t.waitState != 0 {
        assert t.waitState & WT_INTERRUPTED != 0;
      }
      warned := WakeupProc(t);
      OthersKept(Changed({t}, null));
    }

    /** do_kill; find_proc found t, or found nothing. A thread waiting on a semaphore
        is marked but stays asleep. */
    method Kill(t: Thread?) returns (r: KillResult)
      requires Valid() && (t != null ==> t in threads)
      modifies if t != null then {t} else {}
      ensures Valid()
      ensures t == null <==> r == NoSuchProcess
      ensures t != null ==> (r == AlreadyKilled <==> old(t.exiting))
      ensures t != null ==> t.exiting && t.place == old(t.place)
      ensures t != null ==>
        t.state == if r == Killed && t.place.Napping? then Runnable else old(t.state)
    {
      if t == null { return NoSuchProcess; }
      if t.exiting { return AlreadyKilled; }
      assert ThreadOk(t);
      t.exiting := true;
      if t.waitState & WT_INTERRUPTED != 0 {
        var warned := WakeupProc(t);
      }
      OthersKept(Changed({t}, null));
      r := Killed;
    }

    /** do_exit of t: it wakes its parent, and init when a zombie child is handed to it, if
        they wait for a child. */
    method Exit(t: Thread, parent: Thread, init: Thread, zombies: bool)
      requires Valid() && t in threads && parent in threads && init in threads
      requires t != parent && t != init && t.place == Running && init.state != Zombie
      modifies t, parent`state, parent`waitState, init`state, init`waitState
      ensures Valid() && t.place == Gone && t.state == Zombie
      ensures forall u :: u in threads && u != t ==>
        u.state == if (u == parent || (u == init && zombies)) && old(u.state) == Sleeping && u.place == Napping(false)
                   then Runnable else old(u.state)
    {
      assert ThreadOk(t);
      assert ThreadOk(parent);
      assert ThreadOk(init);
      t.state := Zombie;
      t.place := Gone;
      if parent.waitState == WT_CHILD {
        var warned := WakeupProc(parent);
      }
      if zombies && init.waitState == WT_CHILD {
        var warned := WakeupProc(init);
      }
      OthersKept(Changed({t, parent, init}, null));
    }

    /** A thread waits on one queue at most. */
    lemma OneQueue(t: Thread, s: Semaphore, u: Semaphore)
      requires Valid() && s in sems && u in sems && t in s.queue && t in u.queue
      ensures s == u && t.state == Sleeping && t.waitState == WT_KSEM
    {
      assert QueueOk(s) && QueueOk(u) && ThreadOk(t);
    }

    /** No unit and no call is lost: a unit is free, or with a thread that is about to return
        from down, or was taken once; and the units go to the calls in their order. */
    lemma Conservation(s: Semaphore)
      requires Valid() && s in sems
      ensures s.initial + s.ups == s.value + |s.served| + |s.taken|
      ensures multiset(s.granted) == s.taken + multiset(s.served)
      ensures s.calls == s.granted + s.queue
      ensures s.queue != [] ==> s.value == 0
    {
      assert Accounts(s);
      TakenSum(s.granted, s.served, s.taken);
    }
  }
}
