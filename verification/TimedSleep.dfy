/** do_sleep as a whole: the threads of SemaphoreKernel and the timer list of Timers together.
    Interrupts are disabled inside each method, so a run is any sequence of calls. */
module TimedSleep {
  import opened Basics
  import T = Timers
  import K = SemaphoreKernel

  /** Every timer in the list has its deadline. */
  ghost predicate Listed(q: seq<T.Entry>, deadline: map<nat, nat>) {
    forall i :: 0 <= i < |q| ==> q[i].timer in deadline && q[i].due == deadline[q[i].timer]
  }

  lemma NotListed(q: seq<T.Entry>, deadline: map<nat, nat>, i: nat)
    requires Listed(q, deadline) && i !in deadline
    ensures T.Absent(q, i)
  {
  }

  /** A timer joins, and whatever else was in the list still is. */
  lemma ListedMore(q: seq<T.Entry>, deadline: map<nat, nat>, k: nat, e: T.Entry)
    requires Listed(q, deadline) && k <= |q| && e.timer !in deadline
    ensures Listed(Insert(q, k, e), deadline[e.timer := e.due])
    ensures forall i: nat {:trigger T.Absent(Insert(q, k, e), i)} ::
      T.Absent(Insert(q, k, e), i) <==> T.Absent(q, i) && i != e.timer
  {
    forall i: nat
      ensures T.Absent(Insert(q, k, e), i) <==> T.Absent(q, i) && i != e.timer
    {
      T.InsertAbsent(q, k, e, i);
    }
  }

  /** del_timer took timer i out, if it was there. */
  lemma ListedLess(q: seq<T.Entry>, q': seq<T.Entry>, deadline: map<nat, nat>, i: nat, k: nat)
    requires Listed(q, deadline) && T.Distinct(q)
    requires T.Absent(q, i) ==> q' == q
    requires !T.Absent(q, i) ==> k < |q| && q[k].timer == i && q' == T.Remove(q, k)
    ensures Listed(q', deadline - {i}) && T.Absent(q', i)
    ensures forall j: nat {:trigger T.Absent(q', j)} :: j != i ==> (T.Absent(q', j) <==> T.Absent(q, j))
  {
    if !T.Absent(q, i) {
      forall j: nat
        ensures T.Absent(q', j) <==> T.Absent(q, j) || j == i
      {
        T.RemoveAbsent(q, k, j);
      }
      forall n | 0 <= n < |q'|
        ensures q'[n].timer != i
      {
        T.DifferAt(q, k, if n < k then n else n + 1);
      }
    }
  }

  lemma StillLater(q: seq<T.Entry>, q': seq<T.Entry>, now: nat, i: nat, k: nat)
    requires T.AllLater(q, now)
    requires T.Absent(q, i) ==> q' == q
    requires !T.Absent(q, i) ==> k < |q| && q' == T.Remove(q, k)
    ensures T.AllLater(q', now)
  {
  }

  /** Exactly the threads in do_sleep have a timer, and one each: owner and timerOf undo each other. */
  ghost predicate Owned(owner: map<nat, K.Thread>, timerOf: map<K.Thread, nat>, deadline: map<nat, nat>,
                        nappers: set<K.Thread>, timers: nat) {
    && owner.Keys == deadline.Keys && timerOf.Keys == nappers
    && (forall i {:trigger i in owner} :: i in owner ==>
         owner[i] in nappers && timerOf[owner[i]] == i && 0 < i < timers)
    && (forall t {:trigger t in nappers} :: t in nappers ==> timerOf[t] in owner && owner[timerOf[t]] == t)
  }

  /** Whoever is asleep in do_sleep has its timer in the list. */
  ghost predicate Armed(q: seq<T.Entry>, owner: map<nat, K.Thread>, asleep: set<K.Thread>) {
    forall i: nat {:trigger T.Absent(q, i)} :: i in owner && owner[i] in asleep ==> !T.Absent(q, i)
  }

  lemma OwnedMore(owner: map<nat, K.Thread>, timerOf: map<K.Thread, nat>, deadline: map<nat, nat>,
                  nappers: set<K.Thread>, timers: nat, i: nat, t: K.Thread, d: nat)
    requires Owned(owner, timerOf, deadline, nappers, timers) && i !in owner && t !in nappers && 0 < i < timers
    ensures Owned(owner[i := t], timerOf[t := i], deadline[i := d], nappers + {t}, timers)
  {
  }

  lemma OwnedLess(owner: map<nat, K.Thread>, timerOf: map<K.Thread, nat>, deadline: map<nat, nat>,
                  nappers: set<K.Thread>, timers: nat, i: nat)
    requires Owned(owner, timerOf, deadline, nappers, timers) && i in owner
    ensures Owned(owner - {i}, timerOf - {owner[i]}, deadline - {i}, nappers - {owner[i]}, timers)
  {
  }

  lemma ArmedMore(q: seq<T.Entry>, q': seq<T.Entry>, owner: map<nat, K.Thread>, asleep: set<K.Thread>, i: nat,
                  t: K.Thread)
    requires Armed(q, owner, asleep) && i !in owner && forall j :: j in owner ==> owner[j] != t
    requires forall j: nat {:trigger T.Absent(q', j)} :: T.Absent(q', j) <==> T.Absent(q, j) && j != i
    ensures Armed(q', owner[i := t], asleep + {t})
  {
  }

  lemma ArmedLess(q: seq<T.Entry>, q': seq<T.Entry>, owner: map<nat, K.Thread>, asleep: set<K.Thread>, i: nat)
    requires Armed(q, owner, asleep)
    requires forall j: nat {:trigger T.Absent(q', j)} :: j != i ==> (T.Absent(q', j) <==> T.Absent(q, j))
    ensures Armed(q', owner - {i}, asleep)
  {
  }

  lemma OneSleeps(q: seq<T.Entry>, q': seq<T.Entry>, owner: map<nat, K.Thread>, timerOf: map<K.Thread, nat>,
                  deadline: map<nat, nat>, nappers: set<K.Thread>, asleep: set<K.Thread>, timers: nat, k: nat,
                  e: T.Entry, t: K.Thread)
    requires Owned(owner, timerOf, deadline, nappers, timers) && Listed(q, deadline) && Armed(q, owner, asleep)
    requires k <= |q| && q' == Insert(q, k, e) && e.timer !in owner && 0 < e.timer < timers && t !in nappers
    ensures Owned(owner[e.timer := t], timerOf[t := e.timer], deadline[e.timer := e.due], nappers + {t}, timers)
    ensures Listed(q', deadline[e.timer := e.due]) && Armed(q', owner[e.timer := t], asleep + {t})
  {
    ListedMore(q, deadline, k, e);
    OwnedMore(owner, timerOf, deadline, nappers, timers, e.timer, t, e.due);
    ArmedMore(q, q', owner, asleep, e.timer, t);
  }

  lemma OneReturns(q: seq<T.Entry>, q': seq<T.Entry>, owner: map<nat, K.Thread>, timerOf: map<K.Thread, nat>,
                   deadline: map<nat, nat>, nappers: set<K.Thread>, asleep: set<K.Thread>, timers: nat, i: nat, k: nat)
    requires Owned(owner, timerOf, deadline, nappers, timers) && Listed(q, deadline) && Armed(q, owner, asleep)
    requires T.Distinct(q) && i in owner
    requires T.Absent(q, i) ==> q' == q
    requires !T.Absent(q, i) ==> k < |q| && q[k].timer == i && q' == T.Remove(q, k)
    ensures Owned(owner - {i}, timerOf - {owner[i]}, deadline - {i}, nappers - {owner[i]}, timers)
    ensures Listed(q', deadline - {i}) && Armed(q', owner - {i}, asleep) && T.Absent(q', i)
  {
    ListedLess(q, q', deadline, i, k);
    OwnedLess(owner, timerOf, deadline, nappers, timers, i);
    ArmedLess(q, q', owner, asleep, i);
  }

  function OwnersOf(owner: map<nat, K.Thread>, fired: seq<nat>): set<K.Thread> {
    set i | i in owner && i in fired :: owner[i]
  }

  lemma OneMoreOwner(owner: map<nat, K.Thread>, fired: seq<nat>, n: nat)
    requires n < |fired| && fired[n] in owner
    ensures OwnersOf(owner, fired[..n + 1]) == OwnersOf(owner, fired[..n]) + {owner[fired[n]]}
  {
    assert fired[..n + 1] == fired[..n] + [fired[n]];
  }

  lemma FiredHaveOwners(q: seq<T.Entry>, fired: seq<nat>, owner: map<nat, K.Thread>, timerOf: map<K.Thread, nat>,
                        deadline: map<nat, nat>, nappers: set<K.Thread>, timers: nat)
    requires Listed(q, deadline) && Owned(owner, timerOf, deadline, nappers, timers) && |fired| <= |q|
    requires forall n :: 0 <= n < |fired| ==> fired[n] == q[n].timer
    ensures forall n :: 0 <= n < |fired| ==> fired[n] in owner
  {
  }

  /** A timer that is in the list fires in a tick exactly when its time is up. */
  lemma FiredIsDue(q: seq<T.Entry>, q': seq<T.Entry>, fired: seq<nat>, deadline: map<nat, nat>, now: nat, i: nat)
    requires Listed(q, deadline) && |fired| <= |q| && q' == q[|fired|..] && T.AllLater(q', now)
    requires forall n :: 0 <= n < |fired| ==> fired[n] == q[n].timer && q[n].due == now
    ensures i in fired ==> i in deadline && deadline[i] == now
    ensures i !in fired && !T.Absent(q, i) ==> !T.Absent(q', i) && i in deadline && deadline[i] > now
  {
    if i !in fired && !T.Absent(q, i) {
      var k := T.Find(q, i);
      assert forall n :: 0 <= n < |fired| ==> q[n].timer in fired;
      assert q'[k - |fired|] == q[k];
    }
  }

  lemma ArmedTick(q: seq<T.Entry>, q': seq<T.Entry>, fired: seq<nat>, owner: map<nat, K.Thread>,
                  timerOf: map<K.Thread, nat>, deadline: map<nat, nat>, nappers: set<K.Thread>, timers: nat,
                  asleep: set<K.Thread>, now: nat)
    requires Owned(owner, timerOf, deadline, nappers, timers) && Armed(q, owner, asleep)
    requires Listed(q, deadline) && |fired| <= |q| && q' == q[|fired|..] && T.AllLater(q', now)
    requires forall n :: 0 <= n < |fired| ==> fired[n] == q[n].timer && q[n].due == now
    ensures Listed(q', deadline) && Armed(q', owner, asleep - OwnersOf(owner, fired))
    ensures forall i :: i in owner && owner[i] in asleep ==>
      (owner[i] in OwnersOf(owner, fired) <==> deadline[i] <= now)
  {
    assert forall n :: 0 <= n < |q'| ==> q'[n] == q[n + |fired|];
    forall i: nat | i in owner && owner[i] in asleep
      ensures owner[i] in OwnersOf(owner, fired) <==> i in fired
      ensures if i in fired then deadline[i] == now else !T.Absent(q', i) && deadline[i] > now
    {
      FiredIsDue(q, q', fired, deadline, now, i);
      assert !T.Absent(q, i);
    }
  }

  class Sleepers {
    const kernel: K.Kernel
    const timers: T.Timers
    var owner: map<nat, K.Thread>     // timer->proc, of the timers on the stacks of threads in do_sleep
    ghost var timerOf: map<K.Thread, nat>
    ghost var deadline: map<nat, nat> // the call of run_timer_list at which the time of each is up

    /** The threads in do_sleep. */
    ghost function Nappers(): set<K.Thread>
      reads kernel, kernel.threads
    {
      set t | t in kernel.threads && t.place == K.Napping(true)
    }

    ghost function Asleep(): set<K.Thread>
      reads kernel, kernel.threads
    {
      set t | t in kernel.threads && t.place == K.Napping(true) && t.state == K.Sleeping
    }

    ghost predicate Valid()
      reads this, kernel, kernel.threads, kernel.sems, timers, timers.ring, timers.ring.next, timers.ring.prev
    {
      && kernel.Valid() && timers.Valid()
      && Owned(owner, timerOf, deadline, Nappers(), |timers.expires|) && Listed(timers.queue, deadline)
      && Armed(timers.queue, owner, Asleep())
    }

    constructor (n: nat)
      ensures Valid() && owner == map[] && timers.now == 0 && kernel.threads == {} && |timers.expires| == n + 1
      ensures fresh(kernel) && fresh(timers) && fresh(timers.ring) && fresh(timers.ring.next) && fresh(timers.ring.prev)
    {
      kernel := new K.Kernel();
      timers := new T.Timers(n);
      owner, timerOf, deadline := map[], map[], map[];
    }

    /** The thread goes to sleep, and its timer joins the list. */
    method Start(t: K.Thread, i: nat, time: nat) returns (ghost k: nat)
      requires kernel.Valid() && timers.Valid() && t in kernel.threads && t.place == K.Running
      requires T.Absent(timers.queue, i) && 0 < i < |timers.expires| && 0 < time < T.WORD
      modifies t, timers, timers.ring, timers.ring.next, timers.ring.prev
      ensures kernel.Valid() && timers.Valid() && t.place == K.Napping(true) && t.state == K.Sleeping
      ensures timers.now == old(timers.now) && |timers.expires| == |old(timers.expires)| && k <= |old(timers.queue)|
      ensures timers.queue == Insert(old(timers.queue), k, T.Entry(i, old(timers.now) + time, old(timers.clock)))
      ensures t !in old(Nappers()) && Nappers() == old(Nappers()) + {t} && Asleep() == old(Asleep()) + {t}
    {
      kernel.Nap(t, true);
      assert Nappers() == old(Nappers()) + {t};
      assert Asleep() == old(Asleep()) + {t};
      k := timers.AddTimer(i, time);
    }

    /** The thread runs again, and its timer is not in the list any more. */
    method Stop(t: K.Thread, i: nat) returns (ghost k: nat)
      requires kernel.Valid() && timers.Valid() && t in kernel.threads && t.place == K.Napping(true)
      requires t.state == K.Runnable && 0 < i < |timers.expires|
      modifies t`place, timers, timers.ring, timers.ring.next, timers.ring.prev
      ensures kernel.Valid() && timers.Valid() && t.place == K.Running
      ensures timers.now == old(timers.now) && |timers.expires| == |old(timers.expires)|
      ensures T.Absent(old(timers.queue), i) ==> timers.queue == old(timers.queue)
      ensures !T.Absent(old(timers.queue), i) ==>
        && k < |old(timers.queue)| && old(timers.queue)[k].timer == i
        && timers.queue == T.Remove(old(timers.queue), k)
      ensures Nappers() == old(Nappers()) - {t} && Asleep() == old(Asleep())
    {
      ghost var q := timers.queue;
      kernel.NapReturns(t);
      assert Nappers() == old(Nappers()) - {t};
      assert Asleep() == old(Asleep());
      k := timers.DelTimer(i);
      StillLater(q, timers.queue, timers.now, i, k);
    }

    method Register(t: K.Thread, i: nat, ghost d: nat)
      modifies `owner, `timerOf, `deadline
      ensures owner == old(owner)[i := t] && timerOf == old(timerOf)[t := i] && deadline == old(deadline)[i := d]
    {
      owner, timerOf, deadline := owner[i := t], timerOf[t := i], deadline[i := d];
    }

    method Unregister(t: K.Thread, i: nat)
      modifies `owner, `timerOf, `deadline
      ensures owner == old(owner) - {i} && timerOf == old(timerOf) - {t} && deadline == old(deadline) - {i}
    {
      owner, timerOf, deadline := owner - {i}, timerOf - {t}, deadline - {i};
    }

    /** do_sleep(time) up to schedule(), for time > 0 (with 0 it returns at once); the timer on the
        stack is one that is not in use. */
    method DoSleep(t: K.Thread, i: nat, time: nat) returns (ghost d: nat)
      requires Valid() && t in kernel.threads && t.place == K.Running
      requires i !in owner && 0 < i < |timers.expires| && 0 < time < T.WORD
      modifies this, t, timers, timers.ring, timers.ring.next, timers.ring.prev
      ensures Valid() && t.place == K.Napping(true) && t.state == K.Sleeping
      ensures timers.now == old(timers.now) && d == timers.now + time
      ensures owner == old(owner)[i := t] && deadline == old(deadline)[i := d]
    {
      NotListed(timers.queue, deadline, i);
      d := timers.now + time;
      ghost var q := timers.queue;
      ghost var e := T.Entry(i, d, timers.clock);
      ghost var k := Start(t, i, time);
      OneSleeps(q, timers.queue, owner, timerOf, deadline, old(Nappers()), old(Asleep()), |timers.expires|, k, e, t);
      Register(t, i, d);
    }

    /** The rest of do_sleep, when the thread runs again: its timer leaves the list, if it is there. */
    method SleepReturns(t: K.Thread, i: nat)
      requires Valid() && i in owner && t == owner[i] && t.state == K.Runnable
      modifies this, t`place, timers, timers.ring, timers.ring.next, timers.ring.prev
      ensures Valid() && timers.now == old(timers.now)
      ensures owner == old(owner) - {i} && deadline == old(deadline) - {i}
      ensures t.place == K.Running && T.Absent(timers.queue, i)
    {
      ghost var q := timers.queue;
      ghost var k := Stop(t, i);
      OneReturns(q, timers.queue, owner, timerOf, deadline, old(Nappers()), Asleep(), |timers.expires|, i, k);
      Unregister(t, i);
    }

    /** The wakeups of run_timer_list. */
    method WakeAll(fired: seq<nat>)
      requires kernel.Valid() && forall n :: 0 <= n < |fired| ==> fired[n] in owner
      requires forall i :: i in owner ==> owner[i] in Nappers()
      modifies kernel.threads`state, kernel.threads`waitState
      ensures kernel.Valid() && Nappers() == old(Nappers()) && Asleep() == old(Asleep()) - OwnersOf(owner, fired)
      ensures forall t :: t in kernel.threads && t !in old(Nappers()) ==> unchanged(t)
    {
      var n := 0;
      while n < |fired|
        invariant n <= |fired| && kernel.Valid()
        invariant Nappers() == old(Nappers()) && Asleep() == old(Asleep()) - OwnersOf(owner, fired[..n])
        invariant forall t :: t in kernel.threads && t !in old(Nappers()) ==> unchanged(t)
      {
        var t := owner[fired[n]];
        ghost var nappers, asleep := Nappers(), Asleep();
        var warned := kernel.TimerFires(t);
        assert Nappers() == nappers;
        assert Asleep() == asleep - {t};
        OneMoreOwner(owner, fired, n);
        n := n + 1;
      }
      assert fired[..n] == fired;
    }

    /** run_timer_list: exactly those are woken that sleep and have their time up; the assertion about
        each holds. */
    method Tick()
      requires Valid()
      modifies timers, timers.ring, timers.ring.next, timers.ring.prev
      modifies kernel.threads`state, kernel.threads`waitState
      ensures Valid() && timers.now == old(timers.now) + 1 && Nappers() == old(Nappers())
      ensures forall i :: i in owner && owner[i] in old(Asleep()) ==>
        (owner[i] in Asleep() <==> deadline[i] > timers.now)
      ensures Asleep() <= old(Asleep())
      ensures forall t :: t in kernel.threads && t !in Nappers() ==> unchanged(t)
    {
      ghost var q, asleep := timers.queue, Asleep();
      var fired := timers.RunTimerList();
      FiredHaveOwners(q, fired, owner, timerOf, deadline, Nappers(), |timers.expires|);
      WakeAll(fired);
      ArmedTick(q, timers.queue, fired, owner, timerOf, deadline, Nappers(), |timers.expires|, asleep, timers.now);
    }

    /** Any step that leaves the timers alone keeps this, if nobody enters or leaves do_sleep or falls
        asleep there. */
    twostate lemma OthersKeep()
      requires old(Valid()) && kernel.Valid() && unchanged(this)
      requires unchanged(timers) && unchanged(timers.ring) && unchanged(timers.ring.next) && unchanged(timers.ring.prev)
      requires Nappers() == old(Nappers()) && Asleep() <= old(Asleep())
      ensures Valid()
    {
    }

    method AddThread(t: K.Thread)
      requires Valid() && t !in kernel.threads && t.place == K.Running && t.state == K.Runnable && t.waitState == 0
      modifies kernel
      ensures Valid() && kernel.threads == old(kernel.threads) + {t} && Nappers() == old(Nappers())
    {
      kernel.AddThread(t);
      assert Nappers() == old(Nappers());
      assert Asleep() == old(Asleep());
      OthersKeep();
    }

    /** do_kill wakes a thread in do_sleep early; its timer stays until it runs. */
    method Kill(t: K.Thread) returns (r: K.KillResult)
      requires Valid() && t in kernel.threads
      modifies t
      ensures Valid() && Nappers() == old(Nappers())
      ensures r == K.Killed && t in Nappers() ==> Asleep() == old(Asleep()) - {t}
    {
      r := kernel.Kill(t);
      assert Nappers() == old(Nappers());
      OthersKeep();
    }

    /** up. */
    method Up(s: K.Semaphore)
      requires Valid() && s in kernel.sems
      modifies s, kernel.threads`state, kernel.threads`waitState, kernel.threads`wakeupFlags, kernel.threads`place
      ensures Valid() && Nappers() == old(Nappers()) && Asleep() == old(Asleep())
    {
      assert kernel.QueueOk(s);
      assert s.queue != [] ==> s.queue[0] in s.queue && s.queue[0].place == K.Queued(s);
      kernel.Up(s);
      assert Nappers() == old(Nappers());
      assert Asleep() == old(Asleep());
      OthersKeep();
    }

    /** down, up to its call of schedule(). */
    method Down(s: K.Semaphore, t: K.Thread) returns (done: bool)
      requires Valid() && s in kernel.sems && t in kernel.threads && t.place == K.Running
      modifies s`value, s`queue, s`calls, s`granted, s`taken, t`state, t`waitState, t`wakeupFlags, t`place
      ensures Valid() && Nappers() == old(Nappers()) && Asleep() == old(Asleep())
    {
      done := kernel.Down(s, t);
      assert Nappers() == old(Nappers());
      assert Asleep() == old(Asleep());
      OthersKeep();
    }

    /** do_exit. */
    method Exit(t: K.Thread, parent: K.Thread, init: K.Thread, zombies: bool)
      requires Valid() && t in kernel.threads && parent in kernel.threads && init in kernel.threads
      requires t != parent && t != init && t.place == K.Running && init.state != K.Zombie
      modifies t, parent`state, parent`waitState, init`state, init`waitState
      ensures Valid() && Nappers() == old(Nappers()) && Asleep() == old(Asleep())
    {
      kernel.Exit(t, parent, init, zombies);
      assert Nappers() == old(Nappers());
      assert Asleep() == old(Asleep());
      OthersKeep();
    }

    /** Nobody sleeps on in do_sleep once its time is up: its timer is in the list, and fires before
        that. */
    lemma NobodyOversleeps(t: K.Thread)
      requires Valid() && t in kernel.threads && t.place == K.Napping(true) && t.state == K.Sleeping
      ensures exists i :: i in owner && owner[i] == t && !T.Absent(timers.queue, i) && timers.now < deadline[i]
    {
      assert t in Nappers() && t in Asleep();
      var i := timerOf[t];
      assert i in owner && owner[i] == t;
      var k := T.Find(timers.queue, i);
      assert timers.queue[k].due > timers.now;
    }
  }
}
