/** The timer list of sched.c: each timer's field expires is relative to the timer before
    it in the list. Timer t is node t of the list. */
module Timers {
  import opened Basics
  import opened Rings

  const WORD: nat := 0x1_0000_0000

  /** A timer in the list: the call of run_timer_list at which it fires, and a stamp that
      says when it was added. */
  datatype Entry = Entry(timer: nat, due: nat, stamp: nat)

  predicate Before(a: Entry, b: Entry) {
    a.due < b.due || (a.due == b.due && a.stamp < b.stamp)
  }

  /** Sorted by the tick at which timers are due; timers due together in the order in
      which they were added. */
  ghost predicate Sorted(q: seq<Entry>) {
    forall i, j {:trigger Before(q[i], q[j])} :: 0 <= i < j < |q| ==> Before(q[i], q[j])
  }

  predicate Differ(a: Entry, b: Entry) {
    a.timer != b.timer
  }

  ghost predicate Distinct(q: seq<Entry>) {
    forall i, j {:trigger Differ(q[i], q[j])} :: 0 <= i < j < |q| ==> Differ(q[i], q[j])
  }

  /** The tick that the expires field of entry i counts from. */
  ghost function Base(q: seq<Entry>, now: nat, i: nat): nat
    requires i <= |q|
  {
    if i == 0 then now else q[i - 1].due
  }

  ghost predicate DeltaAt(q: seq<Entry>, expires: seq<nat>, now: nat, i: nat)
    requires i < |q|
  {
    q[i].timer < |expires| && q[i].due == Base(q, now, i) + expires[q[i].timer]
  }

  /** The fields expires are the differences between the ticks at which timers are due. */
  ghost predicate Deltas(q: seq<Entry>, expires: seq<nat>, now: nat) {
    forall i :: 0 <= i < |q| ==> DeltaAt(q, expires, now, i)
  }

  ghost predicate Listed(items: seq<nat>, q: seq<Entry>) {
    |items| == |q| && forall i :: 0 <= i < |q| ==> items[i] == q[i].timer
  }

  ghost predicate Absent(q: seq<Entry>, t: nat) {
    forall i :: 0 <= i < |q| ==> q[i].timer != t
  }

  function Remove(q: seq<Entry>, k: nat): (r: seq<Entry>)
    requires k < |q|
    ensures |r| == |q| - 1
    ensures forall i :: 0 <= i < |r| ==> r[i] == if i < k then q[i] else q[i + 1]
  {
    q[..k] + q[k + 1..]
  }

  ghost predicate Timed(q: seq<Entry>, expires: seq<nat>, now: nat, clock: nat) {
    && Sorted(q) && Distinct(q) && Deltas(q, expires, now)
    && (forall i :: 0 <= i < |q| ==> q[i].stamp < clock && q[i].due < now + WORD)
  }

  /** Entries before k are due at d or earlier, entries from k on later. */
  ghost predicate IsPlace(q: seq<Entry>, d: nat, k: nat) {
    k <= |q| && (forall i :: 0 <= i < k ==> q[i].due <= d) && (forall i :: k <= i < |q| ==> q[i].due > d)
  }

  lemma SortedInsert(q: seq<Entry>, k: nat, e: Entry)
    requires Sorted(q) && Distinct(q) && Absent(q, e.timer) && IsPlace(q, e.due, k)
      && forall i :: 0 <= i < |q| ==> q[i].stamp < e.stamp
    ensures Sorted(Insert(q, k, e)) && Distinct(Insert(q, k, e))
  {
  }

  lemma DifferAt(q: seq<Entry>, i: nat, j: nat)
    requires Distinct(q) && i < |q| && j < |q|
    ensures i != j ==> q[i].timer != q[j].timer
  {
    assert i < j ==> Differ(q[i], q[j]);
    assert j < i ==> Differ(q[j], q[i]);
  }

  lemma DeltasInsert(q: seq<Entry>, expires: seq<nat>, now: nat, k: nat, e: Entry, rest: nat)
    requires Distinct(q) && Deltas(q, expires, now) && Absent(q, e.timer) && k <= |q| && e.timer < |expires|
    requires e.due == Base(q, now, k) + rest
    requires k < |q| ==> DeltaAt(q, expires, now, k) && rest < expires[q[k].timer]
    ensures
      var less := if k < |q| then expires[q[k].timer := expires[q[k].timer] - rest] else expires;
      Deltas(Insert(q, k, e), less[e.timer := rest], now)
  {
    var r := Insert(q, k, e);
    var less := if k < |q| then expires[q[k].timer := expires[q[k].timer] - rest] else expires;
    var after := less[e.timer := rest];
    forall i | 0 <= i < |r|
      ensures DeltaAt(r, after, now, i)
    {
      assert i < k ==> DeltaAt(q, expires, now, i);
      assert i > k ==> DeltaAt(q, expires, now, i - 1);
      if i != k && k < |q| {
        DifferAt(q, if i < k then i else i - 1, k);
      }
    }
  }

  /** A timer joins after all that are due no later; the next one counts from it. */
  lemma InsertOk(q: seq<Entry>, expires: seq<nat>, now: nat, clock: nat, k: nat, e: Entry, rest: nat)
    requires Timed(q, expires, now, clock) && Absent(q, e.timer) && k <= |q| && e.timer < |expires|
    requires e.due == Base(q, now, k) + rest && e.stamp == clock && e.due < now + WORD
    requires k < |q| ==> DeltaAt(q, expires, now, k) && rest < expires[q[k].timer]
    ensures IsPlace(q, e.due, k)
    ensures
      var less := if k < |q| then expires[q[k].timer := expires[q[k].timer] - rest] else expires;
      Timed(Insert(q, k, e), less[e.timer := rest], now, clock + 1)
  {
    forall i | 0 <= i < |q|
      ensures if i < k then q[i].due <= e.due else e.due < q[i].due
    {
      assert i < k - 1 ==> Before(q[i], q[k - 1]);
      assert i > k ==> Before(q[k], q[i]);
    }
    SortedInsert(q, k, e);
    DeltasInsert(q, expires, now, k, e, rest);
  }

  /** Every timer is due after tick now. */
  ghost predicate AllLater(q: seq<Entry>, now: nat) {
    forall i :: 0 <= i < |q| ==> q[i].due > now
  }

  lemma InsertDue(q: seq<Entry>, k: nat, e: Entry, now: nat)
    requires AllLater(q, now) && k <= |q| && e.due > now
    ensures AllLater(Insert(q, k, e), now)
  {
  }

  lemma InsertAbsent(q: seq<Entry>, k: nat, e: Entry, t: nat)
    requires k <= |q|
    ensures Absent(Insert(q, k, e), t) <==> Absent(q, t) && t != e.timer
  {
    var r := Insert(q, k, e);
    if Absent(r, t) {
      assert r[k] == e;
      forall i | 0 <= i < |q|
        ensures q[i].timer != t
      {
        assert q[i] == r[if i < k then i else i + 1];
      }
    }
  }

  lemma RemoveAbsent(q: seq<Entry>, k: nat, t: nat)
    requires k < |q| && Distinct(q)
    ensures Absent(Remove(q, k), t) <==> Absent(q, t) || t == q[k].timer
  {
    var r := Remove(q, k);
    forall i | 0 <= i < |r|
      ensures r[i].timer != q[k].timer
    {
      DifferAt(q, if i < k then i else i + 1, k);
    }
    if Absent(r, t) && t != q[k].timer {
      forall i | 0 <= i < |q|
        ensures q[i].timer != t
      {
        assert i != k ==> q[i] == r[if i < k then i else i - 1];
      }
    }
  }

  /** What timer k counted goes to the next one. */
  function PassOn(q: seq<Entry>, expires: seq<nat>, k: nat): (more: seq<nat>)
    requires k < |q| && q[k].timer < |expires| && (k + 1 < |q| ==> q[k + 1].timer < |expires|)
    ensures |more| == |expires|
  {
    if k + 1 < |q| then expires[q[k + 1].timer := expires[q[k + 1].timer] + expires[q[k].timer]] else expires
  }

  lemma DeltasRemove(q: seq<Entry>, expires: seq<nat>, now: nat, k: nat)
    requires Distinct(q) && Deltas(q, expires, now) && k < |q|
    ensures q[k].timer < |expires| && (k + 1 < |q| ==> q[k + 1].timer < |expires|)
    ensures Deltas(Remove(q, k), PassOn(q, expires, k), now)
  {
    var r := Remove(q, k);
    assert DeltaAt(q, expires, now, k) && (k + 1 < |q| ==> DeltaAt(q, expires, now, k + 1));
    var more := PassOn(q, expires, k);
    forall i | 0 <= i < |r|
      ensures DeltaAt(r, more, now, i)
    {
      var j := if i < k then i else i + 1;
      assert DeltaAt(q, expires, now, j);
      DifferAt(q, j, k);
      if k + 1 < |q| {
        DifferAt(q, j, k + 1);
      }
    }
  }

  lemma SortedRemove(q: seq<Entry>, k: nat)
    requires Sorted(q) && Distinct(q) && k < |q|
    ensures Sorted(Remove(q, k)) && Distinct(Remove(q, k))
  {
  }

  /** A timer leaves. */
  lemma RemoveOk(q: seq<Entry>, expires: seq<nat>, now: nat, clock: nat, k: nat)
    requires Timed(q, expires, now, clock) && k < |q|
    ensures q[k].timer < |expires| && (k + 1 < |q| ==> q[k + 1].timer < |expires|)
    ensures Timed(Remove(q, k), PassOn(q, expires, k), now, clock)
    ensures k + 1 < |q| ==> expires[q[k + 1].timer] + expires[q[k].timer] < WORD
  {
    DeltasRemove(q, expires, now, k);
    SortedRemove(q, k);
    BaseBound(q, expires, now, clock, k);
    assert DeltaAt(q, expires, now, k) && (k + 1 < |q| ==> DeltaAt(q, expires, now, k + 1));
  }

  /** No timer in the list counts from before now. */
  lemma BaseBound(q: seq<Entry>, expires: seq<nat>, now: nat, clock: nat, k: nat)
    requires Timed(q, expires, now, clock) && k < |q|
    ensures Base(q, now, k) >= now && q[k].due >= now
  {
    if k > 0 {
      BaseBound(q, expires, now, clock, k - 1);
    }
    assert DeltaAt(q, expires, now, k);
  }

  class Timers {
    const ring: Ring
    var expires: seq<nat>
    ghost var now: nat           // calls of run_timer_list so far
    ghost var queue: seq<Entry>
    ghost var clock: nat

    ghost predicate ListOk()
      reads this, ring, ring.next, ring.prev
    {
      && ring.Valid() && ring.next.Length == |expires| && 0 < |expires|
      && Listed(ring.items, queue) && Timed(queue, expires, now, clock) && Loose(queue)
    }

    /** Timers that are not in the list are linked to themselves. */
    ghost predicate Loose(q: seq<Entry>)
      reads ring.next
    {
      forall t: nat {:trigger Absent(q, t)} :: 0 < t < ring.next.Length && Absent(q, t) ==> ring.next[t] == t
    }

    /** Between ticks every timer is due later. */
    ghost predicate Valid()
      reads this, ring, ring.next, ring.prev
    {
      ListOk() && AllLater(queue, now)
    }

    /** timer_list and n timers, none of them added. */
    constructor (n: nat)
      ensures Valid() && queue == [] && now == 0 && |expires| == n + 1
      ensures fresh(ring) && fresh(ring.next) && fresh(ring.prev)
    {
      ring := new Ring(n);
      expires := seq(n + 1, i => 0);
      now, queue, clock := 0, [], 0;
    }

    /** The search of add_timer: the first timer due later than e ticks from now, and what
        is left of e when all the timers before it are counted off. */
    method Seek(e: nat) returns (le: nat, rest: nat, ghost k: nat)
      requires ListOk()
      ensures k <= |queue| && le == RingAt(ring.items, k + 1)
      ensures Base(queue, now, k) + rest == now + e
      ensures if k < |queue| then 0 < le == queue[k].timer < |expires| && rest < expires[le] else le == 0
    {
      rest, k := e, 0;
      ring.Links(0);
      le := ring.next[0];
      while le != 0
        invariant k <= |queue| && le == RingAt(ring.items, k + 1) && Base(queue, now, k) + rest == now + e
        decreases |queue| - k
      {
        assert DeltaAt(queue, expires, now, k);
        if rest < expires[le] {
          return;
        }
        rest := rest - expires[le];
        ring.Links(k + 1);
        le := ring.next[le];
        k := k + 1;
      }
    }

    /** list_add_before of timer e at place k. */
    method Join(le: nat, e: nat, ghost k: nat, ghost entry: Entry)
      requires ring.Valid() && Listed(ring.items, queue) && Loose(queue) && Absent(queue, e)
      requires 0 < e < ring.next.Length && e == entry.timer && k <= |queue| && le == RingAt(ring.items, k + 1)
      modifies ring, ring.next, ring.prev, `queue
      ensures ring.Valid() && Listed(ring.items, queue) && Loose(queue) && queue == Insert(old(queue), k, entry)
    {
      ghost var q, items := queue, ring.items;
      ring.AddBefore(le, e, k);
      queue := Insert(q, k, entry);
      forall t: nat | 0 < t < ring.next.Length && Absent(queue, t)
        ensures ring.next[t] == t
      {
        InsertAbsent(q, k, entry, t);
        assert t !in items;
      }
    }

    /** The writes of add_timer to the fields: the new timer counts from the one before its
        place, and the one after it counts from the new timer. */
    method SetFields(t: nat, le: nat, rest: nat, ghost k: nat, ghost entry: Entry)
      requires Timed(queue, expires, now, clock) && AllLater(queue, now) && Absent(queue, t)
      requires t == entry.timer < |expires| && entry.stamp == clock && now < entry.due < now + WORD
      requires k <= |queue| && entry.due == Base(queue, now, k) + rest
      requires if k < |queue| then 0 < le == queue[k].timer < |expires| && rest < expires[le] else le == 0
      modifies `expires, `clock
      ensures |expires| == |old(expires)| && clock == old(clock) + 1 && IsPlace(queue, entry.due, k)
      ensures Timed(Insert(queue, k, entry), expires, now, clock) && AllLater(Insert(queue, k, entry), now)
    {
      assert k < |queue| ==> DeltaAt(queue, expires, now, k);
      InsertOk(queue, expires, now, clock, k, entry, rest);
      InsertDue(queue, k, entry, now);
      if le != 0 {
        expires := expires[le := expires[le] - rest];
      }
      expires := expires[t := rest];
      clock := clock + 1;
    }

    /** add_timer of a timer that is not in the list, to fire e ticks from now: it goes
        after every timer due then or earlier, and no other timer's tick changes. */
    method AddTimer(t: nat, e: nat) returns (ghost k: nat)
      requires Valid() && 0 < t < |expires| && Absent(queue, t) && 0 < e < WORD
      modifies this, ring, ring.next, ring.prev
      ensures Valid() && now == old(now) && |expires| == |old(expires)| && clock == old(clock) + 1
      ensures IsPlace(old(queue), now + e, k) && queue == Insert(old(queue), k, Entry(t, now + e, old(clock)))
    {
      var le, rest;
      le, rest, k := Seek(e);
      ghost var entry := Entry(t, now + e, clock);
      SetFields(t, le, rest, k, entry);
      Join(le, t, k, entry);
    }

    /** list_del_init of the timer at place k. */
    method Leave(t: nat, ghost k: nat)
      requires ring.Valid() && Listed(ring.items, queue) && Loose(queue) && Distinct(queue)
      requires k < |queue| && t == queue[k].timer
      modifies ring, ring.next, ring.prev, `queue
      ensures ring.Valid() && Listed(ring.items, queue) && Loose(queue) && queue == Remove(old(queue), k)
    {
      ghost var q, items := queue, ring.items;
      ring.DeleteInit(t, k);
      queue := Remove(q, k);
      forall u: nat | 0 < u < ring.next.Length && Absent(queue, u)
        ensures ring.next[u] == u
      {
        RemoveAbsent(q, k, u);
        assert Absent(q, u) ==> u !in items;
      }
    }

    /** del_timer: a timer in the list leaves it, and no other timer's tick changes; the
        addition stays within a word. */
    method DelTimer(t: nat) returns (ghost k: nat)
      requires ListOk() && 0 < t < |expires|
      modifies `expires, `queue, ring, ring.next, ring.prev
      ensures ListOk() && |expires| == |old(expires)|
      ensures Absent(old(queue), t) ==> queue == old(queue)
      ensures !Absent(old(queue), t) ==> k < |old(queue)| && old(queue)[k].timer == t && queue == Remove(old(queue), k)
    {
      k := 0;
      if ring.next[t] != t {
        k := Find(queue, t);
        RemoveOk(queue, expires, now, clock, k);
        ghost var more, clear := PassOn(queue, expires, k), Remove(queue, k);
        if expires[t] != 0 {
          ring.Links(k + 1);
          var le := ring.next[t];
          if le != 0 {
            assert le == queue[k + 1].timer && expires[le] + expires[t] < WORD;
            expires := expires[le := expires[le] + expires[t]];
          }
        }
        assert expires == more;
        assert Timed(clear, expires, now, clock);
        Leave(t, k);
      } else {
        Unlinked(t);
      }
    }

    /** A timer that is linked to itself is not in the list. */
    lemma Unlinked(t: nat)
      requires ListOk() && 0 < t < |expires| && ring.next[t] == t
      ensures Absent(queue, t)
    {
      forall i | 0 <= i < |queue|
        ensures queue[i].timer != t
      {
        ring.Links(i + 1);
        OnceRound(ring.items, i + 1, i + 2);
      }
    }

    /** One round of run_timer_list: the first timer, which is due, fires and leaves. */
    method FireFirst(timer: nat) returns (le: nat)
      requires ListOk() && queue != [] && timer == queue[0].timer && timer < |expires| && expires[timer] == 0
      modifies `expires, `queue, ring, ring.next, ring.prev
      ensures ListOk() && |expires| == |old(expires)| && queue == old(queue)[1..] && old(queue)[0].due == now
      ensures le == if queue == [] then 0 else queue[0].timer
    {
      assert DeltaAt(queue, expires, now, 0);
      ring.Links(1);
      le := ring.next[timer];
      ghost var q := queue;
      ghost var k := DelTimer(timer);
      DifferAt(q, k, 0);
    }

    /** The first half of run_timer_list: a tick is counted off the first timer. */
    method CountOff() returns (le: nat)
      requires Valid()
      modifies `expires, `now
      ensures ListOk() && |expires| == |old(expires)| && now == old(now) + 1
        && forall i :: 0 <= i < |queue| ==> queue[i].due >= now
      ensures le == if queue == [] then 0 else queue[0].timer
    {
      ring.Links(0);
      le := ring.next[0];
      if le != 0 {
        assert DeltaAt(queue, expires, now, 0);
        assert expires[le] != 0;
        Ticked(queue, expires, now, clock);
        expires := expires[le := expires[le] - 1];
      }
      now := now + 1;
    }

    /** run_timer_list: the timers that are due fire, in order, and leave the list. */
    method RunTimerList() returns (fired: seq<nat>)
      requires Valid()
      modifies this, ring, ring.next, ring.prev
      ensures Valid() && now == old(now) + 1 && clock == old(clock) && |expires| == |old(expires)|
      ensures |fired| <= |old(queue)| && queue == old(queue)[|fired|..]
      ensures forall i :: 0 <= i < |fired| ==> fired[i] == old(queue)[i].timer && old(queue)[i].due == now
    {
      fired := [];
      ghost var q := queue;
      var timer := CountOff();
      if timer != 0 {
        assert DeltaAt(queue, expires, now, 0);
        while timer != 0 && expires[timer] == 0
          invariant ListOk() && |expires| == |old(expires)| && now == old(now) + 1 && clock == old(clock)
          invariant |fired| <= |q| && queue == q[|fired|..] && timer == (if queue == [] then 0 else queue[0].timer)
          invariant timer < |expires|
          invariant forall i :: 0 <= i < |fired| ==> fired[i] == q[i].timer && q[i].due == now
          decreases |q| - |fired|
        {
          fired := fired + [timer];
          timer := FireFirst(timer);
          if timer != 0 {
            assert DeltaAt(queue, expires, now, 0);
          }
        }
        FirstLater(queue, expires, now, clock);
      }
    }

    /** Any legal run: each tick fires exactly the timers whose deadline has come, those of
        one tick in the order in which they were added. */
    method Run(events: seq<Event>) returns (log: seq<seq<nat>>)
      requires Valid() && queue == [] && now == clock == 0
      requires LegalRun(events, |expires| - 1)
      modifies this, ring, ring.next, ring.prev
      ensures |log| == |events| && Valid() && now == After(events).now && Represents(queue, After(events).armed)
      ensures LogsOk(log, events)
    {
      log := [];
      while |log| != |events|
        invariant |log| <= |events| && Valid() && |expires| == |old(expires)|
        invariant
          var c := After(events[..|log|]);
          now == c.now && clock == c.adds && Represents(queue, c.armed)
        invariant LogsOk(log, events)
        decreases |events| - |log|
      {
        var n := |log|;
        ghost var c := After(events[..n]);
        AfterNext(events, n);
        assert LegalAt(events, n, |expires| - 1);
        var fired := Handle(events[n], c);
        LogsNext(log, events, fired);
        log := log + [fired];
      }
      assert events[..|events|] == events;
    }

    /** One event. */
    method Handle(e: Event, ghost c: Clock) returns (fired: seq<nat>)
      requires Valid() && now == c.now && clock == c.adds && Represents(queue, c.armed) && Legal(c, e, |expires| - 1)
      modifies this, ring, ring.next, ring.prev
      ensures Valid() && |expires| == |old(expires)|
      ensures now == Step(c, e).now && clock == Step(c, e).adds && Represents(queue, Step(c, e).armed)
      ensures e.Tick? ==> FiresInOrder(fired, Fires(c))
    {
      fired := [];
      match e
      case Add(t, ticks) =>
        HandleAdd(t, ticks, c);
      case Del(t) =>
        HandleDel(t, c);
      case Tick =>
        fired := HandleTick(c);
    }

    method HandleAdd(t: nat, ticks: nat, ghost c: Clock)
      requires Valid() && now == c.now && clock == c.adds && Represents(queue, c.armed)
        && Legal(c, Add(t, ticks), |expires| - 1)
      modifies this, ring, ring.next, ring.prev
      ensures Valid() && |expires| == |old(expires)|
      ensures now == c.now && clock == c.adds + 1 && Represents(queue, Step(c, Add(t, ticks)).armed)
    {
      ghost var q := queue;
      ghost var k := AddTimer(t, ticks);
      AddRepresents(q, c.armed, k, Entry(t, c.now + ticks, c.adds));
    }

    method HandleDel(t: nat, ghost c: Clock)
      requires Valid() && Represents(queue, c.armed) && 0 < t < |expires|
      modifies `expires, `queue, ring, ring.next, ring.prev
      ensures Valid() && |expires| == |old(expires)| && Represents(queue, c.armed - {t})
    {
      ghost var q := queue;
      ghost var k := DelTimer(t);
      if Absent(q, t) {
        assert c.armed - {t} == c.armed;
      } else {
        DelRepresents(q, c.armed, k);
      }
    }

    method HandleTick(ghost c: Clock) returns (fired: seq<nat>)
      requires Valid() && now == c.now && clock == c.adds && Represents(queue, c.armed)
      modifies this, ring, ring.next, ring.prev
      ensures Valid() && |expires| == |old(expires)|
      ensures now == c.now + 1 && clock == c.adds && Represents(queue, Step(c, Tick).armed)
        && FiresInOrder(fired, Fires(c))
    {
      ghost var q := queue;
      fired := RunTimerList();
      assert forall i :: |fired| <= i < |q| ==> q[i] == queue[i - |fired|];
      TickFires(q, c, fired);
      TickRepresents(q, c, fired);
    }
  }

  /** When the first timer is due later, all are. */
  lemma FirstLater(q: seq<Entry>, expires: seq<nat>, now: nat, clock: nat)
    requires Timed(q, expires, now, clock) && (q != [] ==> q[0].timer < |expires| && expires[q[0].timer] != 0)
    ensures AllLater(q, now)
  {
    if q != [] {
      assert DeltaAt(q, expires, now, 0);
      assert forall i :: 0 < i < |q| ==> Before(q[0], q[i]);
    }
  }

  lemma Find(q: seq<Entry>, t: nat) returns (k: nat)
    requires !Absent(q, t)
    ensures k < |q| && q[k].timer == t
  {
    var i :| 0 <= i < |q| && q[i].timer == t;
    k := i;
  }

  /** Counting one tick off the first timer moves now. */
  lemma Ticked(q: seq<Entry>, expires: seq<nat>, now: nat, clock: nat)
    requires Timed(q, expires, now, clock) && q != [] && DeltaAt(q, expires, now, 0) && expires[q[0].timer] > 0
    ensures Timed(q, expires[q[0].timer := expires[q[0].timer] - 1], now + 1, clock)
  {
    var less := expires[q[0].timer := expires[q[0].timer] - 1];
    var next := now + 1;
    forall i | 0 <= i < |q|
      ensures DeltaAt(q, less, next, i)
    {
      assert DeltaAt(q, expires, now, i);
      DifferAt(q, 0, i);
    }
  }

  // ---------- runs ----------

  datatype Event = Add(timer: nat, ticks: nat) | Del(timer: nat) | Tick

  /** Timers with absolute deadlines: what is armed, due when, and added in which order. */
  datatype Clock = Clock(now: nat, adds: nat, armed: map<nat, Entry>)

  function Fires(c: Clock): map<nat, Entry> {
    map t | t in c.armed && c.armed[t].due == c.now + 1 :: c.armed[t]
  }

  function Step(c: Clock, e: Event): Clock {
    match e
    case Add(t, ticks) => Clock(c.now, c.adds + 1, c.armed[t := Entry(t, c.now + ticks, c.adds)])
    case Del(t) => c.(armed := c.armed - {t})
    case Tick => Clock(c.now + 1, c.adds, c.armed - Fires(c).Keys)
  }

  function After(events: seq<Event>): Clock {
    if events == [] then Clock(0, 0, map[]) else Step(After(events[..|events| - 1]), events[|events| - 1])
  }

  /** What the callers of add_timer and del_timer see to: a timer of the n there are, and
      one that is added is not armed, and waits at least one tick. */
  predicate Legal(c: Clock, e: Event, n: nat) {
    match e
    case Add(t, ticks) => 0 < t <= n && t !in c.armed && 0 < ticks < WORD
    case Del(t) => 0 < t <= n
    case Tick => true
  }

  ghost predicate Represents(q: seq<Entry>, armed: map<nat, Entry>) {
    && (forall i :: 0 <= i < |q| ==> q[i].timer in armed && armed[q[i].timer] == q[i])
    && (forall t :: t in armed ==> !Absent(q, t))
  }

  /** What a tick must fire: each timer that is due, once, in the order of the additions. */
  ghost predicate FiresInOrder(fired: seq<nat>, due: map<nat, Entry>) {
    && (forall i :: 0 <= i < |fired| ==> fired[i] in due)
    && (forall t :: t in due ==> t in fired)
    && (forall i, j :: 0 <= i < j < |fired| ==>
         fired[i] in due && fired[j] in due && due[fired[i]].stamp < due[fired[j]].stamp)
  }

  lemma AddRepresents(q: seq<Entry>, armed: map<nat, Entry>, k: nat, e: Entry)
    requires Represents(q, armed) && k <= |q| && Absent(q, e.timer)
    ensures Represents(Insert(q, k, e), armed[e.timer := e])
  {
    forall t | t in armed[e.timer := e]
      ensures !Absent(Insert(q, k, e), t)
    {
      InsertAbsent(q, k, e, t);
    }
  }

  lemma DelRepresents(q: seq<Entry>, armed: map<nat, Entry>, k: nat)
    requires Represents(q, armed) && k < |q| && Distinct(q)
    ensures Represents(Remove(q, k), armed - {q[k].timer})
  {
    RemoveAbsent(q, k, q[k].timer);
    forall t | t in armed - {q[k].timer}
      ensures !Absent(Remove(q, k), t)
    {
      RemoveAbsent(q, k, t);
    }
  }

  /** The entries that fired are the ones that are due. */
  ghost predicate Split(q: seq<Entry>, c: Clock, fired: seq<nat>) {
    && |fired| <= |q|
    && (forall i :: 0 <= i < |fired| ==> fired[i] == q[i].timer && q[i].due == c.now + 1)
    && (forall i :: |fired| <= i < |q| ==> q[i].due > c.now + 1)
  }

  lemma TickFinds(q: seq<Entry>, c: Clock, fired: seq<nat>, t: nat)
    requires Represents(q, c.armed) && Split(q, c, fired) && t in c.armed
    ensures t in Fires(c) ==> t in fired
    ensures t !in Fires(c) ==> !Absent(q[|fired|..], t)
  {
    var i := Find(q, t);
    var rest := q[|fired|..];
    if i < |fired| {
      assert fired[i] == t;
    } else {
      assert rest[i - |fired|] == q[i];
    }
  }

  lemma TickFires(q: seq<Entry>, c: Clock, fired: seq<nat>)
    requires Represents(q, c.armed) && Split(q, c, fired) && Sorted(q)
    ensures FiresInOrder(fired, Fires(c))
  {
    forall t | t in Fires(c)
      ensures t in fired
    {
      TickFinds(q, c, fired, t);
    }
    forall i | 0 <= i < |fired|
      ensures fired[i] in Fires(c) && Fires(c)[fired[i]] == q[i]
    {
    }
    assert forall i, j :: 0 <= i < j < |fired| ==> Before(q[i], q[j]);
  }

  lemma TickRepresents(q: seq<Entry>, c: Clock, fired: seq<nat>)
    requires Represents(q, c.armed) && Split(q, c, fired)
    ensures Represents(q[|fired|..], Step(c, Tick).armed)
  {
    var rest, armed := q[|fired|..], Step(c, Tick).armed;
    forall i | 0 <= i < |rest|
      ensures rest[i].timer in armed && armed[rest[i].timer] == rest[i]
    {
      assert rest[i] == q[i + |fired|];
    }
    forall t | t in armed
      ensures !Absent(rest, t)
    {
      TickFinds(q, c, fired, t);
    }
  }

  function Ticks(events: seq<Event>): nat {
    if events == [] then 0 else Ticks(events[..|events| - 1]) + if events[|events| - 1].Tick? then 1 else 0
  }

  lemma {:induction false} NowIsTicks(events: seq<Event>)
    ensures After(events).now == Ticks(events)
  {
    if events != [] {
      NowIsTicks(events[..|events| - 1]);
    }
  }

  /** What fired at event i is what had to fire. */
  ghost predicate LogOk(fired: seq<nat>, events: seq<Event>, i: nat)
    requires i < |events|
  {
    events[i].Tick? ==> FiresInOrder(fired, Fires(After(events[..i])))
  }

  ghost predicate LogsOk(log: seq<seq<nat>>, events: seq<Event>) {
    |log| <= |events| && forall i :: 0 <= i < |log| ==> LogOk(log[i], events, i)
  }

  lemma LogsNext(log: seq<seq<nat>>, events: seq<Event>, fired: seq<nat>)
    requires LogsOk(log, events) && |log| < |events| && LogOk(fired, events, |log|)
    ensures LogsOk(log + [fired], events)
  {
  }

  ghost predicate LegalAt(events: seq<Event>, i: nat, timers: nat)
    requires i < |events|
  {
    Legal(After(events[..i]), events[i], timers)
  }

  ghost predicate LegalRun(events: seq<Event>, timers: nat) {
    forall i :: 0 <= i < |events| ==> LegalAt(events, i, timers)
  }

  lemma AfterNext(events: seq<Event>, m: nat)
    requires m < |events|
    ensures After(events[..m + 1]) == Step(After(events[..m]), events[m])
    ensures Ticks(events[..m + 1]) == Ticks(events[..m]) + if events[m].Tick? then 1 else 0
  {
    assert events[..m + 1][..m] == events[..m];
  }

  /** A timer leaves only when it is deleted or fires. */
  lemma StepKeeps(c: Clock, e: Event, t: nat, timers: nat)
    requires t in c.armed && Legal(c, e, timers) && e != Del(t) && (e.Tick? ==> c.armed[t].due > c.now + 1)
    ensures t in Step(c, e).armed && Step(c, e).armed[t] == c.armed[t]
  {
  }

  /** A timer added at event n and not deleted stays armed, with its deadline, for as long
      as fewer ticks than it waits for have come. */
  lemma {:induction false} StaysArmed(events: seq<Event>, n: nat, m: nat, t: nat, ticks: nat, timers: nat)
    requires n < m <= |events| && events[n] == Add(t, ticks)
    requires LegalRun(events, timers)
    requires forall i :: n < i < m ==> events[i] != Del(t)
    requires Ticks(events[..m]) < Ticks(events[..n]) + ticks
    ensures
      var c := After(events[..m]);
      t in c.armed && c.armed[t].due == Ticks(events[..n]) + ticks
    decreases m
  {
    AfterNext(events, m - 1);
    if m == n + 1 {
      NowIsTicks(events[..n]);
    } else {
      StaysArmed(events, n, m - 1, t, ticks, timers);
      NowIsTicks(events[..m - 1]);
      assert LegalAt(events, m - 1, timers);
      StepKeeps(After(events[..m - 1]), events[m - 1], t, timers);
    }
  }

  /** A timer added with value ticks fires on exactly the ticks-th later call of
      run_timer_list, unless it is deleted first. */
  lemma FiresOnTime(events: seq<Event>, n: nat, m: nat, t: nat, ticks: nat, timers: nat)
    requires n < m < |events| && events[n] == Add(t, ticks) && events[m].Tick?
    requires LegalRun(events, timers)
    requires forall i :: n < i < m ==> events[i] != Del(t)
    requires Ticks(events[..m]) < Ticks(events[..n]) + ticks
    ensures t in Fires(After(events[..m])) <==> Ticks(events[..m + 1]) == Ticks(events[..n]) + ticks
  {
    StaysArmed(events, n, m, t, ticks, timers);
    NowIsTicks(events[..m]);
    AfterNext(events, m);
  }
}
