/** The counting semaphore with a FIFO wait queue and direct hand-off, as plain
    values: what one atomic section of down or up does to it (sem.c). */
module Semaphores {

  import opened Basics

  datatype Sem<T> = Sem(value: int, queue: seq<T>)

  /** down grants at once exactly when the count is positive. */
  predicate Grants<T>(s: Sem<T>) {
    s.value > 0
  }

  /** down by thread t: take a unit, or join the end of the queue. */
  function DownSem<T>(s: Sem<T>, t: T): Sem<T> {
    if s.value > 0 then s.(value := s.value - 1) else s.(queue := s.queue + [t])
  }

  /** up wakes the head of the queue, if there is one. */
  function Woken<T>(s: Sem<T>): Option<T> {
    if |s.queue| == 0 then None else Some(s.queue[0])
  }

  /** up: hand the unit to the head of the queue, or add it to the count. */
  function UpSem<T>(s: Sem<T>): Sem<T> {
    if |s.queue| == 0 then s.(value := s.value + 1) else s.(queue := s.queue[1..])
  }

  /** The semaphore has no spare unit while somebody waits, and its queue lists
      the given threads, once each. */
  ghost predicate Lists(s: Sem<nat>, waiting: set<nat>) {
    && (s.value > 0 ==> s.queue == [])
    && (forall i, j :: 0 <= i < j < |s.queue| ==> s.queue[i] != s.queue[j])
    && (forall t :: t in s.queue <==> t in waiting)
  }

  lemma DownLists(s: Sem<nat>, waiting: set<nat>, t: nat)
    requires Lists(s, waiting) && t !in waiting
    ensures Lists(DownSem(s, t), if Grants(s) then waiting else waiting + {t})
  {
    if !Grants(s) {
      assert (s.queue + [t])[|s.queue|] == t;
    }
  }

  lemma UpLists(s: Sem<nat>, waiting: set<nat>)
    requires Lists(s, waiting)
    ensures Woken(s).Some? ==> Woken(s).value in waiting
    ensures Lists(UpSem(s), if Woken(s).Some? then waiting - {Woken(s).value} else waiting)
  {
    if s.queue != [] {
      assert s.queue == [s.queue[0]] + s.queue[1..];
    }
  }
}
