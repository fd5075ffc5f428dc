/** The pid allocator get_pid of proc.c, with its static cached interval. */
module Pids {
  import opened Basics

  const MAX_PROCESS: int := 4096
  const MAX_PID: int := 8192

  /** The pid tried after p, round to 1. */
  function Bump(p: int): int {
    if p + 1 >= MAX_PID then 1 else p + 1
  }

  /** How many steps of Bump lead from p to q. */
  function Distance(p: int, q: int): nat
    requires 1 <= p < MAX_PID && 1 <= q < MAX_PID
  {
    if p <= q then q - p else q + (MAX_PID - 1) - p
  }

  /** All pids from p up to q, going round, are in use. */
  ghost predicate UsedBetween(pids: seq<int>, p: int, q: int)
    requires 1 <= p < MAX_PID && 1 <= q < MAX_PID
  {
    forall x :: 1 <= x < MAX_PID && Distance(p, x) < Distance(p, q) ==> x in pids
  }

  /** pid is free, and all pids passed on the way from last to it, upwards and after the largest one
      on from 1, are in use. */
  ghost predicate NextFree(pids: seq<int>, last: int, pid: int) {
    && 1 <= pid < MAX_PID && pid !in pids
    && if last < pid then forall x :: last < x < pid ==> x in pids
       else forall x :: last < x < MAX_PID || 1 <= x < pid ==> x in pids
  }

  lemma UsedIsNext(pids: seq<int>, last: int, pid: int)
    requires 1 <= last <= MAX_PID && 1 <= pid < MAX_PID && pid !in pids && UsedBetween(pids, Bump(last), pid)
    ensures NextFree(pids, last, pid)
  {
  }

  /** No process has a pid strictly between low and high. */
  ghost predicate Clear(pids: seq<int>, low: int, high: int) {
    forall i :: 0 <= i < |pids| ==> !(low < pids[i] < high)
  }

  lemma {:induction false} SetOfSeq(s: seq<int>) returns (t: set<int>)
    ensures |t| <= |s| && forall x :: x in s ==> x in t
  {
    if s == [] {
      t := {};
    } else {
      t := SetOfSeq(s[1..]);
      t := t + {s[0]};
    }
  }

  /** There are fewer processes than pids, so one is free. */
  lemma FreePid(pids: seq<int>) returns (f: int)
    requires |pids| <= MAX_PROCESS
    ensures 1 <= f < MAX_PID && f !in pids
  {
    var used := SetOfSeq(pids);
    AllBelowSize(MAX_PID);
    if forall x :: x in AllBelow(MAX_PID) ==> x == 0 || x in pids {
      SubsetSize(AllBelow(MAX_PID), used + {0});
      assert false;
    }
    f :| f in AllBelow(MAX_PID) && f != 0 && f !in pids;
  }

  class PidAllocator {
    var lastPid: int
    var nextSafe: int

    /** The cached interval after lastPid holds no pid of a process in the list. */
    ghost predicate Valid(pids: seq<int>)
      reads this
    {
      1 <= lastPid <= MAX_PID && nextSafe <= MAX_PID && Clear(pids, lastPid, nextSafe)
    }

    constructor (ghost pids: seq<int>)
      ensures Valid(pids) && lastPid == MAX_PID
    {
      lastPid, nextSafe := MAX_PID, MAX_PID;
    }

    /** A process that leaves the list leaves the interval clear. */
    lemma ExitKeeps(pids: seq<int>, i: nat)
      requires Valid(pids) && i < |pids|
      ensures Valid(pids[..i] + pids[i + 1..])
    {
      var rest := pids[..i] + pids[i + 1..];
      assert forall k :: 0 <= k < |rest| ==> rest[k] == pids[if k < i then k else k + 1];
    }

    /** get_pid, over the pids of proc_list: the first pid that no process has, going round
        from the one after the last pid given out. Joining the list under this pid keeps
        the interval clear. */
    method GetPid(pids: seq<int>) returns (pid: int)
      requires Valid(pids) && |pids| <= MAX_PROCESS
      modifies this
      ensures pid == lastPid && NextFree(pids, old(lastPid), pid)
      ensures Valid(pids) && Valid([pid] + pids)
    {
      ghost var last, start := lastPid, Bump(lastPid);
      lastPid := lastPid + 1;
      if lastPid >= MAX_PID {
        lastPid := 1;
        Scan(pids, start);
      } else if lastPid >= nextSafe {
        Scan(pids, start);
      }
      pid := lastPid;
      UsedIsNext(pids, last, pid);
    }

    /** The labels inside and repeat. */
    method Scan(pids: seq<int>, ghost start: int)
      requires 1 <= lastPid < MAX_PID && start == lastPid && |pids| <= MAX_PROCESS
      modifies this
      ensures 1 <= lastPid < nextSafe <= MAX_PID && lastPid !in pids && Clear(pids, lastPid, nextSafe)
      ensures UsedBetween(pids, start, lastPid)
    {
      ghost var f := FreePid(pids);
      nextSafe := MAX_PID;
      var i := 0;
      while i < |pids|
        invariant 0 <= i <= |pids| && 1 <= lastPid < nextSafe <= MAX_PID
        invariant UsedBetween(pids, start, lastPid)
        invariant forall k :: 0 <= k < i ==> pids[k] != lastPid && !(lastPid < pids[k] < nextSafe)
        decreases Distance(lastPid, f), |pids| - i
      {
        var pid := pids[i];
        i := i + 1;
        if pid == lastPid {
          assert lastPid in pids;
          lastPid := lastPid + 1;
          if lastPid >= nextSafe {
            if lastPid >= MAX_PID {
              lastPid := 1;
            }
            nextSafe := MAX_PID;
            i := 0;
          }
        } else if pid > lastPid && nextSafe > pid {
          nextSafe := pid;
        }
      }
    }
  }
}
