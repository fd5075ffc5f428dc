/** The process table of proc.c: parents and children linked by cptr, optr and yptr, the
    list of all processes, the hash index by pid, and what fork, exit and wait do to them.
    Processes are named by numbers; 0 is the null pointer. */
module Processes {
  import opened Basics
  import opened Pids

  datatype Process = Process(pid: int, zombie: bool, parent: nat, cptr: nat, yptr: nat, optr: nat)

  const BUCKETS: int := 1024

  /** pid_hashfn. */
  function Bucket(pid: int): int {
    ((pid * 0x9e370001) % 0x1_0000_0000) / 0x40_0000
  }

  // ---------- the links of one family ----------

  /** Child i, newest first, or null beyond either end. */
  function KidAt(ks: seq<nat>, i: int): nat {
    if 0 <= i < |ks| then ks[i] else 0
  }

  ghost predicate KidOk(procs: map<nat, Process>, ks: seq<nat>, p: nat, i: nat)
    requires i < |ks|
  {
    && ks[i] != 0 && ks[i] in procs && procs[ks[i]].parent == p
    && procs[ks[i]].optr == KidAt(ks, i + 1) && procs[ks[i]].yptr == KidAt(ks, i - 1)
  }

  /** The cptr/optr chain of p is ks, and yptr is the inverse of optr. */
  ghost predicate Family(procs: map<nat, Process>, ks: seq<nat>, p: nat) {
    && p in procs && procs[p].cptr == KidAt(ks, 0) && NoDuplicates(ks)
    && forall i {:trigger KidOk(procs, ks, p, i)} :: 0 <= i < |ks| ==> KidOk(procs, ks, p, i)
  }

  /** c is in its parent's family. */
  ghost predicate HasPlace(procs: map<nat, Process>, kids: map<nat, seq<nat>>, c: nat) {
    c in procs && procs[c].parent in kids && c in kids[procs[c].parent]
  }

  /** Every process but perhaps one has its family, and each is in its parent's. */
  ghost predicate TreeBut(procs: map<nat, Process>, kids: map<nat, seq<nat>>, but: nat) {
    && kids.Keys == procs.Keys && 0 !in procs
    && (forall p {:trigger Family(procs, kids[p], p)} :: p in procs && p != but ==> Family(procs, kids[p], p))
    && (forall c {:trigger HasPlace(procs, kids, c)} ::
         c in procs && procs[c].parent != 0 ==> procs[c].parent != c && HasPlace(procs, kids, c))
  }

  /** Every chain is that of a family, and a zombie has no children. That no process is its own
      ancestor is what Aged adds. */
  ghost predicate Tree(procs: map<nat, Process>, kids: map<nat, seq<nat>>) {
    TreeBut(procs, kids, 0) && forall p :: p in procs && procs[p].zombie ==> kids[p] == []
  }

  /** c has the same parent and siblings. */
  ghost predicate SameLinks(procs: map<nat, Process>, procs': map<nat, Process>, c: nat) {
    && c in procs && c in procs'
    && procs'[c].parent == procs[c].parent && procs'[c].optr == procs[c].optr && procs'[c].yptr == procs[c].yptr
  }

  /** A process that changes none of the links of a family, or of its members, leaves it. */
  lemma FamilyStays(procs: map<nat, Process>, procs': map<nat, Process>, ks: seq<nat>, p: nat)
    requires Family(procs, ks, p) && p in procs' && procs'[p].cptr == procs[p].cptr
    requires forall i :: 0 <= i < |ks| ==> SameLinks(procs, procs', ks[i])
    ensures Family(procs', ks, p)
  {
    forall i | 0 <= i < |ks|
      ensures KidOk(procs', ks, p, i)
    {
      assert KidOk(procs, ks, p, i);
    }
  }

  /** The writes of set_links, and of one round of the loop in do_exit: c becomes the newest child of p. */
  function Push(procs: map<nat, Process>, p: nat, c: nat): map<nat, Process>
    requires p in procs && c in procs
  {
    var first := procs[p].cptr;
    var one := procs[c := procs[c].(yptr := 0, optr := first, parent := p)];
    var two := if first in one then one[first := one[first].(yptr := c)] else one;
    two[p := two[p].(cptr := c)]
  }

  lemma PushFamily(procs: map<nat, Process>, ks: seq<nat>, p: nat, c: nat)
    requires Family(procs, ks, p) && c in procs && c !in ks && c != p && c != 0 && 0 !in procs && p !in ks
    ensures Family(Push(procs, p, c), [c] + ks, p)
  {
    var after, more := Push(procs, p, c), [c] + ks;
    forall i | 0 <= i < |more|
      ensures KidOk(after, more, p, i)
    {
      assert |ks| > 0 ==> KidOk(procs, ks, p, 0);
      if i > 0 {
        assert more[i] == ks[i - 1] && KidOk(procs, ks, p, i - 1);
      }
    }
  }

  /** The writes of remove_links. */
  function Unlink(procs: map<nat, Process>, c: nat): map<nat, Process>
    requires c in procs
  {
    var r := procs[c];
    var one := if r.optr in procs then procs[r.optr := procs[r.optr].(yptr := r.yptr)] else procs;
    if r.yptr != 0 then
      if r.yptr in one then one[r.yptr := one[r.yptr].(optr := r.optr)] else one
    else if r.parent in one then one[r.parent := one[r.parent].(cptr := r.optr)] else one
  }

  lemma UnlinkFamily(procs: map<nat, Process>, ks: seq<nat>, p: nat, k: nat)
    requires Family(procs, ks, p) && k < |ks| && 0 !in procs && p !in ks
    ensures ks[k] in procs && Family(Unlink(procs, ks[k]), ks[..k] + ks[k + 1..], p)
  {
    var c := ks[k];
    assert KidOk(procs, ks, p, k);
    var after, less := Unlink(procs, c), ks[..k] + ks[k + 1..];
    assert k > 0 ==> KidOk(procs, ks, p, k - 1);
    assert k + 1 < |ks| ==> KidOk(procs, ks, p, k + 1);
    forall i | 0 <= i < |less|
      ensures KidOk(after, less, p, i)
    {
      var j := if i < k then i else i + 1;
      assert less[i] == ks[j] && KidOk(procs, ks, p, j);
    }
  }

  // ---------- fork ----------

  lemma ForkTree(procs: map<nat, Process>, kids: map<nat, seq<nat>>, p: nat, c: nat, r: Process)
    requires Tree(procs, kids) && p in procs && !procs[p].zombie && c !in procs && c != 0 && !r.zombie && r.cptr == 0
    ensures Tree(Push(procs[c := r], p, c), kids[c := []][p := [c] + kids[p]])
  {
    var born, after := procs[c := r], Push(procs[c := r], p, c);
    var kids' := kids[c := []][p := [c] + kids[p]];
    Outsiders(procs, kids, p);
    Members(procs, kids[p], p);
    FamilyStays(procs, born, kids[p], p);
    PushFamily(born, kids[p], p, c);
    assert kids[p] != [] ==> KidOk(procs, kids[p], p, 0);
    forall q | q in after
      ensures Family(after, kids'[q], q)
    {
      if q == c {
        assert after[c].cptr == 0;
      } else if q != p {
        FamilyKept(procs, after, kids[q], q, p, 0);
      }
    }
    forall x | x in after && after[x].parent != 0
      ensures after[x].parent != x && HasPlace(after, kids', x)
    {
      if x == c {
        assert kids'[p][0] == c;
      } else {
        assert HasPlace(procs, kids, x) && after[x].parent == procs[x].parent;
        if procs[x].parent == p {
          PushedStays(kids[p], c, x);
        }
      }
    }
  }

  lemma PushedStays(ks: seq<nat>, c: nat, x: nat)
    requires x in ks
    ensures x in [c] + ks
  {
    var i :| 0 <= i < |ks| && ks[i] == x;
    assert ([c] + ks)[i + 1] == x;
  }

  lemma Members(procs: map<nat, Process>, ks: seq<nat>, p: nat)
    requires Family(procs, ks, p)
    ensures forall x :: x in ks ==> x in procs && procs[x].parent == p && x != 0
  {
    forall i | 0 <= i < |ks|
      ensures ks[i] in procs && procs[ks[i]].parent == p && ks[i] != 0
    {
      assert KidOk(procs, ks, p, i);
    }
  }

  lemma KidNotNull(procs: map<nat, Process>, ks: seq<nat>, p: nat, k: nat)
    requires Family(procs, ks, p)
    ensures KidAt(ks, k) == 0 ==> k >= |ks|
  {
    Members(procs, ks, p);
    assert k < |ks| ==> KidAt(ks, k) in ks;
  }

  lemma NobodysParent(procs: map<nat, Process>, kids: map<nat, seq<nat>>, c: nat)
    requires Tree(procs, kids) && c in procs && procs[c].zombie
    ensures forall x :: x in procs ==> procs[x].parent != c
  {
    forall x | x in procs
      ensures procs[x].parent != c
    {
      assert procs[x].parent != 0 ==> HasPlace(procs, kids, x);
    }
  }

  /** No process is in its own family. */
  lemma Outsiders(procs: map<nat, Process>, kids: map<nat, seq<nat>>, p: nat)
    requires TreeBut(procs, kids, 0) && p in procs
    ensures p !in kids[p]
  {
    Members(procs, kids[p], p);
    assert procs[p].parent != 0 ==> HasPlace(procs, kids, p) && procs[p].parent != p;
  }

  /** A family is kept when links of only its non-members change, given by parents. */
  lemma FamilyKept(procs: map<nat, Process>, procs': map<nat, Process>, ks: seq<nat>, q: nat, a: nat, b: nat)
    requires Family(procs, ks, q) && q != a && q != b && q in procs' && procs'[q].cptr == procs[q].cptr
    requires forall x :: x in procs && procs[x].parent != a && procs[x].parent != b ==> SameLinks(procs, procs', x)
    ensures Family(procs', ks, q)
  {
    forall i | 0 <= i < |ks|
      ensures SameLinks(procs, procs', ks[i])
    {
      assert KidOk(procs, ks, q, i);
    }
    FamilyStays(procs, procs', ks, q);
  }

  // ---------- wait ----------

  lemma ReapTree(procs: map<nat, Process>, kids: map<nat, seq<nat>>, p: nat, k: nat)
    requires Tree(procs, kids) && p in procs && k < |kids[p]|
    requires kids[p][k] in procs && procs[kids[p][k]].zombie
    ensures
      var c := kids[p][k];
      Tree(Unlink(procs, c) - {c}, kids[p := kids[p][..k] + kids[p][k + 1..]] - {c})
  {
    var c, less := kids[p][k], kids[p][..k] + kids[p][k + 1..];
    var after, kids' := Unlink(procs, c) - {c}, kids[p := less] - {c};
    UnlinkSame(procs, kids[p], p, k);
    Outsiders(procs, kids, p);
    Shorter(kids[p], k);
    ReapOwn(procs, kids, p, k);
    forall q | q in after && q != p
      ensures Family(after, kids'[q], q)
    {
      ReapOther(procs, kids, p, k, q);
    }
    forall x | x in after && after[x].parent != 0
      ensures after[x].parent != x && HasPlace(after, kids', x)
    {
      ReapPlace(procs, kids, p, k, x);
    }
  }

  lemma ReapOwn(procs: map<nat, Process>, kids: map<nat, seq<nat>>, p: nat, k: nat)
    requires Tree(procs, kids) && p in procs && k < |kids[p]|
    ensures kids[p][k] in procs && Family(Unlink(procs, kids[p][k]) - {kids[p][k]}, kids[p][..k] + kids[p][k + 1..], p)
  {
    var c, less := kids[p][k], kids[p][..k] + kids[p][k + 1..];
    UnlinkSame(procs, kids[p], p, k);
    Outsiders(procs, kids, p);
    Shorter(kids[p], k);
    UnlinkFamily(procs, kids[p], p, k);
    Members(Unlink(procs, c), less, p);
    assert forall i :: 0 <= i < |less| ==> less[i] in less;
    FamilyStays(Unlink(procs, c), Unlink(procs, c) - {c}, less, p);
  }

  lemma ReapOther(procs: map<nat, Process>, kids: map<nat, seq<nat>>, p: nat, k: nat, q: nat)
    requires Tree(procs, kids) && p in procs && k < |kids[p]| && q in procs && q != p && q != kids[p][k]
    ensures kids[p][k] in procs && Family(Unlink(procs, kids[p][k]) - {kids[p][k]}, kids[q], q)
  {
    var c := kids[p][k];
    assert Family(procs, kids[p], p);
    assert KidOk(procs, kids[p], p, k);
    assert k > 0 ==> KidOk(procs, kids[p], p, k - 1);
    assert k + 1 < |kids[p]| ==> KidOk(procs, kids[p], p, k + 1);
    FamilyKept(procs, Unlink(procs, c) - {c}, kids[q], q, p, p);
  }

  lemma ReapPlace(procs: map<nat, Process>, kids: map<nat, seq<nat>>, p: nat, k: nat, x: nat)
    requires Tree(procs, kids) && p in procs && k < |kids[p]| && x in procs && x != kids[p][k] && procs[x].parent != 0
    requires kids[p][k] in procs && procs[kids[p][k]].zombie
    ensures
      var c := kids[p][k];
      var after := Unlink(procs, c) - {c};
      x in after && after[x].parent == procs[x].parent != x
        && HasPlace(after, kids[p := kids[p][..k] + kids[p][k + 1..]] - {c}, x)
  {
    assert HasPlace(procs, kids, x);
    assert Family(procs, kids[p], p);
    Shorter(kids[p], k);
    UnlinkSame(procs, kids[p], p, k);
  }

  lemma Shorter(ks: seq<nat>, k: nat)
    requires NoDuplicates(ks) && k < |ks|
    ensures
      var less := ks[..k] + ks[k + 1..];
      ks[k] !in less && forall x :: x in ks && x != ks[k] ==> x in less
  {
    var less := ks[..k] + ks[k + 1..];
    forall x | x in ks && x != ks[k]
      ensures x in less
    {
      var i :| 0 <= i < |ks| && ks[i] == x;
      assert less[if i < k then i else i - 1] == x;
    }
  }

  // ---------- exit ----------

  /** What is left of the chain of the process that exits; the yptr of its first entry is stale. */
  ghost predicate Rest(procs: map<nat, Process>, ks: seq<nat>, p: nat) {
    && p in procs && procs[p].cptr == KidAt(ks, 0) && NoDuplicates(ks)
    && forall i {:trigger RestOk(procs, ks, p, i)} :: 0 <= i < |ks| ==> RestOk(procs, ks, p, i)
  }

  ghost predicate RestOk(procs: map<nat, Process>, ks: seq<nat>, p: nat, i: nat)
    requires i < |ks|
  {
    ks[i] != 0 && ks[i] in procs && procs[ks[i]].parent == p && procs[ks[i]].optr == KidAt(ks, i + 1)
  }

  lemma FamilyIsRest(procs: map<nat, Process>, ks: seq<nat>, p: nat)
    requires Family(procs, ks, p)
    ensures Rest(procs, ks, p)
  {
    forall i | 0 <= i < |ks|
      ensures RestOk(procs, ks, p, i)
    {
      assert KidOk(procs, ks, p, i);
    }
  }

  /** The loop in do_exit is between two children. */
  ghost predicate Leaving(procs: map<nat, Process>, kids: map<nat, seq<nat>>, cur: nat, init: nat) {
    && TreeBut(procs, kids, cur) && cur in procs && Rest(procs, kids[cur], cur)
    && init in procs && init != cur && init !in kids[init] && procs[init].parent != cur
    && (forall p :: p in procs && p != cur && procs[p].zombie ==> kids[p] == [])
  }

  /** One round of the loop: the newest child of cur becomes the newest child of init. */
  function Adopt(procs: map<nat, Process>, cur: nat, init: nat): map<nat, Process>
    requires cur in procs && init in procs && procs[cur].cptr in procs && init != cur
  {
    var c := procs[cur].cptr;
    Push(procs[cur := procs[cur].(cptr := procs[c].optr)], init, c)
  }

  function AdoptKids(kids: map<nat, seq<nat>>, cur: nat, init: nat): map<nat, seq<nat>>
    requires cur in kids && init in kids && kids[cur] != []
  {
    kids[cur := kids[cur][1..]][init := [kids[cur][0]] + kids[init]]
  }

  lemma AdoptOk(procs: map<nat, Process>, kids: map<nat, seq<nat>>, cur: nat, init: nat)
    requires Leaving(procs, kids, cur, init) && kids[cur] != [] && !procs[init].zombie
    ensures kids[cur][0] == procs[cur].cptr && procs[cur].cptr in procs
    ensures Leaving(Adopt(procs, cur, init), AdoptKids(kids, cur, init), cur, init)
  {
    assert RestOk(procs, kids[cur], cur, 0);
    Members(procs, kids[init], init);
    AdoptRest(procs, kids, cur, init);
    AdoptInit(procs, kids, cur, init);
    var after, kids' := Adopt(procs, cur, init), AdoptKids(kids, cur, init);
    forall q | q in after && q != cur
      ensures Family(after, kids'[q], q)
    {
      if q != init {
        AdoptOther(procs, kids, cur, init, q);
      }
    }
    forall x | x in after && after[x].parent != 0
      ensures after[x].parent != x && HasPlace(after, kids', x)
    {
      AdoptPlace(procs, kids, cur, init, x);
    }
  }

  lemma AdoptInit(procs: map<nat, Process>, kids: map<nat, seq<nat>>, cur: nat, init: nat)
    requires Leaving(procs, kids, cur, init) && kids[cur] != []
    ensures procs[cur].cptr in procs && Family(Adopt(procs, cur, init), [kids[cur][0]] + kids[init], init)
  {
    var ks, theirs := kids[cur], kids[init];
    var c := ks[0];
    assert RestOk(procs, ks, cur, 0);
    var popped := procs[cur := procs[cur].(cptr := procs[c].optr)];
    Members(procs, theirs, init);
    forall i | 0 <= i < |theirs|
      ensures SameLinks(procs, popped, theirs[i])
    {
      assert KidOk(procs, theirs, init, i);
    }
    FamilyStays(procs, popped, theirs, init);
    PushFamily(popped, theirs, init, c);
  }

  lemma AdoptOther(procs: map<nat, Process>, kids: map<nat, seq<nat>>, cur: nat, init: nat, q: nat)
    requires Leaving(procs, kids, cur, init) && kids[cur] != [] && q in procs && q != cur && q != init
    ensures procs[cur].cptr in procs && Family(Adopt(procs, cur, init), kids[q], q)
  {
    assert RestOk(procs, kids[cur], cur, 0);
    assert Family(procs, kids[init], init);
    assert kids[init] != [] ==> KidOk(procs, kids[init], init, 0);
    FamilyKept(procs, Adopt(procs, cur, init), kids[q], q, cur, init);
  }

  lemma AdoptPlace(procs: map<nat, Process>, kids: map<nat, seq<nat>>, cur: nat, init: nat, x: nat)
    requires Leaving(procs, kids, cur, init) && kids[cur] != [] && x in procs
    ensures
      && procs[cur].cptr in procs
      && var after := Adopt(procs, cur, init);
         x in after && (after[x].parent != 0 ==> after[x].parent != x && HasPlace(after, AdoptKids(kids, cur, init), x))
  {
    var ks, c := kids[cur], kids[cur][0];
    assert RestOk(procs, ks, cur, 0);
    assert Family(procs, kids[init], init);
    assert kids[init] != [] ==> KidOk(procs, kids[init], init, 0);
    if procs[x].parent != 0 {
      assert HasPlace(procs, kids, x);
      if x == c {
        assert ([c] + kids[init])[0] == c;
      } else if procs[x].parent == init {
        PushedStays(kids[init], c, x);
      } else if procs[x].parent == cur {
        Shorter(ks, 0);
        assert ks[..0] + ks[1..] == ks[1..];
      }
    }
  }

  lemma AdoptRest(procs: map<nat, Process>, kids: map<nat, seq<nat>>, cur: nat, init: nat)
    requires Leaving(procs, kids, cur, init) && kids[cur] != []
    ensures procs[cur].cptr in procs && Rest(Adopt(procs, cur, init), kids[cur][1..], cur)
  {
    var ks := kids[cur];
    assert RestOk(procs, ks, cur, 0);
    var after := Adopt(procs, cur, init);
    assert Family(procs, kids[init], init);
    assert kids[init] != [] ==> KidOk(procs, kids[init], init, 0);
    forall i | 0 <= i < |ks[1..]|
      ensures RestOk(after, ks[1..], cur, i)
    {
      assert RestOk(procs, ks, cur, i + 1);
    }
  }

  // ---------- the index ----------

  function PidsOf(procs: map<nat, Process>, list: seq<nat>): (pids: seq<int>)
    requires forall i :: 0 <= i < |list| ==> list[i] in procs
    ensures |pids| == |list| && forall i :: 0 <= i < |list| ==> pids[i] == procs[list[i]].pid
  {
    seq(|list|, i requires 0 <= i < |list| => procs[list[i]].pid)
  }

  /** c is in the bucket of its pid. */
  ghost predicate Hashed(procs: map<nat, Process>, hash: seq<seq<nat>>, c: nat) {
    c in procs && 1 <= procs[c].pid < MAX_PID && 0 <= Bucket(procs[c].pid) < |hash| && c in hash[Bucket(procs[c].pid)]
  }

  /** proc_list holds every process but idle, once each, under different pids, and so do
      the buckets of hash_list. */
  ghost predicate Indexed(procs: map<nat, Process>, list: seq<nat>, hash: seq<seq<nat>>, idle: nat) {
    && |hash| == BUCKETS && NoDuplicates(list)
    && (forall c :: c in list <==> c in procs && c != idle)
    && (forall c {:trigger Hashed(procs, hash, c)} :: c in list ==> Hashed(procs, hash, c))
    && (forall b {:trigger BucketOk(procs, list, hash[b], b)} :: 0 <= b < BUCKETS ==> BucketOk(procs, list, hash[b], b))
    && (forall c, d :: c in list && d in list && c != d ==> procs[c].pid != procs[d].pid)
  }

  ghost predicate BucketOk(procs: map<nat, Process>, list: seq<nat>, bucket: seq<nat>, b: int) {
    && NoDuplicates(bucket)
    && forall i :: 0 <= i < |bucket| ==> bucket[i] in list && bucket[i] in procs && Bucket(procs[bucket[i]].pid) == b
  }

  lemma BucketRange(pid: int)
    ensures 0 <= Bucket(pid) < BUCKETS
  {
  }

  /** All but the links stay: the index does too. */
  lemma IndexedStays(procs: map<nat, Process>, procs': map<nat, Process>, list: seq<nat>, hash: seq<seq<nat>>,
                     idle: nat)
    requires Indexed(procs, list, hash, idle) && procs'.Keys == procs.Keys
    requires forall c :: c in procs ==> procs'[c].pid == procs[c].pid
    ensures Indexed(procs', list, hash, idle)
  {
    forall b | 0 <= b < BUCKETS
      ensures BucketOk(procs', list, hash[b], b)
    {
      assert BucketOk(procs, list, hash[b], b);
    }
    forall c | c in list
      ensures Hashed(procs', hash, c)
    {
      assert Hashed(procs, hash, c);
    }
  }

  lemma IndexAdd(procs: map<nat, Process>, list: seq<nat>, hash: seq<seq<nat>>, idle: nat, c: nat, r: Process)
    requires Indexed(procs, list, hash, idle) && c !in procs && c != idle && 1 <= r.pid < MAX_PID
    requires forall x :: x in list ==> procs[x].pid != r.pid
    ensures
      && 0 <= Bucket(r.pid) < |hash|
      && Indexed(procs[c := r], [c] + list, hash[Bucket(r.pid) := [c] + hash[Bucket(r.pid)]], idle)
  {
    BucketRange(r.pid);
    var procs', list', k := procs[c := r], [c] + list, Bucket(r.pid);
    var hash' := hash[k := [c] + hash[k]];
    assert forall x :: x in list' <==> x == c || x in list;
    forall b | 0 <= b < BUCKETS
      ensures BucketOk(procs', list', hash'[b], b)
    {
      assert BucketOk(procs, list, hash[b], b);
      assert b == k ==> forall i :: 0 < i < |hash'[b]| ==> hash'[b][i] == hash[b][i - 1];
    }
    forall x | x in list'
      ensures Hashed(procs', hash', x)
    {
      if x == c {
        assert hash'[k][0] == c;
      } else {
        assert Hashed(procs, hash, x);
        if Bucket(procs[x].pid) == k {
          PushedStays(hash[k], c, x);
        }
      }
    }
  }

  lemma BucketWithout(procs: map<nat, Process>, list: seq<nat>, bucket: seq<nat>,
                      procs': map<nat, Process>, list': seq<nat>, bucket': seq<nat>, b: int, c: nat)
    requires BucketOk(procs, list, bucket, b) && NoDuplicates(bucket') && procs' == procs - {c}
    requires forall i :: 0 <= i < |bucket'| ==> bucket'[i] in bucket && bucket'[i] != c
    requires forall x :: x in list && x != c ==> x in list'
    ensures BucketOk(procs', list', bucket', b)
  {
  }

  lemma IndexRemove(procs: map<nat, Process>, list: seq<nat>, hash: seq<seq<nat>>, idle: nat, c: nat, i: nat, j: nat)
    requires Indexed(procs, list, hash, idle) && i < |list| && list[i] == c && c in procs
    requires 0 <= Bucket(procs[c].pid) < |hash| && j < |hash[Bucket(procs[c].pid)]|
      && hash[Bucket(procs[c].pid)][j] == c
    ensures
      var k := Bucket(procs[c].pid);
      Indexed(procs - {c}, list[..i] + list[i + 1..], hash[k := hash[k][..j] + hash[k][j + 1..]], idle)
  {
    var k := Bucket(procs[c].pid);
    var procs', list', hash' := procs - {c}, list[..i] + list[i + 1..], hash[k := hash[k][..j] + hash[k][j + 1..]];
    Shorter(list, i);
    assert BucketOk(procs, list, hash[k], k);
    Shorter(hash[k], j);
    forall b | 0 <= b < BUCKETS
      ensures BucketOk(procs', list', hash'[b], b)
    {
      assert BucketOk(procs, list, hash[b], b);
      if b == k {
        assert forall m :: 0 <= m < |hash'[k]| ==> hash'[k][m] == hash[k][if m < j then m else m + 1];
      }
      BucketWithout(procs, list, hash[b], procs', list', hash'[b], b, c);
    }
    forall x | x in list'
      ensures x in list && Hashed(procs', hash', x)
    {
      assert x != c && Hashed(procs, hash, x);
    }
  }

  // ---------- parents are older ----------

  /** The parent of item i of proc_list is idle or stands further back. */
  ghost predicate OldParent(procs: map<nat, Process>, list: seq<nat>, idle: nat, i: nat)
    requires i < |list|
  {
    list[i] in procs && (procs[list[i]].parent == idle || procs[list[i]].parent in list[i + 1..])
  }

  /** proc_list ends with init, and parents come after their children. */
  ghost predicate Aged(procs: map<nat, Process>, list: seq<nat>, idle: nat, init: nat) {
    && list != [] && list[|list| - 1] == init
    && forall i {:trigger OldParent(procs, list, idle, i)} :: 0 <= i < |list| ==> OldParent(procs, list, idle, i)
  }

  lemma AgedFork(procs: map<nat, Process>, list: seq<nat>, idle: nat, init: nat, procs': map<nat, Process>, c: nat)
    requires Aged(procs, list, idle, init) && Undisturbed(procs, procs')
    requires c in procs' && (procs'[c].parent == idle || procs'[c].parent in list)
    ensures Aged(procs', [c] + list, idle, init)
  {
    var more := [c] + list;
    forall i | 0 <= i < |more|
      ensures OldParent(procs', more, idle, i)
    {
      assert more[i + 1..] == list[i..];
      if i > 0 {
        assert more[i] == list[i - 1] && OldParent(procs, list, idle, i - 1);
      }
    }
  }

  /** Children that go to init go to the last of the list. */
  lemma AgedExit(procs: map<nat, Process>, list: seq<nat>, idle: nat, init: nat, procs': map<nat, Process>, cur: nat)
    requires Aged(procs, list, idle, init) && SameExits(procs, procs', cur, init)
    requires init in procs && procs[init].parent == idle != cur && init != idle && NoDuplicates(list)
    ensures Aged(procs', list, idle, init)
  {
    forall i | 0 <= i < |list|
      ensures OldParent(procs', list, idle, i)
    {
      assert OldParent(procs, list, idle, i);
      if i < |list| - 1 {
        assert list[i + 1..][|list| - 2 - i] == init;
      }
    }
  }

  /** A process that leaves the list was nobody's parent. */
  lemma AgedReap(procs: map<nat, Process>, list: seq<nat>, idle: nat, init: nat, procs': map<nat, Process>, j: nat)
    requires Aged(procs, list, idle, init) && NoDuplicates(list) && j < |list| && list[j] != init
    requires forall x :: x in procs && x != list[j] ==> x in procs' && procs'[x].parent == procs[x].parent != list[j]
    ensures Aged(procs', list[..j] + list[j + 1..], idle, init)
  {
    var less := list[..j] + list[j + 1..];
    assert less[|less| - 1] == init;
    forall i | 0 <= i < |less|
      ensures OldParent(procs', less, idle, i)
    {
      var k := if i < j then i else i + 1;
      assert less[i] == list[k] && OldParent(procs, list, idle, k);
      var p := procs[list[k]].parent;
      if p != idle {
        var m :| 0 <= m < |list[k + 1..]| && list[k + 1..][m] == p;
        assert list[k + 1 + m] == p;
        assert less[if k + 1 + m < j then k + 1 + m else k + m] == p;
        assert less[i + 1..][(if k + 1 + m < j then k + 1 + m else k + m) - i - 1] == p;
      }
    }
  }

  /** The n-th ancestor. */
  ghost function Ancestor(procs: map<nat, Process>, c: nat, n: nat): nat
    decreases n
  {
    if n == 0 || c !in procs then c else Ancestor(procs, procs[c].parent, n - 1)
  }

  /** The parents of every process lead to idle: the links make a tree. */
  lemma {:induction false} RootedAt(procs: map<nat, Process>, list: seq<nat>, idle: nat, init: nat, i: nat)
    returns (n: nat)
    requires Aged(procs, list, idle, init) && i < |list|
    ensures 0 < n <= |list| - i && Ancestor(procs, list[i], n) == idle
    decreases |list| - i
  {
    assert OldParent(procs, list, idle, i);
    var p := procs[list[i]].parent;
    if p == idle {
      n := 1;
      assert Ancestor(procs, p, 0) == idle;
    } else {
      var m :| 0 <= m < |list[i + 1..]| && list[i + 1..][m] == p;
      var rest := RootedAt(procs, list, idle, init, i + 1 + m);
      n := rest + 1;
    }
  }

  /** What init finds when it has no children left: it is alone with idle. */
  lemma AloneAtTheEnd(procs: map<nat, Process>, kids: map<nat, seq<nat>>, list: seq<nat>, idle: nat, init: nat)
    requires Aged(procs, list, idle, init) && TreeBut(procs, kids, 0) && NoDuplicates(list)
    requires idle in procs && init in procs && idle != 0 && init != 0 && kids[init] == [] && kids[idle] == [init]
    ensures list == [init]
  {
    if |list| > 1 {
      SecondLast(procs, kids, list, idle, init);
    }
  }

  /** The oldest process but init is a child of init or idle. */
  lemma SecondLast(procs: map<nat, Process>, kids: map<nat, seq<nat>>, list: seq<nat>, idle: nat, init: nat)
    requires Aged(procs, list, idle, init) && TreeBut(procs, kids, 0) && NoDuplicates(list) && |list| > 1
    requires idle in procs && init in procs && idle != 0 && init != 0
    ensures list[|list| - 2] != init && (list[|list| - 2] in kids[init] || list[|list| - 2] in kids[idle])
  {
    var i := |list| - 2;
    assert OldParent(procs, list, idle, i) && list[i + 1..] == [init];
    assert HasPlace(procs, kids, list[i]);
  }

  // ---------- the table ----------

  /** idle and init are there, and every process but idle has a parent. */
  ghost predicate Roots(procs: map<nat, Process>, idle: nat, init: nat) {
    && idle in procs && procs[idle].parent == 0 && init in procs && procs[init].parent == idle && !procs[init].zombie
    && forall c :: c in procs && c != idle ==> procs[c].parent != 0
  }

  lemma RootsStay(procs0: map<nat, Process>, procs: map<nat, Process>, idle: nat, init: nat)
    requires Roots(procs0, idle, init) && procs.Keys <= procs0.Keys && idle in procs && init in procs
    requires forall x :: x in procs ==> procs[x].parent == procs0[x].parent && procs[x].zombie == procs0[x].zombie
    ensures Roots(procs, idle, init)
  {
  }

  lemma FirstTwo(idle: nat, init: nat, procs: map<nat, Process>, kids: map<nat, seq<nat>>)
    requires idle != 0 && init != 0 && idle != init
    requires procs == map[idle := Process(0, false, 0, init, 0, 0), init := Process(1, false, idle, 0, 0, 0)]
    requires kids == map[idle := [init], init := []]
    ensures Tree(procs, kids) && Roots(procs, idle, init) && Aged(procs, [init], idle, init)
  {
    assert KidOk(procs, kids[idle], idle, 0);
    assert kids[idle][0] == init;
    assert OldParent(procs, [init], idle, 0);
  }

  lemma FirstIndex(idle: nat, init: nat, procs: map<nat, Process>, hash: seq<seq<nat>>)
    requires idle != init
    requires procs == map[idle := Process(0, false, 0, init, 0, 0), init := Process(1, false, idle, 0, 0, 0)]
    requires |hash| == BUCKETS && forall b :: 0 <= b < BUCKETS ==> hash[b] == if b == Bucket(1) then [init] else []
    ensures Indexed(procs, [init], hash, idle)
  {
    BucketRange(1);
    assert [init][0] == init;
    assert hash[Bucket(1)][0] == init && Hashed(procs, hash, init);
  }

  datatype Forked = Child(proc: nat) | NoFreeProc | NoMem
  datatype Waited = Reaped(proc: nat, code: int) | Sleeps | NoChild | BadPointer

  class ProcessTable {
    const idle: nat
    const init: nat
    const pids: PidAllocator
    var procs: map<nat, Process>
    var procList: seq<nat>        // proc_list, newest first
    var hash: seq<seq<nat>>       // hash_list
    var nrProcess: int
    var exitCode: map<nat, int>   // exit_code, by process
    var waitFor: map<nat, int>    // who sleeps with wait_state WT_CHILD, and the pid it waits for
    ghost var kids: map<nat, seq<nat>>

    ghost predicate TableOk()
      reads this, pids
    {
      && Tree(procs, kids) && Indexed(procs, procList, hash, idle)
      && nrProcess == |procList| + 1
      && Roots(procs, idle, init)
      && Aged(procs, procList, idle, init)
      && (forall i :: 0 <= i < |procList| ==> procList[i] in procs)
      && pids.Valid(PidsOf(procs, procList))
    }

    /** Who waits has something to wait for, and every zombie has an exit code. */
    ghost predicate Valid()
      reads this, pids
    {
      TableOk() && WaitsOk(procs, kids, waitFor) && forall p :: p in procs && procs[p].zombie ==> p in exitCode
    }

    /** proc_init: idle, and init with pid 1. */
    constructor (idle: nat, init: nat)
      requires idle != 0 && init != 0 && idle != init
      ensures Valid() && procs.Keys == {idle, init} && this.idle == idle && this.init == init && fresh(pids)
      ensures procs[init].pid == pids.lastPid == 1
    {
      this.idle, this.init := idle, init;
      pids := new PidAllocator([]);
      procs := map[idle := Process(0, false, 0, init, 0, 0), init := Process(1, false, idle, 0, 0, 0)];
      procList, nrProcess, kids := [init], 2, map[idle := [init], init := []];
      exitCode, waitFor := map[], map[];
      hash := seq(BUCKETS, b => if b == Bucket(1) then [init] else []);
      new;
      var first := pids.GetPid([]);
      assert first > 1 ==> 1 in PidsOf(procs, []);
      FirstTwo(idle, init, procs, kids);
      FirstIndex(idle, init, procs, hash);
      assert PidsOf(procs, procList) == [1] == [1] + [];
    }

    /** find_proc. */
    method FindProc(pid: int) returns (c: nat)
      requires Indexed(procs, procList, hash, idle) && 0 !in procs
      ensures c != 0 ==> c in procList && c in procs && procs[c].pid == pid
      ensures c == 0 ==> forall x :: x in procList ==> procs[x].pid != pid
    {
      if 0 < pid < MAX_PID {
        BucketRange(pid);
        var bucket, i := hash[Bucket(pid)], 0;
        assert BucketOk(procs, procList, bucket, Bucket(pid));
        while i < |bucket|
          invariant 0 <= i <= |bucket| && forall j :: 0 <= j < i ==> procs[bucket[j]].pid != pid
        {
          if procs[bucket[i]].pid == pid {
            return bucket[i];
          }
          i := i + 1;
        }
      }
      c := 0;
      forall x | x in procList
        ensures procs[x].pid != pid
      {
        assert Hashed(procs, hash, x);
      }
    }

    /** do_fork by cur of process c; memory says whether kmalloc and the copies succeed. */
    method DoFork(cur: nat, c: nat, memory: bool) returns (r: Forked)
      requires Valid() && cur in procs && !procs[cur].zombie && c != 0 && c !in procs
      modifies this, pids
      ensures Valid() && exitCode == old(exitCode) && waitFor == old(waitFor)
      ensures r == NoFreeProc <==> old(nrProcess) >= MAX_PROCESS
      ensures r == Child(c) <==> old(nrProcess) < MAX_PROCESS && memory
      ensures !r.Child? ==> procs == old(procs) && procList == old(procList) && kids == old(kids)
      ensures !r.Child? ==> pids.lastPid == old(pids.lastPid)
      ensures r.Child? ==>
        && c in procs && procs[c].pid == pids.lastPid
        && NextFree(old(PidsOf(procs, procList)), old(pids.lastPid), procs[c].pid)
      ensures r.Child? ==>
        && r.proc == c && procList == [c] + old(procList) && kids == old(kids)[c := []][cur := [c] + old(kids)[cur]]
        && procs.Keys == old(procs).Keys + {c} && procs[c].parent == cur && !procs[c].zombie
        && (forall x :: x in old(procList) ==> old(procs)[x].pid != procs[c].pid)
        && Undisturbed(old(procs), procs)
    {
      if nrProcess >= MAX_PROCESS {
        return NoFreeProc;
      }
      if !memory {
        return NoMem;
      }
      ghost var procs0, kids0 := procs, kids;
      Register(cur, c);
      ForkWaits(procs0, kids0, waitFor, procs, kids, cur, c);
      r := Child(c);
    }

    /** The end of do_fork: process c gets its pid and its place. */
    method Register(cur: nat, c: nat)
      requires TableOk() && cur in procs && !procs[cur].zombie && c != 0 && c !in procs && nrProcess < MAX_PROCESS
      modifies `procs, `procList, `hash, `nrProcess, `kids, pids
      ensures TableOk() && nrProcess == old(nrProcess) + 1
      ensures procList == [c] + old(procList) && kids == old(kids)[c := []][cur := [c] + old(kids)[cur]]
      ensures procs.Keys == old(procs).Keys + {c} && procs[c].parent == cur && !procs[c].zombie
      ensures procs[c].pid == pids.lastPid
      ensures NextFree(old(PidsOf(procs, procList)), old(pids.lastPid), procs[c].pid)
      ensures forall x :: x in old(procList) ==> old(procs)[x].pid != procs[c].pid
      ensures Undisturbed(old(procs), procs)
    {
      var used := PidsOf(procs, procList);
      var pid := pids.GetPid(used);
      PidIsNew(procs, procList, used, pid);
      ForkPids(procs, procList, kids, cur, c, pid);
      ghost var procs0, list0 := procs, procList;
      SetLinks(cur, c, pid);
      AgedFork(procs0, list0, idle, init, procs, c);
    }

    /** The pointer writes of set_links. */
    method LinkChild(cur: nat, c: nat)
      requires cur in procs && c in procs && 0 !in procs && cur != c && procs[c].parent == cur
      requires procs[cur].cptr != 0 ==> procs[cur].cptr in procs
      modifies `procs
      ensures procs == Push(old(procs), cur, c)
    {
      ghost var procs0 := procs;
      procs := procs[c := procs[c].(yptr := 0)];
      var first := procs[cur].cptr;
      procs := procs[c := procs[c].(optr := first)];
      assert procs == procs0[c := procs0[c].(yptr := 0, optr := procs0[cur].cptr, parent := cur)];
      if first != 0 {
        procs := procs[first := procs[first].(yptr := c)];
      }
      procs := procs[cur := procs[cur].(cptr := c)];
    }

    /** set_links and hash_proc of a new process. */
    method SetLinks(cur: nat, c: nat, pid: int)
      requires Tree(procs, kids) && Indexed(procs, procList, hash, idle)
      requires cur in procs && !procs[cur].zombie && c != 0 && c !in procs && c != idle && 1 <= pid < MAX_PID
      requires forall x :: x in procList ==> procs[x].pid != pid
      modifies `procs, `procList, `hash, `nrProcess, `kids
      ensures Tree(procs, kids) && Indexed(procs, procList, hash, idle) && nrProcess == old(nrProcess) + 1
      ensures procs == Push(old(procs)[c := Process(pid, false, cur, 0, 0, 0)], cur, c)
      ensures procList == [c] + old(procList) && kids == old(kids)[c := []][cur := [c] + old(kids)[cur]]
    {
      ghost var procs0 := procs;
      var r := Process(pid, false, cur, 0, 0, 0);
      AddChild(cur, c, pid);
      AddIndex(procs0, c, r);
      PushPids(procs0[c := r], cur, c);
      IndexedStays(procs0[c := r], procs, procList, hash, idle);
    }

    /** The family part of set_links. */
    method AddChild(cur: nat, c: nat, pid: int)
      requires Tree(procs, kids) && cur in procs && !procs[cur].zombie && c != 0 && c !in procs
      modifies `procs, `kids
      ensures Tree(procs, kids) && kids == old(kids)[c := []][cur := [c] + old(kids)[cur]]
      ensures procs == Push(old(procs)[c := Process(pid, false, cur, 0, 0, 0)], cur, c)
    {
      ForkTree(procs, kids, cur, c, Process(pid, false, cur, 0, 0, 0));
      Members(procs, kids[cur], cur);
      procs := procs[c := Process(pid, false, cur, 0, 0, 0)];
      LinkChild(cur, c);
      kids := kids[c := []][cur := [c] + kids[cur]];
    }

    /** proc_list and hash_list get process c, which is r. */
    method AddIndex(ghost procs0: map<nat, Process>, c: nat, r: Process)
      requires Indexed(procs0, procList, hash, idle) && c !in procs0 && c != idle && 1 <= r.pid < MAX_PID
      requires forall x :: x in procList ==> procs0[x].pid != r.pid
      modifies `procList, `hash, `nrProcess
      ensures Indexed(procs0[c := r], procList, hash, idle) && procList == [c] + old(procList)
        && nrProcess == old(nrProcess) + 1
    {
      IndexAdd(procs0, procList, hash, idle, c, r);
      procList := [c] + procList;
      nrProcess := nrProcess + 1;
      var k := Bucket(r.pid);
      hash := hash[k := [c] + hash[k]];
    }

    /** The state of do_exit between two rounds of its loop, m children handed on. */
    ghost predicate Exiting(cur: nat, procs0: map<nat, Process>, kids0: map<nat, seq<nat>>, waits0: map<nat, int>,
                            m: nat)
      reads this
    {
      && Leaving(procs, kids, cur, init) && SameExits(procs0, procs, cur, init) && cur in kids0 && init in kids0
         && m <= |kids0[cur]|
      && kids == HandedOn(kids0, cur, init, m) && waitFor == Still(waits0, procs0, kids0[cur][..m], init)
    }

    /** What init_main asserts when it has no children left. */
    lemma OnlyInitLeft()
      requires Valid() && kids[init] == [] && kids[idle] == [init]
      ensures procs[init].cptr == procs[init].yptr == procs[init].optr == 0
      ensures procList == [init] && nrProcess == 2
    {
      assert Family(procs, kids[init], init) && Family(procs, kids[idle], idle);
      assert KidOk(procs, kids[idle], idle, 0);
      AloneAtTheEnd(procs, kids, procList, idle, init);
    }

    /** The parents of every process lead to idle. */
    lemma Rooted(c: nat)
      requires Valid() && c in procs
      ensures exists n: nat :: n <= |procList| && Ancestor(procs, c, n) == idle
    {
      if c == idle {
        assert Ancestor(procs, c, 0) == idle;
      } else {
        var i :| 0 <= i < |procList| && procList[i] == c;
        var n := RootedAt(procs, procList, idle, init, i);
      }
    }

    /** do_exit of cur, which runs, as far as the process table goes: all its children go to
        init, and its parent and init stop waiting when they have something to collect. */
    method DoExit(cur: nat, code: int)
      requires Valid() && cur in procs && cur != idle && cur != init && !procs[cur].zombie && cur !in waitFor
      modifies `procs, `kids, `exitCode, `waitFor
      ensures Valid() && SameExits(old(procs), procs, cur, init) && exitCode == old(exitCode)[cur := code]
      ensures kids == old(kids)[cur := []][init := Reverse(old(kids)[cur]) + old(kids)[init]]
      ensures waitFor == Still(old(waitFor) - {old(procs)[cur].parent}, old(procs), old(kids)[cur], init)
    {
      ghost var procs0, kids0, waits0 := procs, kids, waitFor;
      exitCode := exitCode[cur := code];
      ExitLinks(cur);
      ExitWaits(procs0, kids0, waits0, procs, kids, waitFor, cur, init);
    }

    /** The end of do_exit. */
    method ExitLinks(cur: nat)
      requires TableOk() && cur in procs && cur != idle && cur != init && !procs[cur].zombie
      modifies `procs, `kids, `waitFor
      ensures TableOk() && SameExits(old(procs), procs, cur, init)
      ensures kids == old(kids)[cur := []][init := Reverse(old(kids)[cur]) + old(kids)[init]]
      ensures waitFor == Still(old(waitFor) - {old(procs)[cur].parent}, old(procs), old(kids)[cur], init)
    {
      ghost var procs0 := procs;
      GiveAway(cur);
      AgedExit(procs0, procList, idle, init, procs, cur);
      IndexedStays(procs0, procs, procList, hash, idle);
      assert PidsOf(procs, procList) == PidsOf(procs0, procList);
    }

    /** The family part of do_exit. */
    method GiveAway(cur: nat)
      requires Tree(procs, kids) && cur in procs && init in procs && init != cur && procs[init].parent != cur
        && !procs[init].zombie
      modifies `procs, `kids, `waitFor
      ensures Tree(procs, kids) && SameExits(old(procs), procs, cur, init)
      ensures kids == old(kids)[cur := []][init := Reverse(old(kids)[cur]) + old(kids)[init]]
      ensures waitFor == Still(old(waitFor) - {old(procs)[cur].parent}, old(procs), old(kids)[cur], init)
    {
      ghost var procs0, kids0, m := procs, kids, 0;
      ExitBegins(procs, kids, cur, init);
      procs := procs[cur := procs[cur].(zombie := true)];
      if procs[cur].parent in waitFor {
        waitFor := waitFor - {procs[cur].parent};
      }
      ghost var waits0 := waitFor;
      NoneHandedOn(kids0, cur, init);
      assert Still(waits0, procs0, kids0[cur][..0], init) == waits0;
      while procs[cur].cptr != 0
        invariant Exiting(cur, procs0, kids0, waits0, m)
        decreases |kids0[cur]| - m
      {
        m := HandOn(cur, procs0, kids0, waits0, m);
      }
      ExitEnds(procs, kids, cur, init);
      AllHandedOn(kids0, cur, init, m);
      assert kids0[cur][..m] == kids0[cur];
    }

    /** One round of the loop in do_exit. */
    method HandOn(cur: nat, ghost procs0: map<nat, Process>, ghost kids0: map<nat, seq<nat>>,
                  ghost waits0: map<nat, int>, ghost m: nat)
      returns (ghost n: nat)
      requires Exiting(cur, procs0, kids0, waits0, m) && cur in procs && procs[cur].cptr != 0 && !procs0[init].zombie
        && init != 0
      modifies `procs, `kids, `waitFor
      ensures n == m + 1 && Exiting(cur, procs0, kids0, waits0, n)
    {
      HandedNext(procs, kids, procs0, kids0, waits0, cur, init, m);
      var c := procs[cur].cptr;
      MoveChild(cur);
      if procs[c].zombie && init in waitFor {
        waitFor := waitFor - {init};
      }
      kids := AdoptKids(kids, cur, init);
      n := m + 1;
    }

    /** The pointer writes of that round. */
    method MoveChild(cur: nat)
      requires cur in procs && init in procs && cur != init && 0 !in procs && procs[cur].cptr in procs
      requires procs[init].cptr != 0 ==> procs[init].cptr in procs
      requires procs[cur].cptr != init && procs[cur].cptr != cur && procs[cur].cptr != procs[init].cptr
      modifies `procs
      ensures procs == Adopt(old(procs), cur, init)
    {
      var c := procs[cur].cptr;
      procs := procs[cur := procs[cur].(cptr := procs[c].optr)];
      procs := procs[c := procs[c].(yptr := 0)];
      procs := procs[c := procs[c].(optr := procs[init].cptr)];
      if procs[c].optr != 0 {
        procs := procs[procs[init].cptr := procs[procs[init].cptr].(yptr := c)];
      }
      procs := procs[c := procs[c].(parent := init)];
      procs := procs[init := procs[init].(cptr := c)];
    }

    /** The search of do_wait among all children: the newest zombie. */
    method FindAny(cur: nat) returns (haskid: bool, c: nat)
      requires cur in procs && cur in kids && Family(procs, kids[cur], cur)
      ensures haskid <==> kids[cur] != []
      ensures c == 0 ==> forall i :: 0 <= i < |kids[cur]| ==> kids[cur][i] in procs && !procs[kids[cur][i]].zombie
      ensures c != 0 ==> NewestZombie(procs, kids[cur], c)
    {
      haskid, c := false, 0;
      Members(procs, kids[cur], cur);
      ghost var ks := kids[cur];
      var x := procs[cur].cptr;
      ghost var k := 0;
      while x != 0
        invariant 0 <= k <= |ks| && x == KidAt(ks, k) && (haskid <==> k > 0)
        invariant forall i :: 0 <= i < k ==> ks[i] in procs && !procs[ks[i]].zombie
        decreases |ks| - k
      {
        assert KidOk(procs, ks, cur, k);
        haskid := true;
        if procs[x].zombie {
          assert ks[k] == x;
          return true, x;
        }
        x := procs[x].optr;
        k := k + 1;
      }
      KidNotNull(procs, ks, cur, k);
    }

    /** The search of do_wait for one pid. */
    method FindOne(cur: nat, pid: int) returns (haskid: bool, c: nat)
      requires TableOk() && cur in procs && pid != 0
      ensures haskid <==> exists x :: Awaited(procs, kids[cur], pid, x)
      ensures c == 0 ==> forall x :: Awaited(procs, kids[cur], pid, x) ==> !procs[x].zombie
      ensures c != 0 ==> Awaited(procs, kids[cur], pid, c) && procs[c].zombie
    {
      haskid, c := false, 0;
      var x := FindProc(pid);
      AwaitedByPid(cur, pid, x);
      assert forall y :: Awaited(procs, kids[cur], pid, y) ==> y == x;
      assert Awaited(procs, kids[cur], pid, x) <==> x != 0 && procs[x].parent == cur;
      if x != 0 && procs[x].parent == cur {
        haskid := true;
        if procs[x].zombie {
          c := x;
        }
      }
    }

    /** A child with that pid is the process that find_proc gives. */
    lemma AwaitedByPid(cur: nat, pid: int, x: nat)
      requires TableOk() && cur in procs && pid != 0
      requires x != 0 ==> x in procList && x in procs && procs[x].pid == pid
      requires x == 0 ==> forall y :: y in procList ==> procs[y].pid != pid
      ensures forall y :: Awaited(procs, kids[cur], pid, y) <==> y == x && x != 0 && procs[x].parent == cur
    {
      Members(procs, kids[cur], cur);
      assert x in procs && procs[x].parent == cur ==> HasPlace(procs, kids, x);
    }

    /** unhash_proc and list_del of process c; procs0 is the table before its links changed. */
    method RemoveIndex(c: nat, ghost procs0: map<nat, Process>) returns (i: nat)
      requires Indexed(procs0, procList, hash, idle) && c in procList && c in procs && c in procs0
        && procs[c].pid == procs0[c].pid
      modifies `procList, `hash, `nrProcess
      ensures Indexed(procs0 - {c}, procList, hash, idle) && nrProcess == old(nrProcess) - 1
      ensures i < |old(procList)| && old(procList)[i] == c && procList == old(procList)[..i] + old(procList)[i + 1..]
    {
      assert Hashed(procs0, hash, c);
      var b := Bucket(procs[c].pid);
      i := IndexOf(procList, c);
      var j := IndexOf(hash[b], c);
      IndexRemove(procs0, procList, hash, idle, c, i, j);
      hash := hash[b := hash[b][..j] + hash[b][j + 1..]];
      procList := procList[..i] + procList[i + 1..];
      nrProcess := nrProcess - 1;
    }

    /** unhash_proc and remove_links of a zombie among the children of cur, and its end. */
    method Reap(cur: nat, c: nat) returns (ghost k: nat)
      requires TableOk() && cur in procs && c in kids[cur] && c in procs && procs[c].zombie && c != init
      modifies `procs, `procList, `hash, `nrProcess, `kids
      ensures TableOk() && k < |old(kids)[cur]| && old(kids)[cur][k] == c
        && OneLess(old(procs), old(kids), procs, kids, cur, k)
    {
      Members(procs, kids[cur], cur);
      ghost var procs0, list0 := procs, procList;
      NobodysParent(procs, kids, c);
      ghost var at :| 0 <= at < |kids[cur]| && kids[cur][at] == c;
      k := at;
      var i := RemoveIndex(c, procs);
      RemoveChild(cur, c, k);
      RootsStay(procs0, procs, idle, init);
      AgedReap(procs0, list0, idle, init, procs, i);
      ReapIndex(procs0, list0, procs, procList, hash, idle, c, i);
      pids.ExitKeeps(PidsOf(procs0, list0), i);
    }

    /** The pointer writes of remove_links. */
    method UnlinkChild(c: nat)
      requires c in procs && 0 !in procs && procs[c].optr != c && procs[c].yptr != c && procs[c].parent != c
        && procs[c].parent in procs
      requires (procs[c].optr != 0 ==> procs[c].optr in procs) && (procs[c].yptr != 0 ==> procs[c].yptr in procs)
      modifies `procs
      ensures procs == Unlink(old(procs), c)
    {
      if procs[c].optr != 0 {
        procs := procs[procs[c].optr := procs[procs[c].optr].(yptr := procs[c].yptr)];
      }
      if procs[c].yptr != 0 {
        procs := procs[procs[c].yptr := procs[procs[c].yptr].(optr := procs[c].optr)];
      } else {
        procs := procs[procs[c].parent := procs[procs[c].parent].(cptr := procs[c].optr)];
      }
    }

    /** The family part of remove_links, and the end of the process. */
    method RemoveChild(cur: nat, c: nat, ghost k: nat)
      requires Tree(procs, kids) && cur in procs && k < |kids[cur]| && kids[cur][k] == c && c in procs
        && procs[c].zombie
      modifies `procs, `kids
      ensures Tree(procs, kids) && OneLess(old(procs), old(kids), procs, kids, cur, k)
    {
      ReapTree(procs, kids, cur, k);
      UnlinkSame(procs, kids[cur], cur, k);
      Outsiders(procs, kids, cur);
      UnlinkChild(c);
      procs := procs - {c};
      ghost var less := kids[cur][..k] + kids[cur][k + 1..];
      kids := kids[cur := less] - {c};
    }

    /** The search of do_wait. */
    method FindChild(cur: nat, pid: int) returns (haskid: bool, c: nat)
      requires TableOk() && cur in procs
      ensures haskid <==> exists x :: Awaited(procs, kids[cur], pid, x)
      ensures c == 0 ==> forall x :: Awaited(procs, kids[cur], pid, x) ==> !procs[x].zombie
      ensures c != 0 ==> Awaited(procs, kids[cur], pid, c) && procs[c].zombie && c != idle && c != init
      ensures c != 0 && pid == 0 ==> NewestZombie(procs, kids[cur], c)
    {
      assert Family(procs, kids[cur], cur);
      Members(procs, kids[cur], cur);
      if pid != 0 {
        haskid, c := FindOne(cur, pid);
      } else {
        haskid, c := FindAny(cur);
        AnyAwaited(procs, kids[cur], cur);
      }
    }

    /** One round of do_wait: a zombie child is freed, or the caller sleeps, or it has no
        such child. */
    method DoWait(cur: nat, pid: int, codeOk: bool) returns (r: Waited)
      requires Valid() && cur in procs && !procs[cur].zombie && cur !in waitFor
      modifies `procs, `procList, `hash, `nrProcess, `kids, `waitFor
      ensures Valid() && (r == BadPointer <==> !codeOk)
      ensures waitFor == if r == Sleeps then old(waitFor)[cur := pid] else old(waitFor)
      ensures r == NoChild <==> codeOk && forall x :: !Awaited(old(procs), old(kids)[cur], pid, x)
      ensures r == Sleeps ==> forall x :: Awaited(old(procs), old(kids)[cur], pid, x) ==> !old(procs)[x].zombie
      ensures !r.Reaped? ==> procs == old(procs) && kids == old(kids)
      ensures r.Reaped? ==> Awaited(old(procs), old(kids)[cur], pid, r.proc) && old(procs)[r.proc].zombie
      ensures r.Reaped? ==> r.proc in exitCode && r.code == exitCode[r.proc]
      ensures r.Reaped? && pid == 0 ==> NewestZombie(old(procs), old(kids)[cur], r.proc)
      ensures r.Reaped? ==> exists k: nat ::
        k < |old(kids)[cur]| && old(kids)[cur][k] == r.proc && OneLess(old(procs), old(kids), procs, kids, cur, k)
    {
      if !codeOk {
        return BadPointer;
      }
      var haskid, c := FindChild(cur, pid);
      if c != 0 {
        r := TakeZombie(cur, pid, c);
        return;
      }
      r := NoChild;
      if haskid {
        waitFor := waitFor[cur := pid];
        r := Sleeps;
      }
    }

    method TakeZombie(cur: nat, pid: int, c: nat) returns (r: Waited)
      requires Valid() && cur in procs && cur !in waitFor && c != init
      requires Awaited(procs, kids[cur], pid, c) && procs[c].zombie
      modifies `procs, `procList, `hash, `nrProcess, `kids
      ensures Valid() && r.Reaped? && r.proc == c && c in exitCode && r.code == exitCode[c]
      ensures exists k: nat ::
        k < |old(kids)[cur]| && old(kids)[cur][k] == c && OneLess(old(procs), old(kids), procs, kids, cur, k)
    {
      ghost var k := Collect(cur, c);
      r := Reaped(c, exitCode[c]);
    }

    /** The end of do_wait for the zombie c. */
    method Collect(cur: nat, c: nat) returns (ghost k: nat)
      requires Valid() && cur in procs && c in kids[cur] && c in procs && procs[c].zombie && c != init
        && cur !in waitFor
      modifies `procs, `procList, `hash, `nrProcess, `kids
      ensures Valid() && k < |old(kids)[cur]| && old(kids)[cur][k] == c
        && OneLess(old(procs), old(kids), procs, kids, cur, k)
    {
      ghost var procs0, kids0 := procs, kids;
      k := Reap(cur, c);
      ReapWaits(procs0, kids0, waitFor, procs, kids, cur, k);
    }

    /** Something else, such as do_kill, wakes a process out of do_wait. */
    method Interrupt(p: nat)
      requires Valid()
      modifies `waitFor
      ensures Valid() && waitFor == old(waitFor) - {p}
    {
      waitFor := waitFor - {p};
    }

    /** No wakeup is lost: who sleeps in do_wait has a child that it waits for, and none of
        those is a zombie. */
    lemma WaitsForSomething(p: nat)
      requires Valid() && p in waitFor
      ensures p in procs && !procs[p].zombie && exists x :: Awaited(procs, kids[p], waitFor[p], x)
      ensures forall x :: Awaited(procs, kids[p], waitFor[p], x) ==> !procs[x].zombie
    {
      assert WaitOk(procs, kids, p, waitFor[p]);
    }
  }

  // ---------- waiting for children ----------

  /** p, which sleeps in do_wait(pid), has such a child, and none is a zombie. */
  ghost predicate WaitOk(procs: map<nat, Process>, kids: map<nat, seq<nat>>, p: nat, pid: int) {
    && p in procs && p in kids && !procs[p].zombie
    && (exists x :: Awaited(procs, kids[p], pid, x))
    && (forall x :: Awaited(procs, kids[p], pid, x) ==> !procs[x].zombie)
  }

  ghost predicate WaitsOk(procs: map<nat, Process>, kids: map<nat, seq<nat>>, waitFor: map<nat, int>) {
    forall p {:trigger WaitOk(procs, kids, p, waitFor[p])} :: p in waitFor ==> WaitOk(procs, kids, p, waitFor[p])
  }

  ghost predicate HasZombie(procs: map<nat, Process>, ks: seq<nat>) {
    exists x :: x in ks && x in procs && procs[x].zombie
  }

  lemma ZombieSeen(procs: map<nat, Process>, ks: seq<nat>, x: nat)
    ensures x in ks && x in procs && procs[x].zombie ==> HasZombie(procs, ks)
  {
  }

  /** Who still waits once init got the children ks. */
  ghost function Still(waitFor: map<nat, int>, procs: map<nat, Process>, ks: seq<nat>, init: nat): map<nat, int> {
    waitFor - if HasZombie(procs, ks) then {init} else {}
  }

  lemma OneMoreChild(waitFor: map<nat, int>, procs: map<nat, Process>, ks: seq<nat>, init: nat, m: nat)
    requires m < |ks|
    ensures
      Still(waitFor, procs, ks[..m + 1], init) ==
        if ks[m] in procs && procs[ks[m]].zombie then Still(waitFor, procs, ks[..m], init) - {init}
          else Still(waitFor, procs, ks[..m], init)
  {
    assert ks[..m + 1] == ks[..m] + [ks[m]];
  }

  lemma ForkWaits(procs0: map<nat, Process>, kids0: map<nat, seq<nat>>, waitFor: map<nat, int>,
                  procs: map<nat, Process>, kids: map<nat, seq<nat>>, cur: nat, c: nat)
    requires WaitsOk(procs0, kids0, waitFor) && Undisturbed(procs0, procs) && c in procs && !procs[c].zombie
      && c !in procs0
    requires procs.Keys == procs0.Keys + {c} && cur in kids0 && kids == kids0[c := []][cur := [c] + kids0[cur]]
    ensures WaitsOk(procs, kids, waitFor)
  {
    forall p | p in waitFor
      ensures WaitOk(procs, kids, p, waitFor[p])
    {
      assert WaitOk(procs0, kids0, p, waitFor[p]);
      var x :| Awaited(procs0, kids0[p], waitFor[p], x);
      assert Awaited(procs, kids[p], waitFor[p], x);
      forall y | Awaited(procs, kids[p], waitFor[p], y)
        ensures !procs[y].zombie
      {
        assert y != c ==> y in kids0[p];
        assert y in kids0[p] && y in procs0 ==> Awaited(procs0, kids0[p], waitFor[p], y);
      }
    }
  }

  /** A child of another process, or none that p waits for, is gone. */
  lemma ReapWaits(procs0: map<nat, Process>, kids0: map<nat, seq<nat>>, waitFor: map<nat, int>,
                  procs: map<nat, Process>, kids: map<nat, seq<nat>>, cur: nat, k: nat)
    requires WaitsOk(procs0, kids0, waitFor) && OneLess(procs0, kids0, procs, kids, cur, k) && cur !in waitFor
    requires Tree(procs0, kids0) && cur in procs0 && kids0[cur][k] in procs0 && procs0[kids0[cur][k]].zombie
    ensures WaitsOk(procs, kids, waitFor)
  {
    var c := kids0[cur][k];
    Members(procs0, kids0[cur], cur);
    forall p | p in waitFor
      ensures WaitOk(procs, kids, p, waitFor[p])
    {
      assert WaitOk(procs0, kids0, p, waitFor[p]);
      assert Family(procs0, kids0[p], p);
      Members(procs0, kids0[p], p);
      var x :| Awaited(procs0, kids0[p], waitFor[p], x);
      assert Awaited(procs, kids[p], waitFor[p], x);
      forall y | Awaited(procs, kids[p], waitFor[p], y)
        ensures !procs[y].zombie
      {
        assert Awaited(procs0, kids0[p], waitFor[p], y);
      }
    }
  }

  lemma ReverseHas(s: seq<nat>, x: nat)
    ensures x in Reverse(s) <==> x in s
  {
    if s != [] {
      ReverseHas(s[..|s| - 1], x);
      assert s == s[..|s| - 1] + [s[|s| - 1]];
    }
  }

  /** The parent of the process that exits, and init if it gets zombies, wait no longer. */
  lemma ExitWaits(procs0: map<nat, Process>, kids0: map<nat, seq<nat>>, waits0: map<nat, int>,
                  procs: map<nat, Process>, kids: map<nat, seq<nat>>, waitFor: map<nat, int>, cur: nat, init: nat)
    requires WaitsOk(procs0, kids0, waits0) && Tree(procs0, kids0) && SameExits(procs0, procs, cur, init)
    requires cur in procs0 && init in procs0 && cur != init && cur !in waits0
    requires kids == kids0[cur := []][init := Reverse(kids0[cur]) + kids0[init]]
    requires waitFor == Still(waits0 - {procs0[cur].parent}, procs0, kids0[cur], init)
    ensures WaitsOk(procs, kids, waitFor)
  {
    forall p | p in waitFor
      ensures WaitOk(procs, kids, p, waitFor[p])
    {
      assert WaitOk(procs0, kids0, p, waits0[p]);
      assert Family(procs0, kids0[p], p);
      Members(procs0, kids0[p], p);
      var x :| Awaited(procs0, kids0[p], waitFor[p], x);
      assert Awaited(procs, kids[p], waitFor[p], x);
      forall y | Awaited(procs, kids[p], waitFor[p], y)
        ensures !procs[y].zombie
      {
        ReverseHas(kids0[cur], y);
        Outsiders(procs0, kids0, cur);
        assert p != procs0[cur].parent && (p == init ==> !HasZombie(procs0, kids0[cur]));
        assert y in kids0[p] ==> Awaited(procs0, kids0[p], waitFor[p], y) && y != cur;
        ZombieSeen(procs0, kids0[cur], y);
        assert y in kids0[p] || (p == init && y in kids0[cur]);
      }
    }
  }

  /** A child that do_wait(pid) waits for: any if pid is 0. */
  ghost predicate Awaited(procs: map<nat, Process>, ks: seq<nat>, pid: int, c: nat) {
    c in ks && c in procs && (pid == 0 || procs[c].pid == pid)
  }

  /** c is a zombie and no newer child is one. */
  ghost predicate NewestZombie(procs: map<nat, Process>, ks: seq<nat>, c: nat) {
    c in procs && procs[c].zombie &&
    exists k :: 0 <= k < |ks| && ks[k] == c && forall i :: 0 <= i < k ==> ks[i] in procs && !procs[ks[i]].zombie
  }

  lemma AnyAwaited(procs: map<nat, Process>, ks: seq<nat>, p: nat)
    requires Family(procs, ks, p)
    ensures ks != [] <==> exists x :: Awaited(procs, ks, 0, x)
    ensures forall x :: Awaited(procs, ks, 0, x) <==> x in ks
  {
    Members(procs, ks, p);
    if ks != [] {
      assert ks[0] in ks;
      assert Awaited(procs, ks, 0, ks[0]);
    }
  }

  /** Processes that were there have the same pid, parent and state. */
  ghost predicate Undisturbed(procs0: map<nat, Process>, procs: map<nat, Process>) {
    forall x :: x in procs0 ==>
      x in procs && procs[x].pid == procs0[x].pid && procs[x].parent == procs0[x].parent
        && procs[x].zombie == procs0[x].zombie
  }

  /** Child k of p is gone from the table and from its family; nobody else's pid, parent or state changed. */
  ghost predicate OneLess(procs0: map<nat, Process>, kids0: map<nat, seq<nat>>,
                          procs: map<nat, Process>, kids: map<nat, seq<nat>>, p: nat, k: nat)
  {
    && p in kids0 && k < |kids0[p]| && procs.Keys == procs0.Keys - {kids0[p][k]}
    && kids == kids0[p := kids0[p][..k] + kids0[p][k + 1..]] - {kids0[p][k]}
    && forall x :: x in procs ==>
         procs[x].pid == procs0[x].pid && procs[x].parent == procs0[x].parent && procs[x].zombie == procs0[x].zombie
  }

  lemma UnlinkSame(procs: map<nat, Process>, ks: seq<nat>, p: nat, k: nat)
    requires Family(procs, ks, p) && k < |ks| && 0 !in procs
    ensures ks[k] in procs && procs[ks[k]].parent == p && procs[ks[k]].optr != ks[k] && procs[ks[k]].yptr != ks[k]
    ensures procs[ks[k]].optr != 0 ==> procs[ks[k]].optr in procs
    ensures procs[ks[k]].yptr != 0 ==> procs[ks[k]].yptr in procs
    ensures
      var after := Unlink(procs, ks[k]);
      after.Keys == procs.Keys && forall x :: x in procs ==>
        after[x].pid == procs[x].pid && after[x].parent == procs[x].parent && after[x].zombie == procs[x].zombie
  {
    assert KidOk(procs, ks, p, k);
    assert k > 0 ==> KidOk(procs, ks, p, k - 1);
    assert k + 1 < |ks| ==> KidOk(procs, ks, p, k + 1);
  }

  method IndexOf(s: seq<nat>, x: nat) returns (i: nat)
    requires x in s
    ensures i < |s| && s[i] == x
  {
    i := 0;
    while s[i] != x
      invariant i < |s| && x in s[i..]
      decreases |s| - i
    {
      assert s[i..] == [s[i]] + s[i + 1..];
      i := i + 1;
    }
  }

  /** The index and the pids after process c, item i of the list, is gone. */
  lemma ReapIndex(procs0: map<nat, Process>, list0: seq<nat>, procs: map<nat, Process>, list: seq<nat>,
                  hash: seq<seq<nat>>, idle: nat, c: nat, i: nat)
    requires (forall k :: 0 <= k < |list0| ==> list0[k] in procs0) && NoDuplicates(list0) && i < |list0|
      && list0[i] == c
    requires list == list0[..i] + list0[i + 1..] && Indexed(procs0 - {c}, list, hash, idle)
      && procs.Keys == procs0.Keys - {c}
    requires forall x :: x in procs ==> procs[x].pid == procs0[x].pid
    ensures Indexed(procs, list, hash, idle) && (forall k :: 0 <= k < |list| ==> list[k] in procs)
    ensures PidsOf(procs, list) == PidsOf(procs0, list0)[..i] + PidsOf(procs0, list0)[i + 1..]
  {
    IndexedStays(procs0 - {c}, procs, list, hash, idle);
    ReapPids(procs0, list0, procs, i);
  }

  lemma ReapPids(procs0: map<nat, Process>, list: seq<nat>, procs: map<nat, Process>, i: nat)
    requires (forall k :: 0 <= k < |list| ==> list[k] in procs0) && i < |list|
    requires forall k :: 0 <= k < |list| && k != i ==> list[k] in procs && procs[list[k]].pid == procs0[list[k]].pid
    ensures
      var less, pids := list[..i] + list[i + 1..], PidsOf(procs0, list);
      (forall k :: 0 <= k < |less| ==> less[k] in procs) && PidsOf(procs, less) == pids[..i] + pids[i + 1..]
  {
    var less := list[..i] + list[i + 1..];
    assert forall k :: 0 <= k < |less| ==> less[k] == list[if k < i then k else k + 1];
  }

  function Reverse(s: seq<nat>): seq<nat> {
    if s == [] then [] else [s[|s| - 1]] + Reverse(s[..|s| - 1])
  }

  /** The families when m children of cur were handed on to init, the newest first. */
  function HandedOn(kids: map<nat, seq<nat>>, cur: nat, init: nat, m: nat): map<nat, seq<nat>>
    requires cur in kids && init in kids && m <= |kids[cur]|
  {
    kids[cur := kids[cur][m..]][init := Reverse(kids[cur][..m]) + kids[init]]
  }

  lemma NoneHandedOn(kids: map<nat, seq<nat>>, cur: nat, init: nat)
    requires cur in kids && init in kids && cur != init
    ensures HandedOn(kids, cur, init, 0) == kids
  {
    assert kids[cur][0..] == kids[cur] && kids[cur][..0] == [] && [] + kids[init] == kids[init];
  }

  lemma AllHandedOn(kids: map<nat, seq<nat>>, cur: nat, init: nat, m: nat)
    requires cur in kids && init in kids && cur != init && m <= |kids[cur]| && HandedOn(kids, cur, init, m)[cur] == []
    ensures HandedOn(kids, cur, init, m) == kids[cur := []][init := Reverse(kids[cur]) + kids[init]]
  {
    assert kids[cur][m..] == [] && kids[cur][..m] == kids[cur];
  }

  /** The same processes with the same pids; only cur became a zombie; who has a parent still has one. */
  ghost predicate SameExits(procs0: map<nat, Process>, procs: map<nat, Process>, cur: nat, init: nat) {
    && procs.Keys == procs0.Keys
    && forall x :: x in procs ==>
         && procs[x].pid == procs0[x].pid && procs[x].zombie == (procs0[x].zombie || x == cur)
         && (procs[x].parent == procs0[x].parent || (procs0[x].parent == cur && procs[x].parent == init))
  }

  lemma ExitBegins(procs: map<nat, Process>, kids: map<nat, seq<nat>>, cur: nat, init: nat)
    requires Tree(procs, kids) && cur in procs && init in procs && init != cur && procs[init].parent != cur
    ensures
      var after := procs[cur := procs[cur].(zombie := true)];
      Leaving(after, kids, cur, init) && SameExits(procs, after, cur, init)
  {
    var after := procs[cur := procs[cur].(zombie := true)];
    forall p | p in procs
      ensures Family(after, kids[p], p)
    {
      Members(procs, kids[p], p);
      FamilyStays(procs, after, kids[p], p);
    }
    FamilyIsRest(after, kids[cur], cur);
    Outsiders(procs, kids, init);
    forall c | c in after && after[c].parent != 0
      ensures after[c].parent != c && HasPlace(after, kids, c)
    {
      assert HasPlace(procs, kids, c);
    }
  }

  lemma ExitEnds(procs: map<nat, Process>, kids: map<nat, seq<nat>>, cur: nat, init: nat)
    requires Leaving(procs, kids, cur, init) && procs[cur].cptr == 0
    ensures kids[cur] == [] && Tree(procs, kids)
  {
    assert kids[cur] != [] ==> RestOk(procs, kids[cur], cur, 0);
    assert Family(procs, kids[cur], cur);
    forall c | c in procs && procs[c].parent != 0
      ensures procs[c].parent != c
    {
      assert HasPlace(procs, kids, c);
    }
  }

  lemma AdoptSame(procs0: map<nat, Process>, procs: map<nat, Process>, cur: nat, init: nat)
    requires SameExits(procs0, procs, cur, init) && cur in procs && init in procs && init != cur
    requires procs[cur].cptr in procs && procs[procs[cur].cptr].parent == cur
    ensures SameExits(procs0, Adopt(procs, cur, init), cur, init)
  {
  }

  /** One round of the loop in do_exit hands on one child. */
  lemma HandedNext(procs: map<nat, Process>, kids: map<nat, seq<nat>>, procs0: map<nat, Process>,
                   kids0: map<nat, seq<nat>>, waits0: map<nat, int>, cur: nat, init: nat, m: nat)
    requires Leaving(procs, kids, cur, init) && SameExits(procs0, procs, cur, init) && cur in kids0 && init in kids0
      && m <= |kids0[cur]|
    requires kids == HandedOn(kids0, cur, init, m) && procs[cur].cptr != 0 && init in procs0 && !procs0[init].zombie
      && init != 0
    ensures m < |kids0[cur]| && procs[cur].cptr == kids0[cur][m]
    ensures procs[cur].cptr in procs && procs[cur].cptr in procs0
      && procs[procs[cur].cptr].zombie == procs0[procs[cur].cptr].zombie
    ensures procs[cur].cptr != init && procs[cur].cptr != cur && procs[cur].cptr != procs[init].cptr
    ensures procs[init].cptr != 0 ==> procs[init].cptr in procs
    ensures Leaving(Adopt(procs, cur, init), AdoptKids(kids, cur, init), cur, init)
    ensures SameExits(procs0, Adopt(procs, cur, init), cur, init)
    ensures AdoptKids(kids, cur, init) == HandedOn(kids0, cur, init, m + 1)
    ensures
      Still(waits0, procs0, kids0[cur][..m + 1], init) ==
        Still(waits0, procs0, kids0[cur][..m], init) - if procs0[kids0[cur][m]].zombie then {init} else {}
  {
    assert RestOk(procs, kids[cur], cur, 0);
    assert Family(procs, kids[init], init);
    assert kids[init] != [] ==> KidOk(procs, kids[init], init, 0);
    assert procs[cur].parent != 0 ==> HasPlace(procs, kids, cur);
    AdoptOk(procs, kids, cur, init);
    AdoptSame(procs0, procs, cur, init);
    AdoptKidsNext(kids0, kids, cur, init, m);
    OneMoreChild(waits0, procs0, kids0[cur], init, m);
  }

  lemma AdoptKidsNext(kids0: map<nat, seq<nat>>, kids: map<nat, seq<nat>>, cur: nat, init: nat, m: nat)
    requires cur in kids0 && init in kids0 && cur != init && m < |kids0[cur]|
    requires kids == HandedOn(kids0, cur, init, m)
    ensures AdoptKids(kids, cur, init) == HandedOn(kids0, cur, init, m + 1)
  {
    var ks := kids0[cur];
    assert ks[m..][1..] == ks[m + 1..] && ks[..m + 1][..m] == ks[..m];
    assert Reverse(ks[..m + 1]) == [ks[m]] + Reverse(ks[..m]);
    assert [ks[m]] + (Reverse(ks[..m]) + kids0[init]) == ([ks[m]] + Reverse(ks[..m])) + kids0[init];
  }

  lemma PushPids(procs: map<nat, Process>, p: nat, c: nat)
    requires p in procs && c in procs
    ensures Push(procs, p, c).Keys == procs.Keys
    ensures forall x :: x in procs ==>
      Push(procs, p, c)[x].pid == procs[x].pid && Push(procs, p, c)[x].zombie == procs[x].zombie
    ensures forall x :: x in procs && x != c ==> Push(procs, p, c)[x].parent == procs[x].parent
  {
  }

  lemma PidIsNew(procs: map<nat, Process>, list: seq<nat>, used: seq<int>, pid: int)
    requires (forall i :: 0 <= i < |list| ==> list[i] in procs) && used == PidsOf(procs, list) && pid !in used
    ensures forall x :: x in list ==> procs[x].pid != pid
  {
    forall x | x in list
      ensures procs[x].pid != pid
    {
      var i :| 0 <= i < |list| && list[i] == x;
      assert used[i] == procs[x].pid;
    }
  }

  lemma ForkPids(procs: map<nat, Process>, list: seq<nat>, kids: map<nat, seq<nat>>, p: nat, c: nat, pid: int)
    requires (forall i :: 0 <= i < |list| ==> list[i] in procs) && p in procs && c !in procs
    ensures
      var after := Push(procs[c := Process(pid, false, p, 0, 0, 0)], p, c);
      && (forall i :: 0 <= i < |[c] + list| ==> ([c] + list)[i] in after)
      && PidsOf(after, [c] + list) == [pid] + PidsOf(procs, list)
      && after.Keys == procs.Keys + {c} && after[c].parent == p && after[c].pid == pid && !after[c].zombie
      && Undisturbed(procs, after)
  {
    PushPids(procs[c := Process(pid, false, p, 0, 0, 0)], p, c);
  }
}
