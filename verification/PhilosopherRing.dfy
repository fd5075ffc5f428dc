/** What both philosopher protocols share: the round table, and a budget of steps
    summed over the seats. */
module PhilosopherRing {
  import Basics

  datatype Mood = Thinking | Hungry | Eating

  /** LEFT, the macro (i-1+N)%N. */
  function Left(n: nat, i: nat): (l: nat)
    requires i < n
    ensures l < n
  {
    if i == 0 then n - 1 else i - 1
  }

  /** RIGHT, the macro (i+1)%N. */
  function Right(n: nat, i: nat): (r: nat)
    requires i < n
    ensures r < n
  {
    if i + 1 == n then 0 else i + 1
  }

  /** Left and Right are the two macros, and each undoes the other. */
  lemma NeighboursAreMacros(n: nat, i: nat)
    requires i < n
    ensures Left(n, i) == (i - 1 + n) % n
    ensures Right(n, i) == (i + 1) % n
    ensures Left(n, Right(n, i)) == i == Right(n, Left(n, i))
  {
    Basics.DivisionIs(i - 1 + n, n, if i == 0 then 0 else 1);
    Basics.DivisionIs(i + 1, n, if i + 1 == n then 1 else 0);
  }

  /** Which call of the routine that tests a philosopher's forks is being made: the one
      in taking forks, or one of the two in putting them down. */
  datatype Phase = Take | PutLeft | PutRight

  /** The philosopher whose forks are tested, by philosopher p. */
  function Target(n: nat, p: nat, ph: Phase): (t: nat)
    requires p < n
    ensures t < n
  {
    match ph
    case Take => p
    case PutLeft => Left(n, p)
    case PutRight => Right(n, p)
  }

  function Total(a: seq<nat>): nat {
    if a == [] then 0 else Total(a[..|a| - 1]) + a[|a| - 1]
  }

  /** If no seat's budget grows and p's shrinks, the total shrinks. */
  lemma {:induction false} TotalDrops(a: seq<nat>, b: seq<nat>, p: nat)
    requires |a| == |b|
    requires forall i :: 0 <= i < |a| ==> b[i] + (if i == p then 1 else 0) <= a[i]
    ensures Total(b) + (if p < |a| then 1 else 0) <= Total(a)
  {
    if a != [] {
      TotalDrops(a[..|a| - 1], b[..|b| - 1], p);
    }
  }

  lemma {:induction false} TotalOfEqual(a: seq<nat>, c: nat)
    requires forall i :: 0 <= i < |a| ==> a[i] == c
    ensures Total(a) == |a| * c
  {
    if a != [] {
      TotalOfEqual(a[..|a| - 1], c);
      assert |a| * c == (|a| - 1) * c + c;
    }
  }
}
