/** What stride scheduling is for (default_sched.c): how often processes are picked, in proportion to
    their priorities. Told by the counts of picks and the priorities alone, without the pass. */
module Shares {
  import Basics
  import opened SkewTree
  import opened StrideFairness

  /** Priority 0 counts as 1. */
  function Weight(priority: Word): nat {
    if priority == 0 then 1 else priority
  }

  /** What the division of BIG_STRIDE by the priority leaves over. */
  function Rest(priority: Word): int {
    BIG_STRIDE % Weight(priority)
  }

  lemma WeightAndPass(priority: Word)
    ensures Pass(priority) * Weight(priority) + Rest(priority) == BIG_STRIDE
    ensures 0 <= Rest(priority) < Weight(priority)
  {
    PassIs(priority, Pass(priority));
    if 1 < priority {
      Basics.DivisionIs(BIG_STRIDE, priority, Pass(priority));
    }
  }

  /** How far the picks of two processes, ri of the one and rj of the other, are from the ratio of
      their priorities. */
  function Gap(ri: int, qi: Word, rj: int, qj: Word): int {
    ri * Weight(qj) - rj * Weight(qi)
  }

  /** Picks times pass lie within BIG_STRIDE of each other. */
  predicate Even(ri: int, qi: Word, rj: int, qj: Word) {
    -BIG_STRIDE <= ri * Pass(qi) - rj * Pass(qj) <= BIG_STRIDE
  }

  /** The one with the higher priority has not been picked less often than the other one, but for a
      constant. Beyond BIG_STRIDE priorities are all alike. */
  predicate NotFewer(ri: int, qi: Word, rj: int, qj: Word) {
    Weight(qi) >= Weight(qj) && qj <= BIG_STRIDE ==> rj < ri + 2 * Weight(qj)
  }

  function Max(a: int, b: int): int {
    if a < b then b else a
  }

  /** The picks are in the ratio of the priorities, but for one part in BIG_STRIDE of
      the picks and one pick, both times the priorities. */
  predicate InProportion(ri: int, qi: Word, rj: int, qj: Word) {
    var most := Weight(qi) * Weight(qj) * (BIG_STRIDE + Max(ri, rj));
    -most <= BIG_STRIDE * Gap(ri, qi, rj, qj) <= most
  }

  /** The gap to within a constant: it grows with the picks by the difference of what the divisions
      of BIG_STRIDE by the priorities leave over. */
  predicate Drift(ri: int, qi: Word, rj: int, qj: Word) {
    var off := Pass(qi) * Gap(ri, qi, rj, qj) - rj * (Rest(qi) - Rest(qj));
    -(BIG_STRIDE * Weight(qj)) <= off <= BIG_STRIDE * Weight(qj)
  }

  lemma Times(a: int, b: int, c: nat)
    requires a <= b
    ensures a * c <= b * c
  {
  }

  lemma Between(x: int, bound: int, c: nat)
    requires -bound <= x <= bound
    ensures -(bound * c) <= x * c <= bound * c
  {
    Times(-bound, x, c);
    Times(x, bound, c);
    assert -bound * c == -(bound * c);
  }

  /** A higher priority has no higher pass. */
  lemma PassFalls(qi: Word, qj: Word)
    requires Weight(qi) >= Weight(qj)
    ensures Pass(qi) <= Pass(qj)
  {
    var wi, wj, pi, pj := Weight(qi), Weight(qj), Pass(qi), Pass(qj);
    WeightAndPass(qi);
    WeightAndPass(qj);
    PassSmall(qj);
    assert (pj + 1) * wj == pj * wj + wj;
    Times(wj, wi, pj + 1);
    if pi > pj {
      Times(pj + 1, pi, wi);
    }
  }

  lemma Closer(ri: int, rj: int, p: int, w: nat)
    requires p >= 1 && (rj - ri) * p <= BIG_STRIDE < (p + 1) * w
    ensures rj < ri + 2 * w
  {
    assert (p + 1) * w == p * w + w && 2 * w * p == 2 * (p * w);
    Times(1, p, w);
    if rj - ri >= 2 * w {
      Times(2 * w, rj - ri, p);
    }
  }

  lemma EvenIsNotFewer(ri: nat, qi: Word, rj: nat, qj: Word)
    requires Even(ri, qi, rj, qj)
    ensures NotFewer(ri, qi, rj, qj)
  {
    var wi, wj, pi, pj := Weight(qi), Weight(qj), Pass(qi), Pass(qj);
    if wi >= wj && qj <= BIG_STRIDE {
      PassFalls(qi, qj);
      PassZero(qj);
      PassSmall(qj);
      WeightAndPass(qj);
      Times(pi, pj, ri);
      assert (rj - ri) * pj == rj * pj - ri * pj && (pj + 1) * wj == pj * wj + wj;
      Closer(ri, rj, pj, wj);
    }
  }

  /** The exact account of the gap. */
  lemma GapIs(ri: int, pi: int, wi: int, mi: int, rj: int, pj: int, wj: int, mj: int)
    requires pi * wi + mi == BIG_STRIDE == pj * wj + mj
    ensures pi * (ri * wj - rj * wi) - rj * (mi - mj) == (ri * pi - rj * pj) * wj
  {
    assert pi * (ri * wj - rj * wi) == ri * pi * wj - rj * (pi * wi);
    assert (ri * pi - rj * pj) * wj == ri * pi * wj - rj * (pj * wj);
    assert rj * (pi * wi) == rj * (BIG_STRIDE - mi) == rj * BIG_STRIDE - rj * mi;
    assert rj * (pj * wj) == rj * (BIG_STRIDE - mj) == rj * BIG_STRIDE - rj * mj;
    assert rj * (mi - mj) == rj * mi - rj * mj;
  }

  lemma EvenDrifts(ri: nat, qi: Word, rj: nat, qj: Word)
    requires Even(ri, qi, rj, qj)
    ensures Drift(ri, qi, rj, qj)
  {
    var wi, wj, pi, pj := Weight(qi), Weight(qj), Pass(qi), Pass(qj);
    WeightAndPass(qi);
    WeightAndPass(qj);
    GapIs(ri, pi, wi, Rest(qi), rj, pj, wj, Rest(qj));
    Between(ri * pi - rj * pj, BIG_STRIDE, wj);
  }

  lemma GapTimes(ri: int, pi: int, wi: int, mi: int, rj: int, pj: int, wj: int, mj: int)
    requires pi * wi + mi == BIG_STRIDE == pj * wj + mj
    ensures BIG_STRIDE * (ri * wj - rj * wi) == (ri * pi - rj * pj) * (wi * wj) + ri * wj * mi - rj * wi * mj
  {
    assert BIG_STRIDE * (ri * wj) == (pi * wi + mi) * (ri * wj) == pi * wi * (ri * wj) + mi * (ri * wj);
    assert BIG_STRIDE * (rj * wi) == (pj * wj + mj) * (rj * wi) == pj * wj * (rj * wi) + mj * (rj * wi);
    assert pi * wi * (ri * wj) == ri * pi * (wi * wj) && pj * wj * (rj * wi) == rj * pj * (wi * wj);
    assert (ri * pi - rj * pj) * (wi * wj) == ri * pi * (wi * wj) - rj * pj * (wi * wj);
  }

  /** What one division leaves over is less than one pick for each pick. */
  lemma LeftOver(r: nat, most: nat, w: nat, w': nat, m: nat)
    requires r <= most && m <= w
    ensures 0 <= r * w' * m <= most * (w * w')
  {
    Times(r, most, w' * m);
    Times(m, w, most * w');
    assert r * w' * m == r * (w' * m) && m * (most * w') == most * (w' * m) && w * (most * w') == most * (w * w');
  }

  lemma EvenInProportion(ri: nat, qi: Word, rj: nat, qj: Word)
    requires Even(ri, qi, rj, qj)
    ensures InProportion(ri, qi, rj, qj)
  {
    var wi, wj, pi, pj := Weight(qi), Weight(qj), Pass(qi), Pass(qj);
    var mi, mj, most := Rest(qi), Rest(qj), Max(ri, rj);
    WeightAndPass(qi);
    WeightAndPass(qj);
    GapTimes(ri, pi, wi, mi, rj, pj, wj, mj);
    Between(ri * pi - rj * pj, BIG_STRIDE, wi * wj);
    LeftOver(ri, most, wi, wj, mi);
    LeftOver(rj, most, wj, wi, mj);
    assert wj * wi == wi * wj;
    assert wi * wj * (BIG_STRIDE + most) == BIG_STRIDE * (wi * wj) + most * (wi * wj);
  }

  // ---------- runs from equal strides ----------

  /** Nobody has been picked yet. */
  ghost predicate Fresh(s: State, low: Word) {
    |s.stride| == |s.runs| && forall i :: 0 <= i < |s.stride| ==> s.stride[i] == low && s.runs[i] == 0
  }

  /** The picks of two processes agree with their priorities. */
  predicate Agree(ri: nat, qi: Word, rj: nat, qj: Word) {
    NotFewer(ri, qi, rj, qj) && InProportion(ri, qi, rj, qj) && Drift(ri, qi, rj, qj)
  }

  lemma EvenAgrees(ri: nat, qi: Word, rj: nat, qj: Word)
    requires Even(ri, qi, rj, qj)
    ensures Agree(ri, qi, rj, qj)
  {
    EvenIsNotFewer(ri, qi, rj, qj);
    EvenInProportion(ri, qi, rj, qj);
    EvenDrifts(ri, qi, rj, qj);
  }

  /** However many calls of schedule() there are, from equal strides on: the picks agree with the
      priorities. */
  lemma SharesByPriority(r: seq<State>, low: Word, i: nat, j: nat)
    requires Run(r, low) && Fresh(r[0], low) && i < |r[0].stride| && j < |r[0].stride|
    ensures
      var s := r[|r| - 1];
      && |s.runs| == |s.priority| == |r[0].stride| && s.priority == r[0].priority
      && Agree(s.runs[i], s.priority[i], s.runs[j], s.priority[j])
  {
    WindowAndFairness(r, low, i, j);
    var now := RunInv(r, low);
    var s := r[|r| - 1];
    assert MovedIn(r, low, i) == s.runs[i] * Pass(s.priority[i]);
    assert MovedIn(r, low, j) == s.runs[j] * Pass(s.priority[j]);
    EvenAgrees(s.runs[i], s.priority[i], s.runs[j], s.priority[j]);
  }

  // ---------- when the gap stays bounded ----------

  ghost predicate GapWithin(s: State, i: nat, j: nat, c: int) {
    && i < |s.runs| == |s.priority| && j < |s.runs|
    && -c <= Gap(s.runs[i], s.priority[i], s.runs[j], s.priority[j]) <= c
  }

  /** However long the run from s. */
  ghost predicate Bounded(s: State, low: Word, i: nat, j: nat, c: nat) {
    forall r :: Run(r, low) && r[0] == s ==> GapWithin(r[|r| - 1], i, j, c)
  }

  lemma Cancel(a: int, b: int, p: int)
    requires p >= 1 && a * p < b * p
    ensures a < b
  {
    if a >= b {
      Times(b, a, p);
    }
  }

  lemma SmallGap(gap: int, p: int, wi: nat, wj: nat)
    requires p >= 1 && -(BIG_STRIDE * wj) <= p * gap <= BIG_STRIDE * wj
    requires BIG_STRIDE < p * wi + wi && wj >= 1
    ensures -(2 * wi * wj) < gap < 2 * wi * wj
  {
    var c := 2 * wi * wj;
    Times(1, p, wi);
    Times(BIG_STRIDE + 1, 2 * (p * wi), wj);
    assert (BIG_STRIDE + 1) * wj == BIG_STRIDE * wj + wj;
    assert 2 * (p * wi) * wj == c * p && -c * p == -(c * p) && gap * p == p * gap;
    Cancel(gap, c, p);
    Cancel(-c, gap, p);
  }

  lemma SameRestIsBounded(ri: nat, qi: Word, rj: nat, qj: Word)
    requires Drift(ri, qi, rj, qj) && Rest(qi) == Rest(qj) && qi <= BIG_STRIDE
    ensures
      var c := 2 * Weight(qi) * Weight(qj);
      -c <= Gap(ri, qi, rj, qj) <= c
  {
    WeightAndPass(qi);
    PassZero(qi);
    PassSmall(qi);
    assert rj * (Rest(qi) - Rest(qj)) == 0;
    SmallGap(Gap(ri, qi, rj, qj), Pass(qi), Weight(qi), Weight(qj));
  }

  lemma LargeGap(gap: int, p: nat, c: int, bound: int, r: nat, d: int)
    requires d != 0 && -bound <= p * gap - r * d <= bound && r > p * c + bound
    ensures !(-c <= gap <= c)
  {
    assert gap * p == p * gap && c * p == p * c && d * r == r * d && -1 * r == 0 - r;
    if -c <= gap <= c {
      Between(gap, c, p);
      if d > 0 {
        Times(1, d, r);
      } else {
        Times(d, -1, r);
      }
    }
  }

  lemma OtherRestIsLarge(ri: nat, qi: Word, rj: nat, qj: Word, c: int)
    requires Drift(ri, qi, rj, qj) && Rest(qi) != Rest(qj)
    requires rj > Pass(qi) * c + BIG_STRIDE * Weight(qj)
    ensures !(-c <= Gap(ri, qi, rj, qj) <= c)
  {
    PassSmall(qi);
    LargeGap(Gap(ri, qi, rj, qj), Pass(qi), c, BIG_STRIDE * Weight(qj), rj, Rest(qi) - Rest(qj));
  }

  /** There are runs in which a process is picked as often as one likes. */
  lemma LongRun(s: State, low: Word, j: nat, picks: nat) returns (r: seq<State>)
    requires Shape(s) && Heap(s.heap, low) && Fresh(s, low) && Moderate(s.priority) && j < |s.stride|
    ensures Run(r, low) && r[0] == s && |r[|r| - 1].runs| == |s.runs| && r[|r| - 1].runs[j] >= picks
  {
    var turn := Turns(s.priority) + 1;
    r := RunOf(s, low, picks * turn);
    PickedOften(r, low, j, picks, turn);
  }

  lemma Exceeds(s: State, low: Word, i: nat, j: nat, c: nat) returns (r: seq<State>)
    requires Shape(s) && Heap(s.heap, low) && Fresh(s, low) && Moderate(s.priority)
    requires i < |s.stride| && j < |s.stride| && Rest(s.priority[i]) != Rest(s.priority[j])
    ensures Run(r, low) && r[0] == s && !GapWithin(r[|r| - 1], i, j, c)
  {
    var qi, qj := s.priority[i], s.priority[j];
    PassSmall(qi);
    var picks := Pass(qi) * c + BIG_STRIDE * Weight(qj) + 1;
    r := LongRun(s, low, j, picks);
    SharesByPriority(r, low, i, j);
    var last := r[|r| - 1];
    OtherRestIsLarge(last.runs[i], qi, last.runs[j], qj, c);
  }

  lemma StaysBounded(s: State, low: Word, i: nat, j: nat)
    requires Fresh(s, low) && Moderate(s.priority) && Shape(s) && i < |s.stride| && j < |s.stride|
    requires Rest(s.priority[i]) == Rest(s.priority[j])
    ensures Bounded(s, low, i, j, 2 * Weight(s.priority[i]) * Weight(s.priority[j]))
  {
    var qi, qj := s.priority[i], s.priority[j];
    forall r: seq<State> | Run(r, low) && r[0] == s
      ensures GapWithin(r[|r| - 1], i, j, 2 * Weight(qi) * Weight(qj))
    {
      SharesByPriority(r, low, i, j);
      var last := r[|r| - 1];
      SameRestIsBounded(last.runs[i], qi, last.runs[j], qj);
    }
  }

  /** The picks stay within a constant of the ratio of the priorities, for ever, exactly when
      BIG_STRIDE leaves the same over for both: never for the priorities 1 and 2, say. */
  lemma BoundedIffSameRest(s: State, low: Word, i: nat, j: nat)
    requires Shape(s) && Heap(s.heap, low) && Fresh(s, low) && Moderate(s.priority)
    requires i < |s.stride| && j < |s.stride|
    ensures (exists c: nat :: Bounded(s, low, i, j, c)) <==> Rest(s.priority[i]) == Rest(s.priority[j])
  {
    if Rest(s.priority[i]) == Rest(s.priority[j]) {
      StaysBounded(s, low, i, j);
    } else {
      forall c: nat
        ensures !Bounded(s, low, i, j, c)
      {
        var r := Exceeds(s, low, i, j, c);
      }
    }
  }
}
