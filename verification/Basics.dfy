/** What several modules need. */
module Basics {

  datatype Option<+T> = None | Some(value: T)

  const PGSIZE: nat := 4096

  ghost predicate NoDuplicates<T>(s: seq<T>) {
    forall i, j :: 0 <= i < j < |s| ==> s[i] != s[j]
  }

  /** A new item at position k. */
  function Insert<T>(s: seq<T>, k: nat, x: T): (r: seq<T>)
    requires k <= |s|
    ensures |r| == |s| + 1
    ensures forall i :: 0 <= i < |r| ==> r[i] == if i < k then s[i] else if i == k then x else s[i - 1]
  {
    s[..k] + [x] + s[k..]
  }

  function Pow2(k: nat): (r: nat)
    ensures r >= 1
  {
    if k == 0 then 1 else 2 * Pow2(k - 1)
  }

  function AllBelow(n: nat): (r: set<nat>)
    ensures forall i: nat :: i in r <==> i < n
  {
    if n == 0 then {} else AllBelow(n - 1) + {n - 1}
  }

  lemma ProductBounds(a: nat, b: nat)
    requires a >= 1 && b >= 1
    ensures a * b >= a && a * b >= b
  {
    assert a * b == a * (b - 1) + a == (a - 1) * b + b;
  }

  /** Division with remainder has one result only. */
  lemma DivisionIs(x: nat, n: nat, q: nat)
    requires q * n <= x < q * n + n
    ensures x / n == q && x % n == x - q * n
  {
    var d := x / n;
    assert x == d * n + x % n && 0 <= x % n < n;
    if d > q {
      assert d * n == q * n + (d - q) * n;
      ProductBounds(d - q, n);
    } else if d < q {
      assert q * n == d * n + (q - d) * n;
      ProductBounds(q - d, n);
    }
  }

  lemma {:induction false} AllBelowSize(n: nat)
    ensures |AllBelow(n)| == n
  {
    if n > 0 {
      AllBelowSize(n - 1);
    }
  }

  lemma SubsetSize<T>(a: set<T>, b: set<T>)
    requires a <= b
    ensures |a| <= |b| && (a != b ==> |a| < |b|)
  {
    assert b == a + (b - a);
  }
}
