/** Counting by injection. */
module Pigeons {
  /** Distinct values below n are at most n. */
  lemma {:induction false} Pigeonhole(f: seq<int>, n: nat)
    requires forall i :: 0 <= i < |f| ==> 0 <= f[i] < n
    requires forall i, j :: 0 <= i < j < |f| ==> f[i] != f[j]
    ensures |f| <= n
  {
    if |f| > 0 {
      assert 0 <= f[0] < n;
      if n - 1 in f {
        var k :| 0 <= k < |f| && f[k] == n - 1;
        Pigeonhole(f[..k] + f[k + 1..], n - 1);
      } else {
        Pigeonhole(f[..|f| - 1], n - 1);
      }
    }
  }
}
