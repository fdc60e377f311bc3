/** Cardinalities of finite sets of integers. */
module Counting {
  /** {lo, ..., lo + n - 1} */
  ghost function Range(lo: int, n: nat): (r: set<int>)
    ensures |r| == n && forall b :: b in r <==> lo <= b < lo + n
  {
    if n == 0 then {} else Range(lo, n - 1) + {lo + n - 1}
  }

  lemma SubsetSize(a: set<int>, b: set<int>)
    requires a <= b
    ensures |a| <= |b|
  {
    assert a + (b - a) == b;
  }
}
