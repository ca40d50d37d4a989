/** Partition points of sequences: what a binary search returns on sorted data. */
module Search {

  predicate Partitioned<T>(s: seq<T>, p: T -> bool) {
    forall i, j | 0 <= i < j < |s| && p(s[j]) :: p(s[i])
  }

  /** The first index whose element fails `p`. */
  function PartitionPoint<T>(s: seq<T>, p: T -> bool): (k: nat)
    ensures k <= |s|
    ensures forall i | 0 <= i < k :: p(s[i])
    ensures k < |s| ==> !p(s[k])
  {
    if s == [] || !p(s[0]) then 0 else 1 + PartitionPoint(s[1..], p)
  }

  lemma {:induction false} PartitionPointIs<T>(s: seq<T>, p: T -> bool, k: nat)
    requires k <= |s| && (forall i | 0 <= i < k :: p(s[i])) && (k < |s| ==> !p(s[k]))
    ensures PartitionPoint(s, p) == k
  {
  }

  /** Bisection finds it on partitioned data. */
  method Bisect<T>(s: seq<T>, p: T -> bool) returns (k: nat)
    requires Partitioned(s, p)
    ensures k == PartitionPoint(s, p)
  {
    var lo, hi := 0, |s|;
    while lo < hi
      invariant 0 <= lo <= hi <= |s|
      invariant forall i | 0 <= i < lo :: p(s[i])
      invariant hi < |s| ==> !p(s[hi])
    {
      var mid := (lo + hi) / 2;
      if p(s[mid]) {
        lo := mid + 1;
      } else {
        hi := mid;
      }
    }
    PartitionPointIs(s, p, lo);
    k := lo;
  }
}
