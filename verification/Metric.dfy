// How common prefixes and XOR distances go together: the geometry behind the buckets.
module Metric {
  import opened NodeIds

  // a and b have more than n leading bits in common.
  ghost predicate SharesPast(a: NodeID, b: NodeID, n: int) {
    a == b || BucketOf(a, b) > n
  }

  lemma BucketSymmetric(a: NodeID, b: NodeID)
    ensures BucketOf(a, b) == BucketOf(b, a)
  {
    if a != b {
      BucketIsFirstDifference(a, b);
      FirstDifferenceUnique(b, a, BucketOf(a, b));
    }
  }

  lemma SharedBit(a: NodeID, b: NodeID, n: int, k: nat)
    requires SharesPast(a, b, n) && k <= n && k < 256
    ensures Bit(a, k) == Bit(b, k)
  {
    if a != b {
      BucketIsFirstDifference(a, b);
    }
  }

  // Two nodes in one bucket of p lie on the same side of p's bit: they share more bits
  // with each other than either shares with p.
  lemma SameBucketSharesPast(p: NodeID, q: NodeID, b: NodeID)
    requires BucketOf(p, q) == BucketOf(p, b) >= 0
    ensures SharesPast(q, b, BucketOf(p, q))
  {
    if q != b {
      var i, k := BucketOf(p, q), BucketOf(q, b);
      BucketIsFirstDifference(p, q);
      BucketIsFirstDifference(p, b);
      BucketIsFirstDifference(q, b);
      assert Bit(q, k) != Bit(b, k);
      assert Bit(p, k) == Bit(q, k) || Bit(p, k) == Bit(b, k);
    }
  }

  // A node that shares more bits with b than b does with p is in p's bucket of b.
  lemma SharesPastSameBucket(p: NodeID, b: NodeID, x: NodeID)
    requires p != b && SharesPast(x, b, BucketOf(p, b))
    ensures BucketOf(p, x) == BucketOf(p, b)
  {
    var i := BucketOf(p, b);
    BucketIsFirstDifference(p, b);
    SharedBit(x, b, i, i);
    forall k | 0 <= k < i ensures Bit(p, k) == Bit(x, k) {
      SharedBit(x, b, i, k);
    }
    FirstDifferenceUnique(p, x, i);
  }

  // Nodes q and b that share more bits with each other than x does with b compare with x
  // alike: for every target, x is nearer than b just when it is nearer than q.
  lemma CompareAlike(x: NodeID, b: NodeID, q: NodeID, target: NodeID)
    requires x != b && SharesPast(q, b, BucketOf(x, b))
    ensures BucketOf(x, q) == BucketOf(x, b)
    ensures Nearer(x, b, target) <==> Nearer(x, q, target)
    ensures Nearer(b, x, target) <==> Nearer(q, x, target)
  {
    SharesPastSameBucket(x, b, q);
    NearerByBit(x, b, target);
    NearerByBit(x, q, target);
    NearerIsTotal(x, b, target);
    NearerIsTotal(x, q, target);
  }

  // A contact in a higher bucket of n is strictly nearer to n than any in a lower one.
  lemma HigherBucketNearer(n: NodeID, x: NodeID, y: NodeID)
    requires y != n && SharesPast(n, x, BucketOf(n, y))
    ensures Nearer(x, y, n)
  {
    var j := BucketOf(n, y);
    BucketSymmetric(n, y);
    BucketSymmetric(n, x);
    SharesPastSameBucket(y, n, x);
    BucketSymmetric(y, x);
    NearerByBit(x, y, n);
    SharedBit(n, x, j, j);
  }

  // Around the node c nearest to the target, prefix and distance agree: if c beats y and
  // x shares more bits with c than y does, then x beats y too.
  lemma LongerPrefixNearer(c: NodeID, x: NodeID, y: NodeID, target: NodeID)
    requires y != c && Nearer(c, y, target) && SharesPast(x, c, BucketOf(y, c))
    ensures Nearer(x, y, target)
  {
    CompareAlike(y, c, x, target);
  }
}
