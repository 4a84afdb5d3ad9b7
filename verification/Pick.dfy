// The size-tiered choice of what to merge.
module Pick {
  import opened Records

  datatype CompactionPick = CompactionPick(indices: seq<nat>, drop: bool)

  function Span(i: nat, j: nat): seq<nat>
    requires i <= j
  {
    seq(j - i, k requires 0 <= k < j - i => i + k)
  }

  // A maximal run of consecutive tables in one size bucket.
  ghost predicate IsRun(buckets: seq<int>, i: nat, j: nat) {
    && i < j <= |buckets|
    && (forall k :: i <= k < j ==> buckets[k] == buckets[i])
    && (i > 0 ==> buckets[i - 1] != buckets[i])
    && (j < |buckets| ==> buckets[j] != buckets[i])
  }

  ghost predicate Eligible(buckets: seq<int>, minMerge: nat, i: nat, j: nat) {
    IsRun(buckets, i, j) && j - i >= minMerge
  }

  // The eligible run of the smallest bucket; of two in one bucket, the newer.
  ghost predicate IsBest(buckets: seq<int>, minMerge: nat, i: nat, j: nat) {
    && Eligible(buckets, minMerge, i, j)
    && forall i': nat, j': nat :: Eligible(buckets, minMerge, i', j') ==>
         buckets[i] < buckets[i'] || (buckets[i] == buckets[i'] && i <= i')
  }

  method ContiguousToOldest(sorted: seq<nat>, total: nat) returns (b: bool)
    ensures b <==> sorted != [] && sorted[|sorted| - 1] == total - 1 &&
                   forall k :: 0 <= k < |sorted| ==> sorted[k] == sorted[0] + k
  {
    if sorted == [] {
      return false;
    }
    if sorted[|sorted| - 1] != total - 1 {
      return false;
    }
    var k := 0;
    while k < |sorted|
      invariant 0 <= k <= |sorted|
      invariant forall m :: 0 <= m < k ==> sorted[m] == sorted[0] + m
    {
      if sorted[k] != sorted[0] + k {
        return false;
      }
      k := k + 1;
    }
    b := true;
  }

  // Best among the runs that end at or before `upto`.
  ghost predicate BestUpTo(buckets: seq<int>, minMerge: nat, upto: nat, best: Option<(nat, nat)>) {
    match best
    case None => forall i: nat, j: nat :: Eligible(buckets, minMerge, i, j) ==> j > upto
    case Some((i, j)) =>
      && Eligible(buckets, minMerge, i, j) && j <= upto
      && forall i': nat, j': nat :: Eligible(buckets, minMerge, i', j') && j' <= upto ==>
           buckets[i] < buckets[i'] || (buckets[i] == buckets[i'] && i <= i')
  }

  lemma SameRun(buckets: seq<int>, i: nat, j: nat, i': nat, j': nat)
    requires IsRun(buckets, i, j) && IsRun(buckets, i', j')
    ensures j' <= i || j <= i' || (i == i' && j == j')
  {
  }

  // A run that ends within (i, j] is the run from i to j.
  lemma BestStep(buckets: seq<int>, minMerge: nat, i: nat, j: nat, best: Option<(nat, nat)>)
    requires IsRun(buckets, i, j) && BestUpTo(buckets, minMerge, i, best)
    ensures var better := j - i >= minMerge && (best == None || buckets[i] < buckets[best.value.0]);
            var best' := if better then Some((i, j)) else best;
            BestUpTo(buckets, minMerge, j, best')
  {
    forall i': nat, j': nat | Eligible(buckets, minMerge, i', j') && j' <= j ensures j' <= i || (i' == i && j' == j) {
      SameRun(buckets, i, j, i', j');
    }
  }

  // For any bucket function: the pick is a consecutive run, the best one; there is none
  // exactly when no run is long enough; and tombstones may go exactly when the run
  // reaches the oldest table.
  method PickCompaction(sizes: seq<nat>, bucket: nat -> int, minMerge: nat) returns (pick: Option<CompactionPick>)
    ensures var buckets := seq(|sizes|, k requires 0 <= k < |sizes| => bucket(sizes[k]));
            && (minMerge < 2 ==> pick == None)
            && (minMerge >= 2 ==>
                  (pick == None <==> forall i: nat, j: nat :: !Eligible(buckets, minMerge, i, j)))
            && (pick.Some? ==> exists i: nat, j: nat ::
                  && IsBest(buckets, minMerge, i, j)
                  && pick.value == CompactionPick(Span(i, j), j == |sizes|))
  {
    ghost var buckets := seq(|sizes|, k requires 0 <= k < |sizes| => bucket(sizes[k]));
    if minMerge < 2 || |sizes| < minMerge {
      return None;
    }
    var n := |sizes|;
    pick := None;
    var bestBucket := 0;
    ghost var best: Option<(nat, nat)> := None;
    var i: nat := 0;
    while i < n
      invariant 0 <= i <= n && (0 < i < n ==> buckets[i - 1] != buckets[i])
      invariant BestUpTo(buckets, minMerge, i, best)
      invariant pick == None <==> best == None
      invariant best.Some? ==> bestBucket == buckets[best.value.0]
      invariant best.Some? ==> pick.value == CompactionPick(Span(best.value.0, best.value.1), best.value.1 == n)
    {
      var b := bucket(sizes[i]);
      var j: nat := i;
      while j < n && bucket(sizes[j]) == b
        invariant i <= j <= n && forall k :: i <= k < j ==> buckets[k] == b
      {
        j := j + 1;
      }
      assert IsRun(buckets, i, j);
      BestStep(buckets, minMerge, i, j, best);
      if j - i >= minMerge && (pick == None || b < bestBucket) {
        var indices: seq<nat>, k: nat := [], i;
        while k < j
          invariant i <= k <= j && indices == Span(i, k)
        {
          indices := indices + [k];
          k := k + 1;
        }
        var drop := ContiguousToOldest(indices, n);
        assert drop <==> j == n;
        pick := Some(CompactionPick(indices, drop));
        bestBucket := b;
        best := Some((i, j));
      }
      i := j;
    }
    if best.Some? {
      assert IsBest(buckets, minMerge, best.value.0, best.value.1);
    }
  }
}
