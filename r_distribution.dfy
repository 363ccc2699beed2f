/** The R-distribution widget: twelve fixed buckets of half an R each, from
    "-2.0R" (everything below -1.75) to "3.5R+" (everything from 3.25 up).
    Each trade adds one to the count of its bucket and its R to the bucket's
    total; the buckets nobody landed in are dropped. */
module RDistribution {
  import opened Seqs
  import opened Journal
  import opened Partition

  const BucketTotal: nat := 12

  /** The bucket labels, lowest first. */
  const BucketLabels: seq<string> :=
    ["-2.0R", "-1.5R", "-1.0R", "-0.5R", "0R", "0.5R", "1.0R", "1.5R", "2.0R", "2.5R", "3.0R", "3.5R+"]

  /** One bucket. Its display range and its label are the same text, kept once. */
  datatype RBucket = RBucket(range: string, count: nat, totalR: real)

  /** The upper threshold of bucket `k` for k < 11: -1.75 + k/2, the least R of the
      next bucket. */
  function Threshold(k: nat): (t: real)
    ensures k < 11 ==> BucketIndex(t) == k + 1
  {
    -1.75 + 0.5 * k as real
  }

  /** The chain of comparisons that picks a trade's bucket. */
  function BucketIndex(r: real): (k: nat)
    ensures k < BucketTotal
  {
    if r < -1.75 then 0
    else if r < -1.25 then 1
    else if r < -0.75 then 2
    else if r < -0.25 then 3
    else if r < 0.25 then 4
    else if r < 0.75 then 5
    else if r < 1.25 then 6
    else if r < 1.75 then 7
    else if r < 2.25 then 8
    else if r < 2.75 then 9
    else if r < 3.25 then 10
    else 11
  }

  /** Bucket `k` holds exactly the values from the threshold below it (none for the first)
      up to, not including, its own threshold (none for the last). */
  lemma BucketIndexInterval(r: real, k: nat)
    requires k < BucketTotal
    ensures BucketIndex(r) == k <==>
      (k == 0 || Threshold(k - 1) <= r) && (k == BucketTotal - 1 || r < Threshold(k))
  {
  }

  /** A larger R never lands in a lower bucket. */
  lemma BucketIndexMonotone(r: real, s: real)
    requires r <= s
    ensures BucketIndex(r) <= BucketIndex(s)
  {
  }

  /** Losses beyond -1.75R all go to "-2.0R" and gains from 3.25R on all go to "3.5R+". */
  lemma OpenEndedBuckets(r: real)
    ensures r < -1.75 <==> BucketLabels[BucketIndex(r)] == "-2.0R"
    ensures r >= 3.25 <==> BucketLabels[BucketIndex(r)] == "3.5R+"
  {
  }

  /** The bucket membership as a single value: `r` belongs to bucket `k` when it indexes it. */
  function RMembership(): (nat, real) -> bool
  {
    (k: nat, r: real) => BucketIndex(r) == k
  }

  /** Bucket `k` after every value of `rs` has been added. */
  function BucketOf(rs: seq<real>, k: nat): (b: RBucket)
    requires k < BucketTotal
    ensures b.range == BucketLabels[k]
    ensures b.count == |Members(rs, RMembership(), k)| && b.totalR == Sum(Members(rs, RMembership(), k))
  {
    var ms := Members(rs, RMembership(), k);
    RBucket(BucketLabels[k], |ms|, Sum(ms))
  }

  /** All twelve buckets in order. */
  function AllBuckets(rs: seq<real>): (bs: seq<RBucket>)
    ensures |bs| == BucketTotal && forall k :: 0 <= k < BucketTotal ==> bs[k] == BucketOf(rs, k)
  {
    seq(BucketTotal, k requires 0 <= k < BucketTotal => BucketOf(rs, k))
  }

  predicate Occupied(b: RBucket)
  {
    b.count > 0
  }

  /** The widget's result: nothing without trades, otherwise the occupied buckets in order. */
  function Histogram(rs: seq<real>): (bs: seq<RBucket>)
    ensures forall i :: 0 <= i < |bs| ==> bs[i].count > 0
    ensures rs != [] ==> forall k :: 0 <= k < BucketTotal && Occupied(BucketOf(rs, k)) ==> BucketOf(rs, k) in bs
    ensures IsSubsequence(bs, AllBuckets(rs))
  {
    if rs == [] then []
    else
      FilterIsSubsequence(AllBuckets(rs), Occupied);
      FilterSpec(AllBuckets(rs), Occupied);
      Filter(AllBuckets(rs), Occupied)
  }

  /** The widget's loop: twelve zeroed buckets in an array, one update per trade, then the
      occupied ones. */
  method Distribute(trades: seq<Trade>) returns (result: seq<RBucket>)
    ensures result == Histogram(RValues(trades))
  {
    if |trades| == 0 {
      return [];
    }
    ghost var rs := RValues(trades);
    var buckets := new RBucket[BucketTotal](k requires 0 <= k < BucketTotal => RBucket(BucketLabels[k], 0, 0.0));
    forall k | 0 <= k < BucketTotal ensures buckets[k] == BucketOf(rs[..0], k) {
      assert rs[..0] == [];
    }
    for t := 0 to |trades|
      invariant forall k :: 0 <= k < BucketTotal ==> buckets[k] == BucketOf(rs[..t], k)
    {
      AddToBucket(buckets, rs[..t], trades[t].actualR);
      assert rs[..t + 1] == rs[..t] + [trades[t].actualR];
    }
    assert rs[..|trades|] == rs;
    assert buckets[..] == AllBuckets(rs);
    result := Filter(buckets[..], Occupied);
  }

  /** The body of the loop: the bucket of `r` counts one more trade and adds `r` to its total. */
  method AddToBucket(buckets: array<RBucket>, ghost done: seq<real>, r: real)
    requires buckets.Length == BucketTotal
    requires forall k :: 0 <= k < BucketTotal ==> buckets[k] == BucketOf(done, k)
    modifies buckets
    ensures forall k :: 0 <= k < BucketTotal ==> buckets[k] == BucketOf(done + [r], k)
  {
    var bucketIndex := BucketIndex(r);
    buckets[bucketIndex] := buckets[bucketIndex].(count := buckets[bucketIndex].count + 1,
                                                   totalR := buckets[bucketIndex].totalR + r);
    forall k | 0 <= k < BucketTotal ensures buckets[k] == BucketOf(done + [r], k) {
      BucketOfStep(done, r, k);
    }
  }

  /** One more value: its own bucket counts it and adds it to its total, the others stay. */
  lemma BucketOfStep(done: seq<real>, r: real, k: nat)
    requires k < BucketTotal
    ensures BucketOf(done + [r], k) ==
      if BucketIndex(r) == k
      then BucketOf(done, k).(count := BucketOf(done, k).count + 1, totalR := BucketOf(done, k).totalR + r)
      else BucketOf(done, k)
  {
    MembersAppend(done, [r], RMembership(), k);
    assert Members([r], RMembership(), k) == if BucketIndex(r) == k then [r] else [] by {
      assert [r][1..] == [];
    }
    if BucketIndex(r) == k {
      SumAppend(Members(done, RMembership(), k), [r]);
      SumSingleton(r);
    } else {
      assert Members(done, RMembership(), k) + [] == Members(done, RMembership(), k);
    }
  }

  /** Sum of the bucket counts. */
  function CountSum(bs: seq<RBucket>): nat
  {
    if bs == [] then 0 else CountSum(bs[..|bs| - 1]) + bs[|bs| - 1].count
  }

  /** Sum of the bucket totals. */
  function TotalSum(bs: seq<RBucket>): real
  {
    if bs == [] then 0.0 else TotalSum(bs[..|bs| - 1]) + bs[|bs| - 1].totalR
  }

  lemma {:induction false} SumsAppend(a: seq<RBucket>, b: seq<RBucket>)
    ensures CountSum(a + b) == CountSum(a) + CountSum(b)
    ensures TotalSum(a + b) == TotalSum(a) + TotalSum(b)
    decreases |b|
  {
    if b == [] {
      assert a + b == a;
    } else {
      assert (a + b)[..|a + b| - 1] == a + b[..|b| - 1];
      SumsAppend(a, b[..|b| - 1]);
    }
  }

  /** Dropping buckets that hold nothing changes neither sum. */
  lemma {:induction false} DropEmptyKeepsSums(bs: seq<RBucket>)
    requires forall i :: 0 <= i < |bs| ==> bs[i].count == 0 ==> bs[i].totalR == 0.0
    ensures CountSum(Filter(bs, Occupied)) == CountSum(bs)
    ensures TotalSum(Filter(bs, Occupied)) == TotalSum(bs)
  {
    if bs != [] {
      var rest := bs[1..];
      assert bs == [bs[0]] + rest;
      DropEmptyKeepsSums(rest);
      SumsAppend([bs[0]], rest);
      assert [bs[0]][..0] == [];
      if Occupied(bs[0]) {
        assert Filter(bs, Occupied) == [bs[0]] + Filter(rest, Occupied);
        SumsAppend([bs[0]], Filter(rest, Occupied));
      } else {
        assert Filter(bs, Occupied) == Filter(rest, Occupied);
      }
    }
  }

  /** The first `k` buckets of a row whose bucket `i` holds the members of bin `i` add up to
      the counts and totals of bins 0 .. k-1. */
  lemma {:induction false} PrefixSums(bs: seq<RBucket>, rs: seq<real>, mem: (nat, real) -> bool, k: nat)
    requires k <= |bs|
    requires forall i :: 0 <= i < |bs| ==>
      bs[i].count == |Members(rs, mem, i)| && bs[i].totalR == Sum(Members(rs, mem, i))
    ensures CountSum(bs[..k]) == CountsBelow(rs, mem, k)
    ensures TotalSum(bs[..k]) == TotalsBelow(rs, mem, k)
  {
    if k > 0 {
      PrefixSums(bs, rs, mem, k - 1);
      PrefixStep(bs, k);
    }
  }

  lemma PrefixStep(bs: seq<RBucket>, k: nat)
    requires 0 < k <= |bs|
    ensures CountSum(bs[..k]) == CountSum(bs[..k - 1]) + bs[k - 1].count
    ensures TotalSum(bs[..k]) == TotalSum(bs[..k - 1]) + bs[k - 1].totalR
  {
    assert bs[..k][..k - 1] == bs[..k - 1];
  }

  /** A whole row of such buckets adds up to the counts and totals of all its bins. */
  lemma RowSums(bs: seq<RBucket>, rs: seq<real>, mem: (nat, real) -> bool)
    requires forall i :: 0 <= i < |bs| ==>
      bs[i].count == |Members(rs, mem, i)| && bs[i].totalR == Sum(Members(rs, mem, i))
    ensures CountSum(bs) == CountsBelow(rs, mem, |bs|)
    ensures TotalSum(bs) == TotalsBelow(rs, mem, |bs|)
  {
    PrefixSums(bs, rs, mem, |bs|);
    assert bs[..|bs|] == bs;
  }

  /** Every value lands in exactly one of the twelve buckets. */
  lemma BucketsPartition(rs: seq<real>)
    ensures CountsBelow(rs, RMembership(), BucketTotal) == |rs|
    ensures TotalsBelow(rs, RMembership(), BucketTotal) == Sum(rs)
  {
    forall i | 0 <= i < |rs| ensures InExactlyOne(rs[i], RMembership(), BucketTotal) {
      var k := BucketIndex(rs[i]);
      assert RMembership()(k, rs[i]);
    }
    BinsPartition(rs, RMembership(), BucketTotal);
  }

  /** A bucket nobody landed in has a total of 0. */
  lemma EmptyBucketsHoldNothing(rs: seq<real>)
    ensures forall i :: 0 <= i < |AllBuckets(rs)| && AllBuckets(rs)[i].count == 0 ==> AllBuckets(rs)[i].totalR == 0.0
  {
    var all := AllBuckets(rs);
    forall i | 0 <= i < |all| && all[i].count == 0 ensures all[i].totalR == 0.0 {
      assert Members(rs, RMembership(), i) == [];
    }
  }

  /** Every trade is counted once: the counts of the shown buckets add up to the number of
      trades, and their totals to the total R. */
  lemma HistogramPartitions(rs: seq<real>)
    ensures CountSum(Histogram(rs)) == |rs|
    ensures TotalSum(Histogram(rs)) == Sum(rs)
  {
    if rs != [] {
      var all := AllBuckets(rs);
      assert Histogram(rs) == Filter(all, Occupied);
      AllBucketsPartition(rs);
      EmptyBucketsHoldNothing(rs);
      DropEmptyKeepsSums(all);
    }
  }

  /** The twelve buckets, empty ones included, add up to the number of values and their sum. */
  lemma AllBucketsPartition(rs: seq<real>)
    ensures CountSum(AllBuckets(rs)) == |rs| && TotalSum(AllBuckets(rs)) == Sum(rs)
  {
    RowSums(AllBuckets(rs), rs, RMembership());
    BucketsPartition(rs);
  }
}
