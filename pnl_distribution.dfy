/** The P&L distribution widget: summary statistics of the executed trades'
    R values (mean, median, variance, range and four nearest-rank
    percentiles) and a five-bucket histogram of equal width between the
    smallest and the largest R. */
module PnLDistribution {
  import opened Seqs
  import opened Journal
  import opened Partition
  import opened Stats

  /** The histogram always has five buckets. */
  const BucketCount: nat := 5

  /** One histogram bar. The text label is presentation and is not modelled. */
  datatype Bucket = Bucket(min: real, max: real, count: nat, totalR: real, isProfit: bool)

  datatype Percentiles = Percentiles(p5: real, p25: real, p75: real, p95: real)

  datatype DistributionStats = DistributionStats(
    mean: real, median: real, variance: real, rangeMin: real, rangeMax: real, percentiles: Percentiles)

  /** `Math.ceil`. */
  function Ceil(x: real): (c: int)
    ensures x <= c as real < x + 1.0
  {
    -((-x).Floor)
  }

  lemma CeilMonotone(x: real, y: real)
    requires x <= y
    ensures Ceil(x) <= Ceil(y)
  {
  }

  /** The index `getPercentile` reads: ceil(p/100 * n) - 1, clamped to [0, n-1]. For a
      percentage in (0, 100] no clamping is needed and it is the nearest rank: the
      smallest index k with k + 1 >= p/100 * n. */
  function PercentileIndex(p: real, n: nat): (k: nat)
    requires n > 0
    ensures k < n
    ensures 0.0 < p <= 100.0 ==> k as real < p / 100.0 * n as real <= (k + 1) as real
  {
    var index := Ceil(p / 100.0 * n as real) - 1;
    assert 0.0 < p <= 100.0 ==> 0.0 < p / 100.0 * n as real <= n as real by {
      if 0.0 < p <= 100.0 {
        ScaleWithin(p / 100.0, n as real);
      }
    }
    if index < 0 then 0 else if index > n - 1 then n - 1 else index
  }

  lemma ScaleWithin(f: real, n: real)
    requires 0.0 < f <= 1.0 && n >= 1.0
    ensures 0.0 < f * n <= n
  {
    assert n - f * n == (1.0 - f) * n;
  }

  /** A larger percentage reads an index at least as large. */
  lemma PercentileIndexMonotone(p: real, q: real, n: nat)
    requires n > 0 && p <= q
    ensures PercentileIndex(p, n) <= PercentileIndex(q, n)
  {
    assert q / 100.0 * n as real - p / 100.0 * n as real == (q - p) / 100.0 * n as real;
    CeilMonotone(p / 100.0 * n as real, q / 100.0 * n as real);
  }

  /** `getPercentile` on the ascending values. */
  function Percentile(sorted: seq<real>, p: real): (v: real)
    requires sorted != []
    ensures v == sorted[PercentileIndex(p, |sorted|)]
  {
    sorted[PercentileIndex(p, |sorted|)]
  }

  /** The statistics block: nothing without trades. Mean and variance are taken over the
      values in stored order, the rest over the ascending values. */
  function ComputeStats(rs: seq<real>): (st: Option<DistributionStats>)
    ensures st.None? <==> rs == []
    ensures st.Some? ==>
      && st.value.mean == Mean(rs)
      && st.value.variance >= 0.0
      && st.value.rangeMin == Min(rs) && st.value.rangeMax == Max(rs)
      && st.value.rangeMin <= st.value.median <= st.value.rangeMax
      && st.value.median in rs
    ensures st.Some? ==>
      && st.value.median == Median(Ascending(rs))
      && st.value.variance == Variance(rs)
      && st.value.percentiles == Percentiles(
        Percentile(Ascending(rs), 5.0), Percentile(Ascending(rs), 25.0),
        Percentile(Ascending(rs), 75.0), Percentile(Ascending(rs), 95.0))
  {
    if rs == [] then None
    else
      var sorted := Ascending(rs);
      var n := |sorted|;
      AscendingEnds(rs);
      MedianSplits(sorted);
      assert Median(sorted) in multiset(rs);
      Some(DistributionStats(
        Mean(rs), Median(sorted), Variance(rs), sorted[0], sorted[n - 1],
        Percentiles(Percentile(sorted, 5.0), Percentile(sorted, 25.0), Percentile(sorted, 75.0), Percentile(sorted, 95.0))))
  }

  /** The four percentiles are values of the input, in order, within the range. */
  lemma PercentilesOrdered(rs: seq<real>)
    requires rs != []
    ensures var st := ComputeStats(rs).value; var pc := st.percentiles;
      && st.rangeMin <= pc.p5 <= pc.p25 <= pc.p75 <= pc.p95 <= st.rangeMax
      && pc.p5 in rs && pc.p25 in rs && pc.p75 in rs && pc.p95 in rs
  {
    PercentileIsValue(rs, 5.0);
    PercentileIsValue(rs, 25.0);
    PercentileIsValue(rs, 75.0);
    PercentileIsValue(rs, 95.0);
    PercentileMonotone(rs, 5.0, 25.0);
    PercentileMonotone(rs, 25.0, 75.0);
    PercentileMonotone(rs, 75.0, 95.0);
  }

  /** Every percentile is a value of the input, within its range. */
  lemma PercentileIsValue(rs: seq<real>, p: real)
    requires rs != []
    ensures Percentile(Ascending(rs), p) in rs
    ensures Min(rs) <= Percentile(Ascending(rs), p) <= Max(rs)
  {
    var sorted := Ascending(rs);
    var k := PercentileIndex(p, |rs|);
    AscendingEnds(rs);
    assert sorted[0] <= sorted[k] <= sorted[|rs| - 1];
    assert sorted[k] in multiset(rs);
  }

  /** A larger percentage reads a value at least as large. */
  lemma PercentileMonotone(rs: seq<real>, p: real, q: real)
    requires rs != [] && p <= q
    ensures Percentile(Ascending(rs), p) <= Percentile(Ascending(rs), q)
  {
    PercentileIndexMonotone(p, q, |rs|);
    var sorted := Ascending(rs);
    assert sorted[PercentileIndex(p, |rs|)] <= sorted[PercentileIndex(q, |rs|)];
  }

  /** The grid of the histogram: five equal buckets from the smallest to the largest R. */
  function BucketGrid(rs: seq<real>): (g: Grid)
    requires rs != []
    ensures g.count == BucketCount && Edge(g, 0) == Min(rs) && Edge(g, BucketCount) == Max(rs)
    ensures g.width >= 0.0
  {
    EvenGrid(Min(rs), Max(rs), BucketCount)
  }

  /** Bucket `i`: its bounds, how many values it holds and their total; it counts as
      profit when its lower bound is not negative. */
  function BucketAt(rs: seq<real>, g: Grid, i: nat): (b: Bucket)
    ensures b.min == Edge(g, i) && b.max == Edge(g, i + 1)
    ensures b.count == |Members(rs, GridMembership(g), i)| && b.totalR == Sum(Members(rs, GridMembership(g), i))
    ensures b.isProfit <==> b.min >= 0.0
  {
    var inBucket := Members(rs, GridMembership(g), i);
    Bucket(Edge(g, i), Edge(g, i + 1), |inBucket|, Sum(inBucket), Edge(g, i) >= 0.0)
  }

  /** The histogram: no buckets without trades, otherwise the five buckets in order. */
  function Histogram(rs: seq<real>): (bs: seq<Bucket>)
    ensures rs == [] ==> bs == []
    ensures rs != [] ==> |bs| == BucketCount
    ensures rs != [] ==> forall i :: 0 <= i < BucketCount ==> bs[i] == BucketAt(rs, BucketGrid(rs), i)
  {
    if rs == [] then []
    else
      var g := BucketGrid(rs);
      seq(BucketCount, i requires 0 <= i < BucketCount => BucketAt(rs, g, i))
  }

  /** The widget's computation: the R values of the trades, their statistics and the
      histogram, built bucket by bucket. */
  method Distribution(trades: seq<Trade>) returns (buckets: seq<Bucket>, stats: Option<DistributionStats>)
    ensures buckets == Histogram(RValues(trades))
    ensures stats == ComputeStats(RValues(trades))
  {
    if |trades| == 0 {
      return [], None;
    }
    var rValues := RValues(trades);
    var minR, maxR := Min(rValues), Max(rValues);
    var bucketSize := (maxR - minR) / BucketCount as real;
    var g := Grid(minR, bucketSize, BucketCount);
    assert g == BucketGrid(rValues);
    buckets := FillBuckets(rValues, g);
    stats := ComputeStats(rValues);
  }

  /** The bucket loop: bucket `i` spans edges `i` and `i + 1` of the grid and holds the values
      of bin `i`. */
  method FillBuckets(rValues: seq<real>, g: Grid) returns (buckets: seq<Bucket>)
    requires rValues != [] && g == BucketGrid(rValues)
    ensures buckets == Histogram(rValues)
  {
    buckets := [];
    for i := 0 to BucketCount
      invariant |buckets| == i
      invariant forall j :: 0 <= j < i ==> buckets[j] == BucketAt(rValues, g, j)
    {
      var bucketMin, bucketMax := Edge(g, i), Edge(g, i + 1);
      var tradesInBucket := Members(rValues, GridMembership(g), i);
      buckets := buckets + [Bucket(bucketMin, bucketMax, |tradesInBucket|, Sum(tradesInBucket), bucketMin >= 0.0)];
    }
    assert forall j :: 0 <= j < BucketCount ==> buckets[j] == Histogram(rValues)[j];
  }

  /** Sum of the bucket counts. */
  function CountSum(bs: seq<Bucket>): nat
  {
    if bs == [] then 0 else CountSum(bs[..|bs| - 1]) + bs[|bs| - 1].count
  }

  /** Sum of the bucket totals. */
  function TotalSum(bs: seq<Bucket>): real
  {
    if bs == [] then 0.0 else TotalSum(bs[..|bs| - 1]) + bs[|bs| - 1].totalR
  }

  /** The first `k` buckets of a row whose bucket `i` holds the members of bin `i` add up to
      the counts and totals of bins 0 .. k-1. */
  lemma {:induction false} PrefixSums(bs: seq<Bucket>, rs: seq<real>, mem: (nat, real) -> bool, k: nat)
    requires k <= |bs|
    requires forall i :: 0 <= i < |bs| ==>
      bs[i].count == |Members(rs, mem, i)| && bs[i].totalR == Sum(Members(rs, mem, i))
    ensures CountSum(bs[..k]) == CountsBelow(rs, mem, k)
    ensures TotalSum(bs[..k]) == TotalsBelow(rs, mem, k)
  {
    if k > 0 {
      PrefixSums(bs, rs, mem, k - 1);
      PrefixStep(bs, k);
    }
  }

  lemma PrefixStep(bs: seq<Bucket>, k: nat)
    requires 0 < k <= |bs|
    ensures CountSum(bs[..k]) == CountSum(bs[..k - 1]) + bs[k - 1].count
    ensures TotalSum(bs[..k]) == TotalSum(bs[..k - 1]) + bs[k - 1].totalR
  {
    assert bs[..k][..k - 1] == bs[..k - 1];
  }

  /** A whole row of such buckets adds up to the counts and totals of all its bins. */
  lemma RowSums(bs: seq<Bucket>, rs: seq<real>, mem: (nat, real) -> bool)
    requires forall i :: 0 <= i < |bs| ==>
      bs[i].count == |Members(rs, mem, i)| && bs[i].totalR == Sum(Members(rs, mem, i))
    ensures CountSum(bs) == CountsBelow(rs, mem, |bs|)
    ensures TotalSum(bs) == TotalsBelow(rs, mem, |bs|)
  {
    PrefixSums(bs, rs, mem, |bs|);
    assert bs[..|bs|] == bs;
  }

  /** Every value falls in exactly one bucket: the counts add up to the number of trades
      and the bucket totals to the total R. */
  lemma HistogramPartitions(rs: seq<real>)
    ensures CountSum(Histogram(rs)) == |rs|
    ensures TotalSum(Histogram(rs)) == Sum(rs)
  {
    if rs != [] {
      var bs, mem := Histogram(rs), GridMembership(BucketGrid(rs));
      RowSums(bs, rs, mem);
      EvenGridPartition(rs, Min(rs), Max(rs), BucketCount);
    }
  }

  /** The buckets tile [min R, max R]: the first starts at the smallest value, each ends
      where the next starts, and the last ends at the largest value. */
  lemma BucketsTile(rs: seq<real>)
    requires rs != []
    ensures Histogram(rs)[0].min == Min(rs)
    ensures Histogram(rs)[BucketCount - 1].max == Max(rs)
    ensures forall i :: 0 <= i < BucketCount - 1 ==> Histogram(rs)[i].max == Histogram(rs)[i + 1].min
  {
  }

  /** A bucket marked as profit holds no losing trade. */
  lemma ProfitBucketHasNoLoss(rs: seq<real>, i: nat)
    requires rs != [] && i < BucketCount && Histogram(rs)[i].isProfit
    ensures forall j :: 0 <= j < |Members(rs, GridMembership(BucketGrid(rs)), i)| ==>
      Members(rs, GridMembership(BucketGrid(rs)), i)[j] >= 0.0
  {
    var g := BucketGrid(rs);
    var ms := Members(rs, GridMembership(g), i);
    forall j | 0 <= j < |ms| ensures ms[j] >= 0.0 {
      assert GridMembership(g)(i, ms[j]);
    }
  }

  /** When every trade has the same R the range is empty, the first four buckets are
      empty and the closed last bucket holds every trade. */
  lemma EqualValuesFillLastBucket(rs: seq<real>)
    requires rs != []
    requires forall i, j :: 0 <= i < |rs| && 0 <= j < |rs| ==> rs[i] == rs[j]
    ensures Histogram(rs)[BucketCount - 1].count == |rs|
    ensures forall i :: 0 <= i < BucketCount - 1 ==> Histogram(rs)[i].count == 0
  {
    var g := BucketGrid(rs);
    var mem := GridMembership(g);
    assert rs[0] in rs;
    assert Min(rs) == rs[0] && Max(rs) == rs[0];
    assert g.width == 0.0;
    MembersAll(rs, mem, BucketCount - 1);
    forall i: nat | i < BucketCount - 1 ensures Histogram(rs)[i].count == 0 {
      MembersNone(rs, mem, i);
    }
  }
}
