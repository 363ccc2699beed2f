/** The P&L distribution panel: the executed trades' R values in ascending
    order, their mean, median and variance, floor-index percentiles, and a
    histogram whose number of bins grows with the number of trades (one bin
    per three trades, at least five and at most ten), each bin colouring
    itself as loss, profit or mixed. */
module PLDistribution {
  import opened Seqs
  import opened Journal
  import opened Partition
  import opened Stats

  const MinBins: nat := 5
  const MaxBins: nat := 10

  /** One histogram bar; the text label is presentation and is not modelled. */
  datatype Bin = Bin(count: nat, percentage: real, minR: real, maxR: real)

  datatype Percentiles = Percentiles(p5: real, p25: real, p75: real, p95: real)

  /** The statistics block. Without trades every figure is 0 and there are no percentiles. */
  datatype PLStats = PLStats(mean: real, median: real, variance: real, minR: real, maxR: real, percentiles: Option<Percentiles>)

  /** `Math.ceil(n / 3)` for a count of trades. */
  function CeilThird(n: nat): (k: nat)
    ensures 3 * k >= n && 3 * k < n + 3
  {
    (n + 2) / 3
  }

  /** min(10, max(5, ceil(n/3))): always between five and ten bins. */
  function BinCount(n: nat): (c: nat)
    ensures MinBins <= c <= MaxBins
    ensures MinBins < c < MaxBins ==> c == CeilThird(n)
    ensures c == MinBins <==> n <= 3 * MinBins
    ensures c == MaxBins <==> n > 3 * (MaxBins - 1)
  {
    var third := CeilThird(n);
    var atLeast := if third > MinBins then third else MinBins;
    if atLeast < MaxBins then atLeast else MaxBins
  }

  /** The index a percentile reads: floor(n * f) for a fraction f in [0, 1). */
  function FloorIndex(n: nat, f: real): (k: nat)
    requires n > 0 && 0.0 <= f < 1.0
    ensures k < n && k as real <= n as real * f < (k + 1) as real
  {
    assert 0.0 <= n as real * f < n as real by {
      assert n as real - n as real * f == n as real * (1.0 - f);
    }
    (n as real * f).Floor
  }

  lemma FloorIndexMonotone(n: nat, f: real, h: real)
    requires n > 0 && 0.0 <= f <= h < 1.0
    ensures FloorIndex(n, f) <= FloorIndex(n, h)
  {
    var x, y := n as real * f, n as real * h;
    assert y - x == n as real * (h - f);
    ProductNonNegative(n as real, h - f);
    assert x <= y;
  }

  lemma ProductNonNegative(a: real, b: real)
    requires a >= 0.0 && b >= 0.0
    ensures a * b >= 0.0
  {
  }

  /** The statistics over the ascending values; all zero without trades. */
  function ComputeStats(sorted: seq<real>): (st: PLStats)
    requires forall i, j :: 0 <= i < j < |sorted| ==> sorted[i] <= sorted[j]
    ensures sorted == [] ==> st == PLStats(0.0, 0.0, 0.0, 0.0, 0.0, None)
    ensures sorted != [] ==>
      && st.mean == Mean(sorted) && st.variance == Variance(sorted) && st.variance >= 0.0
      && st.minR == sorted[0] && st.maxR == sorted[|sorted| - 1]
      && st.median == Median(sorted) && st.minR <= st.median <= st.maxR
      && st.percentiles.Some?
    ensures sorted != [] ==> st.percentiles == Some(Percentiles(
      sorted[FloorIndex(|sorted|, 0.05)], sorted[FloorIndex(|sorted|, 0.25)],
      sorted[FloorIndex(|sorted|, 0.75)], sorted[FloorIndex(|sorted|, 0.95)]))
  {
    if sorted == [] then PLStats(0.0, 0.0, 0.0, 0.0, 0.0, None)
    else
      var n := |sorted|;
      MedianSplits(sorted);
      PLStats(Mean(sorted), Median(sorted), Variance(sorted), sorted[0], sorted[n - 1],
        Some(Percentiles(sorted[FloorIndex(n, 0.05)], sorted[FloorIndex(n, 0.25)],
          sorted[FloorIndex(n, 0.75)], sorted[FloorIndex(n, 0.95)])))
  }

  /** The four percentiles are non-decreasing and lie within the range. */
  lemma PercentilesOrdered(sorted: seq<real>)
    requires sorted != []
    requires forall i, j :: 0 <= i < j < |sorted| ==> sorted[i] <= sorted[j]
    ensures var st := ComputeStats(sorted); var pc := st.percentiles.value;
      st.minR <= pc.p5 <= pc.p25 <= pc.p75 <= pc.p95 <= st.maxR
  {
    var n := |sorted|;
    FloorIndexMonotone(n, 0.05, 0.25);
    FloorIndexMonotone(n, 0.25, 0.75);
    FloorIndexMonotone(n, 0.75, 0.95);
  }

  /** The grid over [min R, max R] with the number of bins the trade count asks for. */
  function BinGrid(sorted: seq<real>): (g: Grid)
    requires sorted != []
    ensures g.count == BinCount(|sorted|)
    ensures Edge(g, 0) == sorted[0] && Edge(g, g.count) == sorted[|sorted| - 1]
  {
    EvenGrid(sorted[0], sorted[|sorted| - 1], BinCount(|sorted|))
  }

  /** Bin `i`: from its lower edge to the next edge, the last one to max R itself; its
      count, and that count as a percentage of all trades. */
  function BinAt(sorted: seq<real>, g: Grid, i: nat): (b: Bin)
    requires sorted != []
    ensures b.minR == Edge(g, i)
    ensures b.count == |Members(sorted, GridMembership(g), i)|
    ensures b.percentage == b.count as real / |sorted| as real * 100.0
    ensures 0.0 <= b.percentage <= 100.0
  {
    var n := |sorted|;
    var binMax := if i == g.count - 1 then sorted[n - 1] else Edge(g, i + 1);
    var count := |Members(sorted, GridMembership(g), i)|;
    assert count as real / n as real <= 1.0;
    Bin(count, count as real / n as real * 100.0, Edge(g, i), binMax)
  }

  /** The histogram over the ascending values; no bins without trades. */
  function Histogram(sorted: seq<real>): (bs: seq<Bin>)
    ensures sorted == [] ==> bs == []
    ensures sorted != [] ==> |bs| == BinCount(|sorted|)
    ensures sorted != [] ==> forall i :: 0 <= i < |bs| ==> bs[i] == BinAt(sorted, BinGrid(sorted), i)
  {
    if sorted == [] then []
    else
      var g := BinGrid(sorted);
      seq(g.count, i requires 0 <= i < g.count => BinAt(sorted, g, i))
  }

  /** The panel's computation: the ascending R values, their statistics and the histogram. */
  method Distribution(trades: seq<Trade>) returns (bins: seq<Bin>, stats: PLStats)
    ensures bins == Histogram(Ascending(RValues(trades)))
    ensures stats == ComputeStats(Ascending(RValues(trades)))
  {
    if |trades| == 0 {
      return [], PLStats(0.0, 0.0, 0.0, 0.0, 0.0, None);
    }
    var rValues := Ascending(RValues(trades));
    bins := BuildBins(rValues);
    stats := ComputeStats(rValues);
  }

  /** The histogram loop: bin by bin over the grid from the first to the last value. */
  method BuildBins(rValues: seq<real>) returns (bins: seq<Bin>)
    requires rValues != []
    ensures bins == Histogram(rValues)
  {
    var n := |rValues|;
    var minR, maxR := rValues[0], rValues[n - 1];
    var binCount := BinCount(n);
    var binWidth := (maxR - minR) / binCount as real;
    var g := Grid(minR, binWidth, binCount);
    assert g == BinGrid(rValues);
    bins := [];
    for i := 0 to binCount
      invariant |bins| == i
      invariant forall j :: 0 <= j < i ==> bins[j] == BinAt(rValues, g, j)
    {
      var binMin := Edge(g, i);
      var binMax := if i == binCount - 1 then maxR else Edge(g, i + 1);
      var count := |Members(rValues, GridMembership(g), i)|;
      bins := bins + [Bin(count, count as real / n as real * 100.0, binMin, binMax)];
    }
  }

  /** Every bin ends where the next starts and the last one at max R, which is the end of
      the grid: values at max R fall in the last bin, which is closed. */
  lemma BinsTile(sorted: seq<real>)
    requires sorted != []
    ensures var bs := Histogram(sorted); var g := BinGrid(sorted);
      && bs[0].minR == sorted[0]
      && bs[|bs| - 1].maxR == sorted[|sorted| - 1]
      && (forall i :: 0 <= i < |bs| ==> bs[i].maxR == Edge(g, i + 1))
      && (forall i :: 0 <= i < |bs| - 1 ==> bs[i].maxR == bs[i + 1].minR)
  {
  }

  /** Sum of the bin counts. */
  function CountSum(bs: seq<Bin>): nat
  {
    if bs == [] then 0 else CountSum(bs[..|bs| - 1]) + bs[|bs| - 1].count
  }

  /** Sum of the bin percentages. */
  function PercentSum(bs: seq<Bin>): real
  {
    if bs == [] then 0.0 else PercentSum(bs[..|bs| - 1]) + bs[|bs| - 1].percentage
  }

  lemma {:induction false} PrefixCounts(sorted: seq<real>, k: nat)
    requires sorted != [] && k <= BinCount(|sorted|)
    ensures CountSum(Histogram(sorted)[..k]) == CountsBelow(sorted, GridMembership(BinGrid(sorted)), k)
  {
    if k > 0 {
      PrefixCounts(sorted, k - 1);
      assert Histogram(sorted)[..k][..k - 1] == Histogram(sorted)[..k - 1];
    }
  }

  lemma ShareAdd(a: real, b: real, n: real)
    requires n > 0.0
    ensures a / n * 100.0 + b / n * 100.0 == (a + b) / n * 100.0
  {
    assert (a + b) / n == a / n + b / n;
  }

  lemma WholeShare(n: real)
    requires n > 0.0
    ensures n / n * 100.0 == 100.0
  {
  }

  lemma {:induction false} PrefixPercents(bs: seq<Bin>, n: nat)
    requires n > 0
    requires forall i :: 0 <= i < |bs| ==> bs[i].percentage == bs[i].count as real / n as real * 100.0
    ensures PercentSum(bs) == CountSum(bs) as real / n as real * 100.0
  {
    if bs != [] {
      var init := bs[..|bs| - 1];
      assert forall i :: 0 <= i < |init| ==> init[i] == bs[i];
      PrefixPercents(init, n);
      ShareAdd(CountSum(init) as real, bs[|bs| - 1].count as real, n as real);
    }
  }

  /** Every trade lands in exactly one bin: the counts add up to the number of trades. */
  lemma BinCountsPartition(sorted: seq<real>)
    requires sorted != []
    requires forall i, j :: 0 <= i < j < |sorted| ==> sorted[i] <= sorted[j]
    ensures CountSum(Histogram(sorted)) == |sorted|
  {
    var c := BinCount(|sorted|);
    PrefixCounts(sorted, c);
    assert Histogram(sorted)[..c] == Histogram(sorted);
    EvenGridPartition(sorted, sorted[0], sorted[|sorted| - 1], c);
  }

  /** The bin percentages add up to 100. */
  lemma PercentagesSumTo100(sorted: seq<real>)
    requires sorted != []
    requires forall i, j :: 0 <= i < j < |sorted| ==> sorted[i] <= sorted[j]
    ensures PercentSum(Histogram(sorted)) == 100.0
  {
    var bs := Histogram(sorted);
    var n := |sorted|;
    BinCountsPartition(sorted);
    forall i | 0 <= i < |bs| ensures bs[i].percentage == bs[i].count as real / n as real * 100.0 {
      assert bs[i] == BinAt(sorted, BinGrid(sorted), i);
    }
    PrefixPercents(bs, n);
    WholeShare(n as real);
  }

  datatype BinColor = Loss | Profit | Mixed

  /** Loss when the bin ends at or below 0, otherwise profit when it starts at or above 0,
      otherwise mixed. */
  function GetBinColor(minR: real, maxR: real): (c: BinColor)
    ensures c == Loss <==> maxR <= 0.0
    ensures c == Profit <==> maxR > 0.0 && minR >= 0.0
    ensures c == Mixed <==> minR < 0.0 < maxR
  {
    if maxR <= 0.0 then Loss
    else if minR >= 0.0 then Profit
    else Mixed
  }

  /** A loss-coloured bin holds no winning trade and a profit-coloured bin no losing one. */
  lemma BinColorDescribesTrades(sorted: seq<real>, i: nat)
    requires sorted != [] && i < BinCount(|sorted|)
    ensures var b := Histogram(sorted)[i]; var ms := Members(sorted, GridMembership(BinGrid(sorted)), i);
      && (GetBinColor(b.minR, b.maxR) == Loss ==> forall j :: 0 <= j < |ms| ==> ms[j] <= 0.0)
      && (GetBinColor(b.minR, b.maxR) == Profit ==> forall j :: 0 <= j < |ms| ==> ms[j] >= 0.0)
  {
    var g := BinGrid(sorted);
    var ms := Members(sorted, GridMembership(g), i);
    forall j | 0 <= j < |ms| ensures Edge(g, i) <= ms[j] <= Edge(g, i + 1) {
      assert GridMembership(g)(i, ms[j]);
    }
  }

  /** The panel's figures are the figures of the trades in any order: sorting first does
      not change the mean, and the range is the smallest and the largest R. */
  lemma StatsOfTrades(rs: seq<real>)
    requires rs != []
    ensures ComputeStats(Ascending(rs)).mean == Mean(rs)
    ensures ComputeStats(Ascending(rs)).minR == Min(rs)
    ensures ComputeStats(Ascending(rs)).maxR == Max(rs)
  {
    AscendingMean(rs);
    AscendingEnds(rs);
  }
}
