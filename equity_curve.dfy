/** The equity-curve widget: one point per executed trade in execution-time
    order, carrying the running total of R and the mean R of a rolling
    window of recent trades; then the summary of the curve: total R, the
    latest rolling expectancy, the largest drawdown of the running total, the
    longest winning and losing streaks, and the trend. */
module EquityCurve {
  import opened Seqs
  import opened Journal
  import opened Timeline

  /** The window the widget starts with; the selector offers 5, 10, 20 and 30 trades. */
  const DefaultWindowSize: nat := 10

  datatype CurvePoint = CurvePoint(tradeNumber: nat, cumulativeR: real, rollingExpectancy: real, trade: Trade)

  datatype Trend = Improving | Deteriorating

  datatype Stats = Stats(
    totalR: real,
    currentExpectancy: real,
    maxDrawdown: real,
    maxWinStreak: nat,
    maxLossStreak: nat,
    trend: Trend)

  /** First index of the rolling window that ends at index `i`: `Math.max(0, i - w + 1)`. */
  function WindowStart(i: nat, w: nat): (s: nat)
    requires w >= 1
    ensures s <= i
    ensures i + 1 - s == if w <= i + 1 then w else i + 1
  {
    if i + 1 >= w then i + 1 - w else 0
  }

  /** The point for the `i`-th trade of the time-ordered list `sorted`. */
  function Point(sorted: seq<Trade>, i: nat, w: nat): (p: CurvePoint)
    requires i < |sorted| && w >= 1
    ensures p.tradeNumber == i + 1 && p.trade == sorted[i]
  {
    var rs := RValues(sorted);
    CurvePoint(i + 1, Sum(rs[..i + 1]), Mean(rs[WindowStart(i, w)..i + 1]), sorted[i])
  }

  /** Builds the curve: sorts the trades by execution time and folds a running total over them. */
  method BuildCurve(trades: seq<Trade>, windowSize: nat) returns (curve: seq<CurvePoint>)
    requires windowSize >= 1
    ensures |curve| == |trades|
    ensures forall i :: 0 <= i < |curve| ==> curve[i] == Point(ByExecutionTime(trades), i, windowSize)
  {
    if |trades| == 0 {
      return [];
    }
    var sorted := ByExecutionTime(trades);
    curve := FoldCurve(sorted, windowSize);
  }

  /** The loop over the time-ordered trades: the running total and the window mean of each
      point. */
  method FoldCurve(sorted: seq<Trade>, windowSize: nat) returns (curve: seq<CurvePoint>)
    requires windowSize >= 1
    ensures |curve| == |sorted|
    ensures forall i :: 0 <= i < |curve| ==> curve[i] == Point(sorted, i, windowSize)
  {
    var rs := RValues(sorted);
    var cumulativeR := 0.0;
    curve := [];
    var index := 0;
    while index < |sorted|
      invariant 0 <= index <= |sorted|
      invariant |curve| == index
      invariant cumulativeR == Sum(rs[..index])
      invariant forall i :: 0 <= i < index ==> curve[i] == Point(sorted, i, windowSize)
    {
      PointStep(sorted, index, windowSize, cumulativeR);
      cumulativeR := cumulativeR + sorted[index].actualR;
      var windowStart := if index - windowSize + 1 > 0 then index - windowSize + 1 else 0;
      var windowTrades := rs[windowStart..index + 1];
      var rollingExpectancy := Sum(windowTrades) / |windowTrades| as real;
      var point := CurvePoint(index + 1, cumulativeR, rollingExpectancy, sorted[index]);
      assert point == Point(sorted, index, windowSize);
      curve := curve + [point];
      index := index + 1;
    }
  }

  /** One step of the loop: the running total grows by the trade's R and the window is
      the one `WindowStart` gives. */
  lemma PointStep(sorted: seq<Trade>, i: nat, w: nat, cumulativeR: real)
    requires i < |sorted| && w >= 1
    requires cumulativeR == Sum(RValues(sorted)[..i])
    ensures cumulativeR + sorted[i].actualR == Sum(RValues(sorted)[..i + 1])
    ensures var rs := RValues(sorted);
      var start := if i - w + 1 > 0 then i - w + 1 else 0;
      Point(sorted, i, w) == CurvePoint(i + 1, cumulativeR + sorted[i].actualR,
                                        Sum(rs[start..i + 1]) / |rs[start..i + 1]| as real, sorted[i])
  {
    var rs := RValues(sorted);
    assert rs[..i + 1] == rs[..i] + [rs[i]];
    SumAppend(rs[..i], [rs[i]]);
    SumSingleton(rs[i]);
  }

  /** The last point's running total is the total R of all trades, whatever their stored order. */
  lemma LastPointIsTotal(trades: seq<Trade>, w: nat)
    requires trades != [] && w >= 1
    ensures Point(ByExecutionTime(trades), |trades| - 1, w).cumulativeR == Sum(RValues(trades))
  {
    var sorted := ByExecutionTime(trades);
    var rs := RValues(sorted);
    assert |rs| == |trades|;
    assert Point(sorted, |trades| - 1, w).cumulativeR == Sum(rs[..|rs|]);
    assert rs[..|rs|] == rs;
    ByExecutionTimeKeepsTotals(trades);
  }

  /** The rolling window holds min(w, i + 1) trades, and its mean lies between its smallest and largest R. */
  lemma RollingWindowBounds(sorted: seq<Trade>, i: nat, w: nat, lo: real, hi: real)
    requires i < |sorted| && w >= 1
    requires forall j :: WindowStart(i, w) <= j <= i ==> lo <= sorted[j].actualR <= hi
    ensures lo <= Point(sorted, i, w).rollingExpectancy <= hi
  {
    var rs := RValues(sorted);
    var window := rs[WindowStart(i, w)..i + 1];
    forall j | 0 <= j < |window| ensures lo <= window[j] <= hi {
      assert window[j] == sorted[WindowStart(i, w) + j].actualR;
    }
    MeanBounds(window, lo, hi);
  }

  /** While the window still reaches back to the first trade, the rolling expectancy is the running mean. */
  lemma ShortHistoryIsRunningMean(sorted: seq<Trade>, i: nat, w: nat)
    requires i < |sorted| && 1 <= i + 1 <= w
    ensures Point(sorted, i, w).rollingExpectancy * (i + 1) as real == Point(sorted, i, w).cumulativeR
  {
  }

  // ---- drawdown ----

  /** The running totals of a curve, in order. */
  function Cumulatives(curve: seq<CurvePoint>): (cs: seq<real>)
    ensures |cs| == |curve| && forall i :: 0 <= i < |curve| ==> cs[i] == curve[i].cumulativeR
  {
    seq(|curve|, i requires 0 <= i < |curve| => curve[i].cumulativeR)
  }

  /** The peak after the first `k` points: the largest running total so far, starting from 0. */
  function PeakAfter(cs: seq<real>, k: nat): (p: real)
    requires k <= |cs|
    ensures p >= 0.0 && forall j :: 0 <= j < k ==> cs[j] <= p
  {
    if k == 0 then 0.0
    else
      var peak := PeakAfter(cs, k - 1);
      if cs[k - 1] > peak then cs[k - 1] else peak
  }

  /** The peak is 0 or one of the running totals so far. */
  lemma {:induction false} PeakAttained(cs: seq<real>, k: nat)
    requires k <= |cs|
    ensures PeakAfter(cs, k) == 0.0 || exists j :: 0 <= j < k && cs[j] == PeakAfter(cs, k)
  {
    if k > 0 {
      PeakAttained(cs, k - 1);
    }
  }

  /** The largest drawdown over the first `k` points: a point above the peak becomes the
      new peak; any other point is a drawdown of peak minus its running total. */
  function MaxDrawdownOf(cs: seq<real>, k: nat): (d: real)
    requires k <= |cs|
    ensures d >= 0.0
  {
    if k == 0 then 0.0
    else
      var d := MaxDrawdownOf(cs, k - 1);
      var peak := PeakAfter(cs, k - 1);
      if cs[k - 1] > peak then d
      else if peak - cs[k - 1] > d then peak - cs[k - 1]
      else d
  }

  /** The largest drawdown is at least the fall of the running total from any earlier
      point, and from the starting level 0. */
  lemma DrawdownBoundsEveryFall(cs: seq<real>, k: nat)
    requires k <= |cs|
    ensures forall i, j :: 0 <= j <= i < k ==> cs[j] - cs[i] <= MaxDrawdownOf(cs, k)
    ensures forall i :: 0 <= i < k ==> -cs[i] <= MaxDrawdownOf(cs, k)
  {
    forall i, j | 0 <= j <= i < k ensures cs[j] - cs[i] <= MaxDrawdownOf(cs, k) {
      FallWithin(cs, k, i);
      if j < i {
        assert cs[j] <= PeakAfter(cs, i);
      }
    }
    forall i | 0 <= i < k ensures -cs[i] <= MaxDrawdownOf(cs, k) {
      FallWithin(cs, k, i);
    }
  }

  /** The fall of a point from the peak before it is within the largest drawdown. */
  lemma {:induction false} FallWithin(cs: seq<real>, k: nat, i: nat)
    requires i < k <= |cs|
    ensures PeakAfter(cs, i) - cs[i] <= MaxDrawdownOf(cs, k)
  {
    DrawdownStep(cs, k);
    if i < k - 1 {
      FallWithin(cs, k - 1, i);
    }
  }

  /** One more point: the largest drawdown does not shrink and covers the new fall from the
      peak. */
  lemma DrawdownStep(cs: seq<real>, k: nat)
    requires 0 < k <= |cs|
    ensures MaxDrawdownOf(cs, k - 1) <= MaxDrawdownOf(cs, k)
    ensures PeakAfter(cs, k - 1) - cs[k - 1] <= MaxDrawdownOf(cs, k)
  {
  }

  /** Point `i`, among the first `k`, lies `d` below the peak reached before it. */
  predicate FallAt(cs: seq<real>, k: nat, i: int, d: real)
    requires k <= |cs|
  {
    0 <= i < k && d == PeakAfter(cs, i) - cs[i]
  }

  /** The largest drawdown is 0 or the fall from the peak before some point to that point. */
  lemma {:induction false} DrawdownAttained(cs: seq<real>, k: nat)
    requires k <= |cs|
    ensures MaxDrawdownOf(cs, k) == 0.0 || exists i :: FallAt(cs, k, i, MaxDrawdownOf(cs, k))
  {
    if k > 0 {
      DrawdownAttained(cs, k - 1);
      var d := MaxDrawdownOf(cs, k - 1);
      var peak := PeakAfter(cs, k - 1);
      if cs[k - 1] <= peak && peak - cs[k - 1] > d {
        assert FallAt(cs, k, k - 1, MaxDrawdownOf(cs, k));
      } else if d != 0.0 {
        var i :| FallAt(cs, k - 1, i, d);
        assert FallAt(cs, k, i, MaxDrawdownOf(cs, k));
      }
    }
  }

  /** A running total that never falls below 0 and never decreases has no drawdown. */
  lemma {:induction false} RisingCurveNoDrawdown(cs: seq<real>, k: nat)
    requires k <= |cs|
    requires forall i :: 0 <= i < k ==> cs[i] >= 0.0
    requires forall j, i :: 0 <= j <= i < k ==> cs[j] <= cs[i]
    ensures MaxDrawdownOf(cs, k) == 0.0
  {
    if k > 0 {
      RisingCurveNoDrawdown(cs, k - 1);
      var peak := PeakAfter(cs, k - 1);
      assert peak <= cs[k - 1];
    }
  }

  /** `xs[..i+1]` summed for every `i`: the running totals of a sequence of R values. */
  function PrefixSums(rs: seq<real>): (cs: seq<real>)
    ensures |cs| == |rs|
  {
    seq(|rs|, i requires 0 <= i < |rs| => Sum(rs[..i + 1]))
  }

  /** The curve's running totals are the prefix sums of the time-ordered R values. */
  lemma CurveCumulatives(trades: seq<Trade>, w: nat, curve: seq<CurvePoint>)
    requires w >= 1 && |curve| == |trades|
    requires forall i :: 0 <= i < |curve| ==> curve[i] == Point(ByExecutionTime(trades), i, w)
    ensures Cumulatives(curve) == PrefixSums(RValues(ByExecutionTime(trades)))
  {
  }

  /** A history without a losing trade (every R at least 0) has no drawdown. */
  lemma NoLossNoDrawdown(rs: seq<real>)
    requires forall i :: 0 <= i < |rs| ==> rs[i] >= 0.0
    ensures MaxDrawdownOf(PrefixSums(rs), |rs|) == 0.0
  {
    PrefixSumsRising(rs);
    RisingCurveNoDrawdown(PrefixSums(rs), |rs|);
  }

  /** Without a losing trade the running totals never fall below 0 and never decrease. */
  lemma PrefixSumsRising(rs: seq<real>)
    requires forall i :: 0 <= i < |rs| ==> rs[i] >= 0.0
    ensures forall i :: 0 <= i < |rs| ==> PrefixSums(rs)[i] >= 0.0
    ensures forall j, i :: 0 <= j <= i < |rs| ==> PrefixSums(rs)[j] <= PrefixSums(rs)[i]
  {
    forall j, i | 0 <= j <= i < |rs| ensures 0.0 <= PrefixSums(rs)[j] <= PrefixSums(rs)[i] {
      PrefixSumGrows(rs, j, i);
    }
  }

  lemma PrefixSumGrows(rs: seq<real>, j: nat, i: nat)
    requires j <= i < |rs|
    requires forall m :: 0 <= m < |rs| ==> rs[m] >= 0.0
    ensures 0.0 <= Sum(rs[..j + 1]) <= Sum(rs[..i + 1])
  {
    assert rs[..i + 1] == rs[..j + 1] + rs[j + 1..i + 1];
    SumAppend(rs[..j + 1], rs[j + 1..i + 1]);
    SumNonNegative(rs[j + 1..i + 1]);
    SumNonNegative(rs[..j + 1]);
  }

  /** Trades of +1.5R, -1R and +2R: the running total goes 1.5, 0.5, 2.5, so the
      largest drawdown is 1R. */
  lemma DrawdownExample()
    ensures PrefixSums([1.5, -1.0, 2.0]) == [1.5, 0.5, 2.5]
    ensures MaxDrawdownOf([1.5, 0.5, 2.5], 3) == 1.0
  {
    var rs := [1.5, -1.0, 2.0];
    assert rs[..1] == [1.5] && rs[..2] == [1.5, -1.0] && rs[..3] == rs;
    assert [1.5][..0] == [] && [1.5, -1.0][..1] == [1.5] && rs[..2] == [1.5, -1.0];
    assert Sum([1.5]) == 1.5;
    assert Sum([1.5, -1.0]) == 0.5;
    assert Sum(rs) == 2.5;
    var cs := [1.5, 0.5, 2.5];
    assert PeakAfter(cs, 1) == 1.5 && PeakAfter(cs, 2) == 1.5;
    assert MaxDrawdownOf(cs, 1) == 0.0 && MaxDrawdownOf(cs, 2) == 1.0;
  }

  // ---- streaks ----

  /** The R values of a curve's trades, in curve order. */
  function Outcomes(curve: seq<CurvePoint>): (rs: seq<real>)
    ensures |rs| == |curve| && forall i :: 0 <= i < |curve| ==> rs[i] == curve[i].trade.actualR
  {
    seq(|curve|, i requires 0 <= i < |curve| => curve[i].trade.actualR)
  }

  /** A win is a trade with R above 0; a trade at exactly 0R counts as a loss. */
  predicate IsWin(r: real)
  {
    r > 0.0
  }

  /** Length of the run of wins (`win`) or of losses (`!win`) that ends just before index `k`. */
  function RunEndingAt(rs: seq<real>, k: nat, win: bool): (n: nat)
    requires k <= |rs|
    ensures n <= k
  {
    if k == 0 then 0
    else if IsWin(rs[k - 1]) == win then RunEndingAt(rs, k - 1, win) + 1
    else 0
  }

  /** The longest run of wins (or of losses) among the first `k` trades. */
  function LongestRun(rs: seq<real>, k: nat, win: bool): (n: nat)
    requires k <= |rs|
    ensures n <= k
  {
    if k == 0 then 0
    else
      var best := LongestRun(rs, k - 1, win);
      var run := RunEndingAt(rs, k, win);
      if run > best then run else best
  }

  /** `rs[lo..lo+len]` lies within the first `k` trades and every trade in it has the given outcome. */
  predicate RunWithin(rs: seq<real>, k: nat, lo: int, len: nat, win: bool)
    requires k <= |rs|
  {
    0 <= lo && lo + len <= k && forall m :: lo <= m < lo + len ==> IsWin(rs[m]) == win
  }

  /** Every trade in `rs[lo..hi]` has the given outcome. */
  predicate AllOutcome(rs: seq<real>, lo: int, hi: int, win: bool)
    requires 0 <= lo <= hi <= |rs|
  {
    forall m :: lo <= m < hi ==> IsWin(rs[m]) == win
  }

  lemma {:induction false} RunEndingAtCovers(rs: seq<real>, lo: nat, hi: nat, win: bool)
    requires lo <= hi <= |rs| && AllOutcome(rs, lo, hi, win)
    ensures RunEndingAt(rs, hi, win) >= hi - lo
  {
    if lo < hi {
      RunEndingAtCovers(rs, lo, hi - 1, win);
    }
  }

  lemma {:induction false} RunEndingAtIsRun(rs: seq<real>, k: nat, win: bool)
    requires k <= |rs|
    ensures AllOutcome(rs, k - RunEndingAt(rs, k, win), k, win)
  {
    if k > 0 && IsWin(rs[k - 1]) == win {
      RunEndingAtIsRun(rs, k - 1, win);
    }
  }

  /** The longest run is exactly the length of the longest stretch of consecutive
      trades that all won (or all lost). */
  lemma {:induction false} LongestRunIsLongest(rs: seq<real>, k: nat, win: bool)
    requires k <= |rs|
    ensures forall lo, hi :: 0 <= lo <= hi <= k && AllOutcome(rs, lo, hi, win) ==> hi - lo <= LongestRun(rs, k, win)
    ensures exists lo :: RunWithin(rs, k, lo, LongestRun(rs, k, win), win)
  {
    if k == 0 {
      assert RunWithin(rs, k, 0, LongestRun(rs, k, win), win);
    } else {
      LongestRunIsLongest(rs, k - 1, win);
      forall lo, hi | 0 <= lo <= hi <= k && AllOutcome(rs, lo, hi, win) ensures hi - lo <= LongestRun(rs, k, win) {
        if hi == k {
          RunEndingAtCovers(rs, lo, hi, win);
        }
      }
      var run := RunEndingAt(rs, k, win);
      if run > LongestRun(rs, k - 1, win) {
        RunEndingAtIsRun(rs, k, win);
        assert RunWithin(rs, k, k - run, LongestRun(rs, k, win), win);
      } else {
        var lo :| RunWithin(rs, k - 1, lo, LongestRun(rs, k - 1, win), win);
        assert RunWithin(rs, k, lo, LongestRun(rs, k, win), win);
      }
    }
  }

  /** A winning streak is never longer than the number of wins, a losing one never
      longer than the number of losses, and with any trade at all one of them is at least 1. */
  lemma {:induction false} StreaksWithinCounts(rs: seq<real>, k: nat)
    requires k <= |rs|
    ensures LongestRun(rs, k, true) <= CountPositive(rs[..k])
    ensures LongestRun(rs, k, false) <= k - CountPositive(rs[..k])
    ensures RunEndingAt(rs, k, true) <= CountPositive(rs[..k])
    ensures RunEndingAt(rs, k, false) <= k - CountPositive(rs[..k])
    ensures k > 0 ==> LongestRun(rs, k, true) >= 1 || LongestRun(rs, k, false) >= 1
  {
    if k > 0 {
      StreaksWithinCounts(rs, k - 1);
      assert rs[..k][..k - 1] == rs[..k - 1];
      CountPositiveBound(rs[..k - 1]);
    }
  }

  /** Over a whole curve: the longest winning streak is at most the number of winning
      trades, the longest losing streak at most the number of the others. */
  lemma CurveStreaksWithinCounts(trades: seq<Trade>)
    ensures var rs := RValues(ByExecutionTime(trades));
      && LongestRun(rs, |rs|, true) <= CountPositive(RValues(trades))
      && LongestRun(rs, |rs|, false) <= |trades| - CountPositive(RValues(trades))
  {
    var rs := RValues(ByExecutionTime(trades));
    StreaksWithinCounts(rs, |rs|);
    assert rs[..|rs|] == rs;
    ByExecutionTimeKeepsTotals(trades);
  }

  /** The summary of a curve; None for an empty curve. */
  method ComputeStats(curve: seq<CurvePoint>) returns (stats: Option<Stats>)
    ensures curve == [] ==> stats.None?
    ensures curve != [] ==> stats.Some?
    ensures curve != [] ==>
      var last := curve[|curve| - 1];
      var s := stats.value;
      && s.totalR == last.cumulativeR
      && s.currentExpectancy == last.rollingExpectancy
      && s.maxDrawdown == MaxDrawdownOf(Cumulatives(curve), |curve|)
      && s.maxWinStreak == LongestRun(Outcomes(curve), |curve|, true)
      && s.maxLossStreak == LongestRun(Outcomes(curve), |curve|, false)
      && (s.trend == Improving <==> s.currentExpectancy > 0.0)
  {
    if |curve| == 0 {
      return None;
    }
    var finalPoint := curve[|curve| - 1];
    var currentExpectancy := finalPoint.rollingExpectancy;

    var maxDrawdown := DrawdownScan(curve);
    var maxWinStreak, maxLossStreak := StreakScan(curve);
    var trend := if currentExpectancy > 0.0 then Improving else Deteriorating;
    stats := Some(Stats(finalPoint.cumulativeR, currentExpectancy, maxDrawdown, maxWinStreak, maxLossStreak, trend));
  }

  /** The drawdown pass of the summary: the running peak starts at 0 and the largest fall
      below it is kept. */
  method DrawdownScan(curve: seq<CurvePoint>) returns (maxDrawdown: real)
    ensures maxDrawdown == MaxDrawdownOf(Cumulatives(curve), |curve|)
  {
    var cs := Cumulatives(curve);
    var peak := 0.0;
    var currentDrawdown := 0.0;
    maxDrawdown := 0.0;
    var i := 0;
    while i < |curve|
      invariant 0 <= i <= |curve|
      invariant peak == PeakAfter(cs, i)
      invariant maxDrawdown == MaxDrawdownOf(cs, i)
    {
      var point := curve[i];
      if point.cumulativeR > peak {
        peak := point.cumulativeR;
        currentDrawdown := 0.0;
      } else {
        currentDrawdown := peak - point.cumulativeR;
        if currentDrawdown > maxDrawdown {
          maxDrawdown := currentDrawdown;
        }
      }
      i := i + 1;
    }
  }

  /** The streak pass of the summary: a win extends the winning streak and ends the losing
      one, anything else the other way round. */
  method StreakScan(curve: seq<CurvePoint>) returns (maxWinStreak: nat, maxLossStreak: nat)
    ensures maxWinStreak == LongestRun(Outcomes(curve), |curve|, true)
    ensures maxLossStreak == LongestRun(Outcomes(curve), |curve|, false)
  {
    var rs := Outcomes(curve);
    var currentWinStreak, currentLossStreak := 0, 0;
    maxWinStreak, maxLossStreak := 0, 0;
    var i := 0;
    while i < |curve|
      invariant 0 <= i <= |curve|
      invariant currentWinStreak == RunEndingAt(rs, i, true)
      invariant currentLossStreak == RunEndingAt(rs, i, false)
      invariant maxWinStreak == LongestRun(rs, i, true)
      invariant maxLossStreak == LongestRun(rs, i, false)
    {
      if curve[i].trade.actualR > 0.0 {
        currentWinStreak := currentWinStreak + 1;
        currentLossStreak := 0;
        maxWinStreak := if maxWinStreak > currentWinStreak then maxWinStreak else currentWinStreak;
      } else {
        currentLossStreak := currentLossStreak + 1;
        currentWinStreak := 0;
        maxLossStreak := if maxLossStreak > currentLossStreak then maxLossStreak else currentLossStreak;
      }
      i := i + 1;
    }
  }
}
