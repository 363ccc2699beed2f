/** The capital-curve chart: one point per executed trade in execution-time
    order, carrying the running total of R and the running mean R (the
    expectation so far); the current expectation; and a trend that compares
    the mean expectation of the last ten points with that of the ten before. */
module CapitalCurve {
  import opened Seqs
  import opened Journal
  import opened Timeline

  /** Points needed before the trend is anything but neutral. */
  const TrendHistory: nat := 20

  /** Size of each of the two compared stretches of points. */
  const TrendWindow: nat := 10

  /** How far the recent mean must move past the earlier one. */
  const TrendMargin: real := 0.1

  datatype CapitalPoint = CapitalPoint(tradeNumber: nat, cumulativeR: real, expectation: real, trade: Trade)

  datatype CapitalTrend = Improving | Declining | Neutral

  /** The point for the `i`-th trade of the time-ordered list `sorted`. */
  function PointAt(sorted: seq<Trade>, i: nat): (p: CapitalPoint)
    requires i < |sorted|
    ensures p.tradeNumber == i + 1 && p.trade == sorted[i]
    ensures p.expectation * (i + 1) as real == p.cumulativeR
  {
    var total := Sum(RValues(sorted)[..i + 1]);
    CapitalPoint(i + 1, total, total / (i + 1) as real, sorted[i])
  }

  /** Builds the curve: sorts the trades by execution time and folds a running total over them. */
  method BuildCapitalCurve(trades: seq<Trade>) returns (curve: seq<CapitalPoint>)
    ensures |curve| == |trades|
    ensures forall i :: 0 <= i < |curve| ==> curve[i] == PointAt(ByExecutionTime(trades), i)
  {
    var sorted := ByExecutionTime(trades);
    var rs := RValues(sorted);
    var runningTotal := 0.0;
    curve := [];
    var index := 0;
    while index < |sorted|
      invariant 0 <= index <= |sorted|
      invariant |curve| == index
      invariant runningTotal == Sum(rs[..index])
      invariant forall i :: 0 <= i < index ==> curve[i] == PointAt(sorted, i)
    {
      assert rs[..index + 1][..index] == rs[..index];
      runningTotal := runningTotal + sorted[index].actualR;
      var expectation := runningTotal / (index + 1) as real;
      var point := CapitalPoint(index + 1, runningTotal, expectation, sorted[index]);
      assert point == PointAt(sorted, index);
      curve := curve + [point];
      index := index + 1;
    }
  }

  /** The expectation shown as current: the last point's, or 0 for an empty curve. */
  function CurrentExpectation(curve: seq<CapitalPoint>): (e: real)
    ensures curve == [] ==> e == 0.0
    ensures curve != [] ==> e == curve[|curve| - 1].expectation
  {
    if |curve| > 0 then curve[|curve| - 1].expectation else 0.0
  }

  /** The current expectation is the mean R over all trades: the cumulative mean
      at the last point covers the whole history, whatever the stored order. */
  lemma CurrentExpectationIsMeanR(trades: seq<Trade>, curve: seq<CapitalPoint>)
    requires |curve| == |trades|
    requires forall i :: 0 <= i < |curve| ==> curve[i] == PointAt(ByExecutionTime(trades), i)
    ensures CurrentExpectation(curve) == Mean(RValues(trades))
  {
    if trades != [] {
      var sorted := ByExecutionTime(trades);
      assert RValues(sorted)[..|trades|] == RValues(sorted);
      ByExecutionTimeKeepsTotals(trades);
    }
  }

  /** The expectations of a curve, in order. */
  function Expectations(curve: seq<CapitalPoint>): (es: seq<real>)
    ensures |es| == |curve| && forall i :: 0 <= i < |curve| ==> es[i] == curve[i].expectation
  {
    seq(|curve|, i requires 0 <= i < |curve| => curve[i].expectation)
  }

  /** Mean of a stretch of ten expectations: the sum divided by ten. */
  function StretchMean(xs: seq<real>): real
  {
    Sum(xs) / TrendWindow as real
  }

  /** Neutral below twenty points; otherwise the mean of the last ten expectations is
      compared with the mean of the ten before them, with a margin of 0.1 either way. */
  function TrendOf(es: seq<real>): (t: CapitalTrend)
    ensures |es| < TrendHistory ==> t == Neutral
    ensures |es| >= TrendHistory ==>
      var n := |es|;
      var last10, previous10 := StretchMean(es[n - 10..]), StretchMean(es[n - 20..n - 10]);
      && (t == Improving <==> last10 > previous10 + TrendMargin)
      && (t == Declining <==> last10 < previous10 - TrendMargin)
  {
    if |es| >= TrendHistory then
      var n := |es|;
      var last10Avg := StretchMean(es[n - 10..]);
      var previous10Avg := StretchMean(es[n - 20..n - 10]);
      if last10Avg > previous10Avg + TrendMargin then Improving
      else if last10Avg < previous10Avg - TrendMargin then Declining
      else Neutral
    else Neutral
  }

  /** Every expectation raised by the same amount. */
  function Shift(es: seq<real>, c: real): (r: seq<real>)
    ensures |r| == |es| && forall i :: 0 <= i < |es| ==> r[i] == es[i] + c
  {
    seq(|es|, i requires 0 <= i < |es| => es[i] + c)
  }

  lemma {:induction false} SumShift(es: seq<real>, c: real)
    ensures Sum(Shift(es, c)) == Sum(es) + |es| as real * c
  {
    if es != [] {
      var init := es[..|es| - 1];
      assert Shift(es, c)[..|es| - 1] == Shift(init, c);
      SumShift(init, c);
    }
  }

  /** The trend reads only how the expectation moved: raising every expectation by the
      same amount leaves it unchanged. */
  lemma TrendIgnoresLevel(es: seq<real>, c: real)
    ensures TrendOf(Shift(es, c)) == TrendOf(es)
  {
    if |es| >= TrendHistory {
      var n := |es|;
      var sh := Shift(es, c);
      assert sh[n - 10..] == Shift(es[n - 10..], c);
      assert sh[n - 20..n - 10] == Shift(es[n - 20..n - 10], c);
      SumShift(es[n - 10..], c);
      SumShift(es[n - 20..n - 10], c);
    }
  }

  /** A flat history of expectations is neutral. */
  lemma FlatIsNeutral(es: seq<real>, c: real)
    requires forall i :: 0 <= i < |es| ==> es[i] == c
    ensures TrendOf(es) == Neutral
  {
    if |es| >= TrendHistory {
      var n := |es|;
      SumBounds(es[n - 10..], c, c);
      SumBounds(es[n - 20..n - 10], c, c);
    }
  }
}
