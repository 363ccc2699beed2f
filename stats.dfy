/** Descriptive statistics that both P&L distribution panels compute over the
    R values: the ascending order, the element at the middle index taken as the
    median, and the population variance (the standard deviation is its square
    root, which this model does not take). */
module Stats {
  import opened Seqs
  import opened Sorting
  import opened Timeline

  /** The key that orders reals by value, as `(a, b) => a - b` does. */
  function RealKey(x: real): real
  {
    x
  }

  /** The values in ascending order. */
  function Ascending(rs: seq<real>): (r: seq<real>)
    ensures |r| == |rs| && multiset(r) == multiset(rs)
    ensures forall i, j :: 0 <= i < j < |r| ==> r[i] <= r[j]
  {
    var r := SortBy(rs, RealKey);
    assert forall i, j :: 0 <= i < j < |r| ==> RealKey(r[i]) <= RealKey(r[j]);
    r
  }

  lemma SortedPermutationEnds(s: seq<real>, rs: seq<real>)
    requires rs != [] && multiset(s) == multiset(rs)
    requires forall i, j :: 0 <= i < j < |s| ==> s[i] <= s[j]
    ensures |s| == |rs| && s[0] == Min(rs) && s[|s| - 1] == Max(rs)
  {
    assert |s| == |multiset(s)| == |rs|;
    var n := |rs|;
    assert s[0] in multiset(rs) && s[n - 1] in multiset(rs);
    var lo :| 0 <= lo < n && rs[lo] == Min(rs);
    var hi :| 0 <= hi < n && rs[hi] == Max(rs);
    assert rs[lo] in multiset(s) && rs[hi] in multiset(s);
    var c :| 0 <= c < n && s[c] == rs[lo];
    var d :| 0 <= d < n && s[d] == rs[hi];
    assert s[0] <= s[c] && s[d] <= s[n - 1];
  }

  /** The first and last of the ascending values are the least and the greatest. */
  lemma AscendingEnds(rs: seq<real>)
    requires rs != []
    ensures Ascending(rs)[0] == Min(rs)
    ensures Ascending(rs)[|rs| - 1] == Max(rs)
  {
    SortedPermutationEnds(Ascending(rs), rs);
  }

  /** Sorting keeps the mean. */
  lemma AscendingMean(rs: seq<real>)
    ensures Mean(Ascending(rs)) == Mean(rs)
  {
    PermutationSum(Ascending(rs), rs);
  }

  /** The element at index floor(n/2) of the ascending values: the middle one for odd n,
      the upper of the two middle ones for even n. */
  function Median(sorted: seq<real>): (m: real)
    requires sorted != []
    ensures m == sorted[|sorted| / 2]
  {
    sorted[|sorted| / 2]
  }

  /** The median of ascending values lies between the first and the last, and at least half
      of the values are at most the median and at least half are at least it. */
  lemma MedianSplits(sorted: seq<real>)
    requires sorted != []
    requires forall i, j :: 0 <= i < j < |sorted| ==> sorted[i] <= sorted[j]
    ensures sorted[0] <= Median(sorted) <= sorted[|sorted| - 1]
    ensures forall i :: 0 <= i <= |sorted| / 2 ==> sorted[i] <= Median(sorted)
    ensures forall i :: |sorted| / 2 <= i < |sorted| ==> Median(sorted) <= sorted[i]
    ensures 2 * (|sorted| / 2 + 1) >= |sorted| && 2 * (|sorted| - |sorted| / 2) >= |sorted|
  {
  }

  /** The squared deviations from `m`. */
  function Deviations(rs: seq<real>, m: real): (ds: seq<real>)
    ensures |ds| == |rs|
    ensures forall i :: 0 <= i < |rs| ==> ds[i] == (rs[i] - m) * (rs[i] - m) && ds[i] >= 0.0
  {
    seq(|rs|, i requires 0 <= i < |rs| => (rs[i] - m) * (rs[i] - m))
  }

  /** Population variance: the mean squared deviation from the mean; 0 for no values. */
  function Variance(rs: seq<real>): (v: real)
    ensures v >= 0.0
  {
    var ds := Deviations(rs, Mean(rs));
    SumNonNegative(ds);
    Mean(ds)
  }

  /** Values that all agree have variance 0. */
  lemma ConstantHasZeroVariance(rs: seq<real>)
    requires forall i, j :: 0 <= i < |rs| && 0 <= j < |rs| ==> rs[i] == rs[j]
    ensures Variance(rs) == 0.0
  {
    if rs != [] {
      var c := rs[0];
      assert forall i :: 0 <= i < |rs| ==> c <= rs[i] <= c;
      MeanBounds(rs, c, c);
      var ds := Deviations(rs, c);
      assert forall i :: 0 <= i < |ds| ==> 0.0 <= ds[i] <= 0.0;
      MeanBounds(ds, 0.0, 0.0);
    }
  }
}
