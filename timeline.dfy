/** The order both capital curves use: the executed trades sorted by
    execution time, earlier first, trades executed at the same moment in
    their stored order. Sorting only reorders the trades, so their total R
    and their number of wins are unchanged. */
module Timeline {
  import opened Seqs
  import opened Sorting
  import opened Journal

  /** `[...trades].sort((a, b) => a.executedAt - b.executedAt)`. */
  function ByExecutionTime(trades: seq<Trade>): (r: seq<Trade>)
    ensures |r| == |trades| && multiset(r) == multiset(trades)
    ensures forall i, j :: 0 <= i < j < |r| ==> r[i].executedAt <= r[j].executedAt
  {
    var r := SortBy(trades, ExecutedAtKey);
    assert forall i, j :: 0 <= i < j < |r| ==> ExecutedAtKey(r[i]) <= ExecutedAtKey(r[j]);
    r
  }

  /** Trades executed at the same moment keep their stored order. */
  lemma ByExecutionTimeIsStable(trades: seq<Trade>, at: int)
    ensures WithKey(ByExecutionTime(trades), ExecutedAtKey, at as real) == WithKey(trades, ExecutedAtKey, at as real)
  {
    SortByIsStable(trades, ExecutedAtKey, at as real);
  }

  /** Taking the last element off one of two permutations of each other, and the
      same value off the other at index `k`, leaves two permutations. */
  lemma RemoveMatching<T>(a: seq<T>, b: seq<T>, k: int)
    requires multiset(a) == multiset(b) && a != []
    requires 0 <= k < |b| && b[k] == a[|a| - 1]
    ensures multiset(a[..|a| - 1]) == multiset(b[..k] + b[k + 1..])
  {
    var x, init := a[|a| - 1], a[..|a| - 1];
    var pre, post := b[..k], b[k + 1..];
    assert a == init + [x];
    assert b == pre + [x] + post;
    assert multiset(b) == multiset(pre) + multiset{x} + multiset(post);
    assert multiset(pre + post) == multiset(pre) + multiset(post);
    assert multiset(init) == multiset(a) - multiset{x};
  }

  /** Reordering trades reorders their R values the same way. */
  lemma {:induction false} RValuesPermutation(a: seq<Trade>, b: seq<Trade>)
    requires multiset(a) == multiset(b)
    ensures multiset(RValues(a)) == multiset(RValues(b))
    decreases |a|
  {
    if a == [] {
      assert |b| == |multiset(b)| == 0;
    } else {
      var x, init := a[|a| - 1], a[..|a| - 1];
      assert x in multiset(b);
      var k :| 0 <= k < |b| && b[k] == x;
      var pre, post := b[..k], b[k + 1..];
      RemoveMatching(a, b, k);
      RValuesPermutation(init, pre + post);
      assert a == init + [x];
      assert b == pre + [x] + post;
      RValuesAppend(init, [x]);
      RValuesAppend(pre, [x]);
      RValuesAppend(pre + [x], post);
      RValuesAppend(pre, post);
    }
  }

  lemma RValuesAppend(a: seq<Trade>, b: seq<Trade>)
    ensures RValues(a + b) == RValues(a) + RValues(b)
  {
  }

  /** One more trade adds its R to the total. */
  lemma TotalRStep(ts: seq<Trade>, t: Trade)
    ensures Sum(RValues(ts + [t])) == Sum(RValues(ts)) + t.actualR
  {
    RValuesAppend(ts, [t]);
    var rs := RValues(ts) + [t.actualR];
    assert rs[..|rs| - 1] == RValues(ts);
  }

  /** Reordering a sequence of reals does not change its sum. */
  lemma {:induction false} PermutationSum(a: seq<real>, b: seq<real>)
    requires multiset(a) == multiset(b)
    ensures Sum(a) == Sum(b)
    decreases |a|
  {
    if a == [] {
      assert |b| == |multiset(b)| == 0;
    } else {
      var x, init := a[|a| - 1], a[..|a| - 1];
      assert x in multiset(b);
      var k :| 0 <= k < |b| && b[k] == x;
      var pre, post := b[..k], b[k + 1..];
      RemoveMatching(a, b, k);
      PermutationSum(init, pre + post);
      assert b == (pre + [x]) + post;
      SumAppend(pre, post);
      SumAppend(pre + [x], post);
      SumAppend(pre, [x]);
      SumSingleton(x);
    }
  }

  /** Reordering a sequence of reals does not change how many of them are positive. */
  lemma {:induction false} PermutationWins(a: seq<real>, b: seq<real>)
    requires multiset(a) == multiset(b)
    ensures CountPositive(a) == CountPositive(b)
    decreases |a|
  {
    if a == [] {
      assert |b| == |multiset(b)| == 0;
    } else {
      var x, init := a[|a| - 1], a[..|a| - 1];
      assert x in multiset(b);
      var k :| 0 <= k < |b| && b[k] == x;
      var pre, post := b[..k], b[k + 1..];
      RemoveMatching(a, b, k);
      PermutationWins(init, pre + post);
      assert b == (pre + [x]) + post;
      CountPositiveAppend(pre, post);
      CountPositiveAppend(pre + [x], post);
      CountPositiveAppend(pre, [x]);
      assert CountPositive([x]) == (if x > 0.0 then 1 else 0) by {
        assert [x][..0] == [];
      }
    }
  }

  /** The time-ordered trades have the same total R and the same number of wins as the stored ones. */
  lemma ByExecutionTimeKeepsTotals(trades: seq<Trade>)
    ensures Sum(RValues(ByExecutionTime(trades))) == Sum(RValues(trades))
    ensures CountPositive(RValues(ByExecutionTime(trades))) == CountPositive(RValues(trades))
  {
    RValuesPermutation(ByExecutionTime(trades), trades);
    PermutationSum(RValues(ByExecutionTime(trades)), RValues(trades));
    PermutationWins(RValues(ByExecutionTime(trades)), RValues(trades));
  }
}
