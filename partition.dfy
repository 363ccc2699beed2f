/** Histograms: values sorted into numbered bins by a membership test. When
    every value belongs to exactly one bin, the bin counts add up to the
    number of values and the bin totals to their sum. Two binners of the
    journal use equal-width bins over [min, max], half-open except the last,
    which is closed; `Grid` describes those. */
module Partition {
  import opened Seqs

  /** The values `r` of `rs` with `mem(k, r)`, in order: the filter one bin applies. */
  function Members(rs: seq<real>, mem: (nat, real) -> bool, k: nat): (ms: seq<real>)
    ensures |ms| <= |rs|
    ensures forall i :: 0 <= i < |ms| ==> mem(k, ms[i])
  {
    if rs == [] then []
    else (if mem(k, rs[0]) then [rs[0]] else []) + Members(rs[1..], mem, k)
  }

  lemma {:induction false} MembersAppend(a: seq<real>, b: seq<real>, mem: (nat, real) -> bool, k: nat)
    ensures Members(a + b, mem, k) == Members(a, mem, k) + Members(b, mem, k)
  {
    if a == [] {
      assert a + b == b;
    } else {
      assert (a + b)[0] == a[0] && (a + b)[1..] == a[1..] + b;
      MembersAppend(a[1..], b, mem, k);
    }
  }

  /** A bin whose test every value passes holds all of them, in order. */
  lemma {:induction false} MembersAll(rs: seq<real>, mem: (nat, real) -> bool, k: nat)
    requires forall i :: 0 <= i < |rs| ==> mem(k, rs[i])
    ensures Members(rs, mem, k) == rs
  {
    if rs != [] {
      MembersAll(rs[1..], mem, k);
      assert rs == [rs[0]] + rs[1..];
    }
  }

  /** A bin whose test no value passes is empty. */
  lemma {:induction false} MembersNone(rs: seq<real>, mem: (nat, real) -> bool, k: nat)
    requires forall i :: 0 <= i < |rs| ==> !mem(k, rs[i])
    ensures Members(rs, mem, k) == []
  {
    if rs != [] {
      MembersNone(rs[1..], mem, k);
    }
  }

  /** Sum of the counts of bins 0 .. K-1. */
  function CountsBelow(rs: seq<real>, mem: (nat, real) -> bool, K: nat): nat
  {
    if K == 0 then 0 else CountsBelow(rs, mem, K - 1) + |Members(rs, mem, K - 1)|
  }

  /** Sum of the totals of bins 0 .. K-1. */
  function TotalsBelow(rs: seq<real>, mem: (nat, real) -> bool, K: nat): real
  {
    if K == 0 then 0.0 else TotalsBelow(rs, mem, K - 1) + Sum(Members(rs, mem, K - 1))
  }

  /** Number of bins below K that `r` belongs to. */
  function Hits(r: real, mem: (nat, real) -> bool, K: nat): nat
  {
    if K == 0 then 0 else Hits(r, mem, K - 1) + (if mem(K - 1, r) then 1 else 0)
  }

  /** `r` belongs to exactly one of the bins 0 .. K-1. */
  predicate InExactlyOne(r: real, mem: (nat, real) -> bool, K: nat)
  {
    exists k: nat :: k < K && mem(k, r) && forall j: nat :: j < K && mem(j, r) ==> j == k
  }

  lemma {:induction false} HitsOfUnique(r: real, mem: (nat, real) -> bool, K: nat, k: nat, upTo: nat)
    requires k < K && mem(k, r) && forall j: nat :: j < K && mem(j, r) ==> j == k
    requires upTo <= K
    ensures Hits(r, mem, upTo) == if upTo > k then 1 else 0
    ensures HitsTotal(r, mem, upTo) == if upTo > k then r else 0.0
  {
    if upTo > 0 {
      HitsOfUnique(r, mem, K, k, upTo - 1);
    }
  }

  lemma MembersCons(r: real, rs: seq<real>, mem: (nat, real) -> bool, k: nat)
    ensures Members([r] + rs, mem, k) == (if mem(k, r) then [r] else []) + Members(rs, mem, k)
  {
    var xs := [r] + rs;
    assert xs[0] == r && xs[1..] == rs;
  }

  lemma {:induction false} CountsBelowCons(r: real, rs: seq<real>, mem: (nat, real) -> bool, K: nat)
    ensures CountsBelow([r] + rs, mem, K) == CountsBelow(rs, mem, K) + Hits(r, mem, K)
  {
    if K > 0 {
      CountsBelowCons(r, rs, mem, K - 1);
      MembersCons(r, rs, mem, K - 1);
      assert |Members([r] + rs, mem, K - 1)| == |Members(rs, mem, K - 1)| + (if mem(K - 1, r) then 1 else 0);
    }
  }

  /** `r` once for every bin below K that it belongs to. */
  function HitsTotal(r: real, mem: (nat, real) -> bool, K: nat): real
  {
    if K == 0 then 0.0 else HitsTotal(r, mem, K - 1) + (if mem(K - 1, r) then r else 0.0)
  }

  lemma {:induction false} TotalsBelowCons(r: real, rs: seq<real>, mem: (nat, real) -> bool, K: nat)
    ensures TotalsBelow([r] + rs, mem, K) == TotalsBelow(rs, mem, K) + HitsTotal(r, mem, K)
  {
    if K > 0 {
      TotalsBelowCons(r, rs, mem, K - 1);
      MembersCons(r, rs, mem, K - 1);
      if mem(K - 1, r) {
        SumCons(r, Members(rs, mem, K - 1));
      } else {
        assert Members([r] + rs, mem, K - 1) == Members(rs, mem, K - 1);
      }
    }
  }

  lemma OneHit(r: real, mem: (nat, real) -> bool, K: nat)
    requires InExactlyOne(r, mem, K)
    ensures Hits(r, mem, K) == 1 && HitsTotal(r, mem, K) == r
  {
    var k: nat :| k < K && mem(k, r) && forall j: nat :: j < K && mem(j, r) ==> j == k;
    HitsOfUnique(r, mem, K, k, K);
  }

  /** When every value lies in exactly one of K bins, the K counts add up to the number of
      values and the K totals to the sum of the values. */
  lemma {:induction false} BinsPartition(rs: seq<real>, mem: (nat, real) -> bool, K: nat)
    requires forall i :: 0 <= i < |rs| ==> InExactlyOne(rs[i], mem, K)
    ensures CountsBelow(rs, mem, K) == |rs|
    ensures TotalsBelow(rs, mem, K) == Sum(rs)
  {
    if rs == [] {
      EmptyBins(mem, K);
    } else {
      var r, rest := rs[0], rs[1..];
      assert rs == [r] + rest;
      assert forall i :: 0 <= i < |rest| ==> rest[i] == rs[i + 1];
      BinsPartition(rest, mem, K);
      CountsBelowCons(r, rest, mem, K);
      TotalsBelowCons(r, rest, mem, K);
      OneHit(r, mem, K);
      SumCons(r, rest);
    }
  }

  lemma {:induction false} EmptyBins(mem: (nat, real) -> bool, K: nat)
    ensures CountsBelow([], mem, K) == 0 && TotalsBelow([], mem, K) == 0.0
  {
    if K > 0 {
      EmptyBins(mem, K - 1);
      assert Members([], mem, K - 1) == [];
      assert Sum([]) == 0.0;
    }
  }

  /** `count` bins of width `width` from `low`. */
  datatype Grid = Grid(low: real, width: real, count: nat)

  /** Edge `i` of a grid: `low + i * width`. */
  function Edge(g: Grid, i: int): real
  {
    g.low + i as real * g.width
  }

  /** Bin `i` of a grid: [Edge i, Edge i+1), except the last, which is [Edge i, Edge i+1]. */
  predicate InBin(g: Grid, i: nat, r: real)
  {
    if i == g.count - 1 then Edge(g, i) <= r <= Edge(g, i + 1)
    else Edge(g, i) <= r < Edge(g, i + 1)
  }

  /** The membership test of a grid, as a single value, so that every bin filters with the same test. */
  function GridMembership(g: Grid): (nat, real) -> bool
  {
    (i: nat, r: real) => InBin(g, i, r)
  }

  /** The equal-width grid over [low, high] with `count` bins. */
  function EvenGrid(low: real, high: real, count: nat): (g: Grid)
    requires count >= 1
    ensures g.count == count && Edge(g, 0) == low && Edge(g, count) == high
  {
    var g := Grid(low, (high - low) / count as real, count);
    assert Edge(g, count) == low + count as real * ((high - low) / count as real);
    g
  }

  lemma {:induction false} EdgesRise(g: Grid, i: int, j: int)
    requires g.width >= 0.0 && i <= j
    ensures Edge(g, i) <= Edge(g, j)
  {
    assert Edge(g, j) - Edge(g, i) == (j - i) as real * g.width;
  }

  lemma {:induction false} InSomeBinFrom(g: Grid, r: real, i: nat)
    requires g.count >= 1 && g.width >= 0.0 && i < g.count
    requires Edge(g, i) <= r <= Edge(g, g.count)
    ensures exists k: nat :: i <= k < g.count && InBin(g, k, r)
    decreases g.count - i
  {
    if i == g.count - 1 {
      assert InBin(g, i, r);
    } else if r < Edge(g, i + 1) {
      assert InBin(g, i, r);
    } else {
      InSomeBinFrom(g, r, i + 1);
    }
  }

  /** On a grid of non-negative width, every value between the first and the last edge
      lies in exactly one bin; no value outside lies in any. */
  lemma GridPartitions(g: Grid, r: real)
    requires g.count >= 1 && g.width >= 0.0
    ensures Edge(g, 0) <= r <= Edge(g, g.count) ==> InExactlyOne(r, GridMembership(g), g.count)
    ensures !(Edge(g, 0) <= r <= Edge(g, g.count)) ==> forall k: nat :: k < g.count ==> !InBin(g, k, r)
  {
    var mem := GridMembership(g);
    if Edge(g, 0) <= r <= Edge(g, g.count) {
      InSomeBinFrom(g, r, 0);
      var k: nat :| k < g.count && InBin(g, k, r);
      forall j: nat | j < g.count && mem(j, r) ensures j == k {
        if j < k {
          EdgesRise(g, j + 1, k);
        } else if k < j {
          EdgesRise(g, k + 1, j);
        }
      }
      assert mem(k, r);
    } else {
      forall k: nat | k < g.count ensures !InBin(g, k, r) {
        EdgesRise(g, 0, k);
        EdgesRise(g, k + 1, g.count);
      }
    }
  }

  /** For values within [low, high], the bins of the even grid split them: counts add up to
      the number of values and totals to their sum. */
  lemma EvenGridPartition(rs: seq<real>, low: real, high: real, count: nat)
    requires count >= 1 && low <= high
    requires forall i :: 0 <= i < |rs| ==> low <= rs[i] <= high
    ensures CountsBelow(rs, GridMembership(EvenGrid(low, high, count)), count) == |rs|
    ensures TotalsBelow(rs, GridMembership(EvenGrid(low, high, count)), count) == Sum(rs)
  {
    var g := EvenGrid(low, high, count);
    forall i | 0 <= i < |rs| ensures InExactlyOne(rs[i], GridMembership(g), count) {
      GridPartitions(g, rs[i]);
    }
    BinsPartition(rs, GridMembership(g), count);
  }
}
