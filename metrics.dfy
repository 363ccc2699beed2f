/** The dashboard's summary figures over the executed trades' R values, the
    plan search filter, and the win rate handed to the outcome projector. */
module Metrics {
  import opened Seqs
  import opened Journal
  import opened Labels

  /** The win rate the projector falls back to when there is no win yet. */
  const DefaultWinRate: real := 65.0

  /** The setup filter value that lets every setup through. */
  const AnySetup: string := "all"

  /** Percentage of trades with a positive R; 0 without trades. */
  function WinRate(rs: seq<real>): (w: real)
    ensures 0.0 <= w <= 100.0
    ensures rs == [] ==> w == 0.0
    ensures rs != [] ==> w * |rs| as real == CountPositive(rs) as real * 100.0
  {
    if rs == [] then 0.0
    else
      var wins, n := CountPositive(rs) as real, |rs| as real;
      CountPositiveBound(rs);
      assert wins / n <= 1.0;
      wins / n * 100.0
  }

  /** Mean R per trade; 0 without trades. */
  function AvgR(rs: seq<real>): (a: real)
    ensures rs == [] ==> a == 0.0
    ensures rs != [] ==> a * |rs| as real == Sum(rs)
  {
    if rs == [] then 0.0 else Sum(rs) / |rs| as real
  }

  /** Mean R of a list of trades; 0 without trades. */
  function MeanR(ts: seq<Trade>): (a: real)
    ensures ts == [] ==> a == 0.0
    ensures ts != [] ==> a * |ts| as real == Sum(RValues(ts))
  {
    AvgR(RValues(ts))
  }

  /** Best R; 0 without trades. */
  function MaxWin(rs: seq<real>): (m: real)
    ensures rs == [] ==> m == 0.0
    ensures rs != [] ==> m in rs && forall i :: 0 <= i < |rs| ==> rs[i] <= m
  {
    if rs == [] then 0.0 else Max(rs)
  }

  /** Worst R; 0 without trades. */
  function MaxLoss(rs: seq<real>): (m: real)
    ensures rs == [] ==> m == 0.0
    ensures rs != [] ==> m in rs && forall i :: 0 <= i < |rs| ==> m <= rs[i]
  {
    if rs == [] then 0.0 else Min(rs)
  }

  /** The average trade lies between the worst and the best one. */
  lemma AvgBetweenExtremes(rs: seq<real>)
    ensures MaxLoss(rs) <= AvgR(rs) <= MaxWin(rs)
  {
    if rs != [] {
      MeanBounds(rs, MaxLoss(rs), MaxWin(rs));
    }
  }

  /** Every trade wins exactly when the win rate is 100, and none does exactly when it is 0. */
  lemma WinRateExtremes(rs: seq<real>)
    requires rs != []
    ensures WinRate(rs) == 100.0 <==> forall i :: 0 <= i < |rs| ==> rs[i] > 0.0
    ensures WinRate(rs) == 0.0 <==> forall i :: 0 <= i < |rs| ==> rs[i] <= 0.0
  {
    AllPositiveIffCount(rs);
    NonePositiveIffCount(rs);
    var n := |rs| as real;
    assert WinRate(rs) == 100.0 <==> CountPositive(rs) as real * 100.0 == 100.0 * n;
  }

  lemma {:induction false} AllPositiveIffCount(rs: seq<real>)
    ensures CountPositive(rs) == |rs| <==> forall i :: 0 <= i < |rs| ==> rs[i] > 0.0
  {
    if rs != [] {
      var init := rs[..|rs| - 1];
      AllPositiveIffCount(init);
      CountPositiveBound(init);
      assert forall i :: 0 <= i < |init| ==> init[i] == rs[i];
    }
  }

  lemma {:induction false} NonePositiveIffCount(rs: seq<real>)
    ensures CountPositive(rs) == 0 <==> forall i :: 0 <= i < |rs| ==> rs[i] <= 0.0
  {
    if rs != [] {
      var init := rs[..|rs| - 1];
      NonePositiveIffCount(init);
      assert forall i :: 0 <= i < |init| ==> init[i] == rs[i];
    }
  }

  /** The journal's guide walks through four trades, +1.5R, -1R, +1.5R and +0.5R:
      three wins out of four, 75%, +2.5R in total, +0.625R on average. */
  lemma GuideSessionExample()
    ensures var rs := [1.5, -1.0, 1.5, 0.5];
      WinRate(rs) == 75.0 && Sum(rs) == 2.5 && AvgR(rs) == 0.625
      && MaxWin(rs) == 1.5 && MaxLoss(rs) == -1.0
  {
    var rs := [1.5, -1.0, 1.5, 0.5];
    var r3, r2, r1 := rs[..3], rs[..3][..2], rs[..3][..2][..1];
    assert r3 == [1.5, -1.0, 1.5] && r2 == [1.5, -1.0] && r1 == [1.5] && r1[..0] == [];
    assert CountPositive(r1) == 1 && CountPositive(r2) == 1 && CountPositive(r3) == 2;
    assert CountPositive(rs) == 3;
    assert Sum(r1) == 1.5 && Sum(r2) == 0.5 && Sum(r3) == 2.0;
    assert Sum(rs) == 2.5;
    assert Max(r1) == 1.5 && Max(r2) == 1.5 && Max(r3) == 1.5;
    assert Min(r1) == 1.5 && Min(r2) == -1.0 && Min(r3) == -1.0;
  }

  /** The win rate handed to the outcome projector: the journal's own, or 65 when it is 0. */
  function ProjectorWinRate(winrate: real): (r: real)
    ensures r > 0.0
    ensures winrate > 0.0 ==> r == winrate
    ensures winrate <= 0.0 ==> r == DefaultWinRate
  {
    if winrate > 0.0 then winrate else DefaultWinRate
  }

  /** A journal without a single winning trade projects with the default rate. */
  lemma NoWinsProjectsDefault(rs: seq<real>)
    requires forall i :: 0 <= i < |rs| ==> rs[i] <= 0.0
    ensures ProjectorWinRate(WinRate(rs)) == DefaultWinRate
  {
    if rs != [] {
      WinRateExtremes(rs);
    }
  }

  /** The plan list's filter controls. The status control exists but is never consulted. */
  datatype PlanFilters = PlanFilters(search: string, status: string, setup: string)

  /** A plan is listed when its lower-cased pair or comment contains the lower-cased
      search text, and the setup control is "all" or names the plan's setup. */
  predicate MatchesFilters(p: Plan, f: PlanFilters)
    ensures MatchesFilters(p, f) ==> f.setup == AnySetup || p.setup == f.setup
    ensures f.search == "" ==> (MatchesFilters(p, f) <==> f.setup == AnySetup || p.setup == f.setup)
  {
    ContainsEmpty(Lower(p.currencyPair));
    var needle := Lower(f.search);
    (Contains(Lower(p.currencyPair), needle) || Contains(Lower(p.comment), needle))
    && (f.setup == AnySetup || p.setup == f.setup)
  }

  /** The plans the list shows, in their stored order. */
  function FilteredPlans(plans: seq<Plan>, f: PlanFilters): (r: seq<Plan>)
    ensures forall i :: 0 <= i < |r| ==> MatchesFilters(r[i], f) && r[i] in plans
    ensures forall i :: 0 <= i < |plans| && MatchesFilters(plans[i], f) ==> plans[i] in r
    ensures IsSubsequence(r, plans)
    ensures (forall i :: 0 <= i < |plans| ==> MatchesFilters(plans[i], f)) ==> r == plans
    ensures forall p :: multiset(r)[p] == if MatchesFilters(p, f) then multiset(plans)[p] else 0
  {
    var keep := (p: Plan) => MatchesFilters(p, f);
    var r := Filter(plans, keep);
    assert IsSubsequence(r, plans) by {
      FilterIsSubsequence(plans, keep);
    }
    assert && (forall i :: 0 <= i < |r| ==> MatchesFilters(r[i], f) && r[i] in plans)
           && (forall i :: 0 <= i < |plans| && MatchesFilters(plans[i], f) ==> plans[i] in r)
           && ((forall i :: 0 <= i < |plans| ==> MatchesFilters(plans[i], f)) ==> r == plans) by {
      FilterSpec(plans, keep);
    }
    assert forall p :: multiset(r)[p] == if MatchesFilters(p, f) then multiset(plans)[p] else 0 by {
      FilterMultiset(plans, keep);
    }
    r
  }

  /** With an empty search and the "all" setup every plan is listed, whatever its status. */
  lemma EmptyFiltersKeepAll(plans: seq<Plan>, status: string)
    ensures FilteredPlans(plans, PlanFilters("", status, AnySetup)) == plans
  {
    var f := PlanFilters("", status, AnySetup);
    forall i | 0 <= i < |plans| ensures MatchesFilters(plans[i], f) {
      ContainsEmpty(Lower(plans[i].currencyPair));
    }
  }

  /** Lower-casing the search text first changes nothing: the search ignores case. */
  lemma SearchIgnoresCase(p: Plan, f: PlanFilters)
    ensures MatchesFilters(p, f.(search := Lower(f.search))) == MatchesFilters(p, f)
  {
    assert Lower(Lower(f.search)) == Lower(f.search) by {
      forall i | 0 <= i < |f.search| ensures Lower(Lower(f.search))[i] == Lower(f.search)[i] {
        LowerCharIdempotent(f.search[i]);
      }
    }
  }
}
