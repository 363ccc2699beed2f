/** The journal's state hook: the plans, the executed trades and the most
    recently used currency pairs. Each operation replaces one or more of the
    three lists, so the store is a class with one `seq` field per list.
    Identifiers and timestamps come in as parameters; what the source keeps
    in browser storage is passed to the constructor. */
module PlanStore {
  import opened Seqs
  import opened Journal
  import opened RMultiple

  /** Length of the most-recently-used pair list. */
  const RecentPairsCap: nat := 5

  /** The recent-pair list when nothing was saved. */
  const DefaultRecentPairs: seq<string> := ["BTCUSDT"]

  /** What the plan form submits: a plan without id, status and creation time. */
  datatype PlanData = PlanData(
    date: string,
    currencyPair: string,
    direction: Direction,
    entryPrice: real,
    stopLoss: real,
    takeProfit: real,
    commission: real,
    setup: string,
    session: string,
    strategy: string,
    comment: string,
    expectedR: real)

  /** What the execution form submits. */
  datatype ExecutionData = ExecutionData(
    executionType: ExecutionType,
    actualExitPrice: real,
    psychologyTags: seq<string>,
    executionNotes: string)

  /** `xs.slice(0, n)`. */
  function Take<T>(xs: seq<T>, n: nat): (r: seq<T>)
    ensures |r| == if |xs| <= n then |xs| else n
    ensures r <= xs
  {
    if |xs| <= n then xs else xs[..n]
  }

  /** The recent-pair list after using `pair`: the pair first, its older
      occurrences dropped, the others in their previous order, at most five. */
  function WithRecentPair(recent: seq<string>, pair: string): (r: seq<string>)
    ensures r != [] && r[0] == pair
    ensures |r| <= RecentPairsCap
    ensures pair !in r[1..]
    ensures r[1..] <= RemoveAll(recent, pair)
    ensures |RemoveAll(recent, pair)| < RecentPairsCap ==> forall y :: y in recent ==> y in r
    ensures |r| == if |RemoveAll(recent, pair)| < RecentPairsCap then |RemoveAll(recent, pair)| + 1 else RecentPairsCap
  {
    var rest := RemoveAll(recent, pair);
    var r := Take([pair] + rest, RecentPairsCap);
    assert r[1..] <= rest;
    assert |rest| < RecentPairsCap ==> r == [pair] + rest;
    r
  }

  /** Using the same pair twice in a row is the same as using it once. */
  lemma WithRecentPairIdempotent(recent: seq<string>, pair: string)
    ensures WithRecentPair(WithRecentPair(recent, pair), pair) == WithRecentPair(recent, pair)
  {
    var r := WithRecentPair(recent, pair);
    assert r == [r[0]] + r[1..];
    assert RemoveAll(r, pair) == r[1..] by {
      RemoveAllHead(r, pair);
    }
  }

  lemma RemoveAllHead(r: seq<string>, pair: string)
    requires r != [] && r[0] == pair && pair !in r[1..]
    ensures RemoveAll(r, pair) == r[1..]
  {
    assert RemoveAll(r, pair) == [] + RemoveAll(r[1..], pair);
  }

  /** Recent pairs never repeat: a duplicate-free list stays duplicate-free. */
  lemma WithRecentPairNoDuplicates(recent: seq<string>, pair: string)
    requires NoDuplicates(recent)
    ensures NoDuplicates(WithRecentPair(recent, pair))
  {
    var rest := RemoveAll(recent, pair);
    RemoveAllKeepsNoDuplicates(recent, pair);
    var r := WithRecentPair(recent, pair);
    forall i, j | 0 <= i < j < |r| ensures r[i] != r[j] {
      assert r[j] == r[1..][j - 1] == rest[j - 1];
      if i == 0 {
        assert r[j] in r[1..];
      } else {
        assert r[i] == rest[i - 1];
      }
    }
  }

  /** A new plan made from the submitted data: active, with the given id and creation time. */
  function NewPlan(data: PlanData, id: string, createdAt: int): (p: Plan)
    ensures p.status == Active && p.id == id && p.createdAt == createdAt
    ensures p.currencyPair == data.currencyPair && p.direction == data.direction
    ensures p.entryPrice == data.entryPrice && p.stopLoss == data.stopLoss && p.takeProfit == data.takeProfit
    ensures p.setup == data.setup && p.session == data.session && p.strategy == data.strategy
    ensures p.expectedR == data.expectedR && p.commission == data.commission
    ensures p.date == data.date && p.comment == data.comment
  {
    Plan(id, data.date, data.currencyPair, data.direction, data.entryPrice, data.stopLoss,
      data.takeProfit, data.commission, data.setup, data.session, data.strategy,
      data.comment, data.expectedR, Active, createdAt)
  }

  /** Index of the first plan with the given id (`plans.find`), or -1. */
  function FirstIndexOf(plans: seq<Plan>, id: string): (k: int)
    ensures -1 <= k < |plans|
    ensures k >= 0 ==> plans[k].id == id && forall j :: 0 <= j < k ==> plans[j].id != id
    ensures k == -1 <==> forall j :: 0 <= j < |plans| ==> plans[j].id != id
  {
    if plans == [] then -1
    else if plans[0].id == id then 0
    else
      var k := FirstIndexOf(plans[1..], id);
      assert forall j :: 1 <= j < |plans| ==> plans[j] == plans[1..][j - 1];
      if k == -1 then -1 else k + 1
  }

  function FindById(plans: seq<Plan>, id: string): (r: Option<Plan>)
    ensures r.None? <==> forall j :: 0 <= j < |plans| ==> plans[j].id != id
    ensures r.Some? ==> r.value.id == id && r.value in plans
    ensures r.Some? ==> 0 <= FirstIndexOf(plans, id) && r.value == plans[FirstIndexOf(plans, id)]
  {
    var k := FirstIndexOf(plans, id);
    if k < 0 then None else Some(plans[k])
  }

  /** Every plan with the given id has the given status; every other plan is unchanged. */
  function MarkStatus(plans: seq<Plan>, id: string, s: Status): (r: seq<Plan>)
    ensures |r| == |plans|
    ensures forall i :: 0 <= i < |r| && plans[i].id != id ==> r[i] == plans[i]
    ensures forall i :: 0 <= i < |r| && plans[i].id == id ==>
      r[i].status == s && r[i].(status := plans[i].status) == plans[i]
  {
    seq(|plans|, i requires 0 <= i < |plans| => if plans[i].id == id then plans[i].(status := s) else plans[i])
  }

  /** Restoring a plan after executing it gives back the list it started from,
      as long as every plan with that id was active. */
  lemma ExecuteThenRestore(plans: seq<Plan>, id: string)
    requires forall i :: 0 <= i < |plans| && plans[i].id == id ==> plans[i].status == Active
    ensures MarkStatus(MarkStatus(plans, id, Executed), id, Active) == plans
  {
    var r := MarkStatus(MarkStatus(plans, id, Executed), id, Active);
    forall i | 0 <= i < |plans| ensures r[i] == plans[i] {
    }
  }

  /** The trade written by `executePlan`: the plan's fields, the execution data, the
      realised R as the store computes it, and the execution time. */
  function ExecutedTrade(plan: Plan, data: ExecutionData, executedAt: int): (t: Trade)
    requires plan.entryPrice != plan.stopLoss
    ensures t.plan == plan && t.executedAt == executedAt
    ensures t.executionType == data.executionType && t.actualExitPrice == data.actualExitPrice
    ensures t.psychologyTags == data.psychologyTags && t.executionNotes == data.executionNotes
    ensures t.actualR * Abs(plan.entryPrice - plan.stopLoss) == data.actualExitPrice - plan.entryPrice
  {
    Trade(plan, data.executionType, data.actualExitPrice,
      StoredR(plan.entryPrice, plan.stopLoss, data.actualExitPrice),
      data.psychologyTags, data.executionNotes, executedAt)
  }

  predicate IsActive(p: Plan)
  {
    p.status == Active
  }

  /** `trades.filter(t => t.id !== id)`. */
  function WithoutTrade(trades: seq<Trade>, id: string): (r: seq<Trade>)
    ensures forall i :: 0 <= i < |r| ==> r[i].plan.id != id && r[i] in trades
    ensures forall i :: 0 <= i < |trades| && trades[i].plan.id != id ==> trades[i] in r
    ensures IsSubsequence(r, trades)
    ensures forall t :: multiset(r)[t] == if t.plan.id != id then multiset(trades)[t] else 0
  {
    var keep := (t: Trade) => t.plan.id != id;
    var r := Filter(trades, keep);
    assert IsSubsequence(r, trades) by {
      FilterIsSubsequence(trades, keep);
    }
    assert (forall i :: 0 <= i < |r| ==> r[i].plan.id != id && r[i] in trades)
        && (forall i :: 0 <= i < |trades| && trades[i].plan.id != id ==> trades[i] in r) by {
      FilterSpec(trades, keep);
    }
    assert forall t :: multiset(r)[t] == if t.plan.id != id then multiset(trades)[t] else 0 by {
      FilterMultiset(trades, keep);
    }
    r
  }

  /** The active plans: those with status active, in order (`plans.filter(p => p.status === 'active')`). */
  function ActivePlansOf(plans: seq<Plan>): (r: seq<Plan>)
    ensures forall i :: 0 <= i < |r| ==> r[i].status == Active && r[i] in plans
    ensures forall i :: 0 <= i < |plans| && plans[i].status == Active ==> plans[i] in r
    ensures IsSubsequence(r, plans)
    ensures forall p :: multiset(r)[p] == if p.status == Active then multiset(plans)[p] else 0
  {
    var r := Filter(plans, IsActive);
    assert IsSubsequence(r, plans) by {
      FilterIsSubsequence(plans, IsActive);
    }
    assert (forall i :: 0 <= i < |r| ==> r[i].status == Active && r[i] in plans)
        && (forall i :: 0 <= i < |plans| && plans[i].status == Active ==> plans[i] in r) by {
      FilterSpec(plans, IsActive);
    }
    assert forall p :: multiset(r)[p] == if p.status == Active then multiset(plans)[p] else 0 by {
      FilterMultiset(plans, IsActive);
    }
    r
  }

  /** Once a plan is marked executed, no plan with its id is active. */
  lemma ExecutedPlanNotActive(plans: seq<Plan>, id: string)
    ensures forall i :: 0 <= i < |ActivePlansOf(MarkStatus(plans, id, Executed))| ==>
      ActivePlansOf(MarkStatus(plans, id, Executed))[i].id != id
  {
    var marked := MarkStatus(plans, id, Executed);
    forall i | 0 <= i < |ActivePlansOf(marked)| ensures ActivePlansOf(marked)[i].id != id {
      var p := ActivePlansOf(marked)[i];
      var j :| 0 <= j < |marked| && marked[j] == p;
      assert p.status == Active;
    }
  }

  class TradingPlanStore {
    var plans: seq<Plan>
    var executedTrades: seq<Trade>
    var recentPairs: seq<string>

    /** A fresh store: no plans, no trades, and the saved recent pairs or the default list. */
    constructor (savedPairs: Option<seq<string>>)
      ensures plans == [] && executedTrades == []
      ensures recentPairs == if savedPairs.Some? then savedPairs.value else DefaultRecentPairs
    {
      plans := [];
      executedTrades := [];
      recentPairs := if savedPairs.Some? then savedPairs.value else DefaultRecentPairs;
    }

    method AddRecentPair(pair: string)
      modifies this
      ensures recentPairs == WithRecentPair(old(recentPairs), pair)
      ensures plans == old(plans) && executedTrades == old(executedTrades)
    {
      recentPairs := WithRecentPair(recentPairs, pair);
    }

    /** Prepends a new active plan and records its currency pair as the most recent. */
    method CreatePlan(data: PlanData, id: string, now: int) returns (p: Plan)
      modifies this
      ensures p == NewPlan(data, id, now)
      ensures plans == [p] + old(plans)
      ensures recentPairs == WithRecentPair(old(recentPairs), data.currencyPair)
      ensures executedTrades == old(executedTrades)
    {
      p := NewPlan(data, id, now);
      plans := [p] + plans;
      AddRecentPair(data.currencyPair);
    }

    /** Executes the first plan with that id: prepends its trade and marks the plan
        executed. Without such a plan it returns None and changes nothing. */
    method ExecutePlan(planId: string, data: ExecutionData, now: int) returns (r: Option<Trade>)
      requires forall i :: 0 <= i < |plans| && plans[i].id == planId ==> plans[i].entryPrice != plans[i].stopLoss
      modifies this
      ensures FindById(old(plans), planId).None? ==>
        r.None? && plans == old(plans) && executedTrades == old(executedTrades)
      ensures FindById(old(plans), planId).Some? ==>
        && r == Some(ExecutedTrade(FindById(old(plans), planId).value, data, now))
        && executedTrades == [r.value] + old(executedTrades)
        && plans == MarkStatus(old(plans), planId, Executed)
      ensures recentPairs == old(recentPairs)
    {
      var found := FindById(plans, planId);
      if found.None? {
        return None;
      }
      var plan := found.value;
      var trade := ExecutedTrade(plan, data, now);
      executedTrades := [trade] + executedTrades;
      plans := MarkStatus(plans, planId, Executed);
      r := Some(trade);
    }

    method DeleteTrade(tradeId: string)
      modifies this
      ensures executedTrades == WithoutTrade(old(executedTrades), tradeId)
      ensures plans == old(plans) && recentPairs == old(recentPairs)
    {
      executedTrades := WithoutTrade(executedTrades, tradeId);
    }

    method DeleteAllTrades()
      modifies this
      ensures executedTrades == []
      ensures plans == old(plans) && recentPairs == old(recentPairs)
    {
      executedTrades := [];
    }

    /** Drops the trade and makes the plan it came from active again. */
    method RestorePlanFromTrade(trade: Trade)
      modifies this
      ensures executedTrades == WithoutTrade(old(executedTrades), trade.plan.id)
      ensures plans == MarkStatus(old(plans), trade.plan.id, Active)
      ensures recentPairs == old(recentPairs)
    {
      executedTrades := WithoutTrade(executedTrades, trade.plan.id);
      plans := MarkStatus(plans, trade.plan.id, Active);
    }

    function ActivePlans(): (r: seq<Plan>)
      reads this
      ensures forall i :: 0 <= i < |r| ==> r[i].status == Active && r[i] in plans
      ensures forall i :: 0 <= i < |plans| && plans[i].status == Active ==> plans[i] in r
      ensures r == ActivePlansOf(plans)
    {
      ActivePlansOf(plans)
    }
  }
}
