/** The execution dialog for one plan: the execution type forces the exit
    price, an effect keeps the realised R shown for that exit, and submit
    sends the execution (at least one psychology tag required) and resets
    the form. The plan is the dialog's prop and comes in as a parameter;
    the form state is updated step by step, so it is a class. */
module ExecutePlanForm {
  import opened Seqs
  import opened Journal
  import opened RMultiple
  import opened FormValues
  import PlanStore

  /** The realised R the effect shows for a numeric exit; a plan with zero
      risk makes it non-finite. */
  function RealisedR(plan: Plan, exit: real): (r: Number)
    ensures r.Finite? <==> plan.entryPrice != plan.stopLoss
    ensures r.Finite? ==> r.value == DirectionalR(plan.direction, plan.entryPrice, plan.stopLoss, exit)
  {
    if plan.entryPrice != plan.stopLoss then Finite(DirectionalR(plan.direction, plan.entryPrice, plan.stopLoss, exit))
    else NonFinite
  }

  /** The R shown after the realised-R effect ran, starting from `current`:
      none without a plan or with an empty exit, kept as it was when the exit
      does not parse. */
  function Recomputed(plan: Option<Plan>, exit: Input, current: Option<Number>): (r: Option<Number>)
    ensures plan.None? || exit == Blank ==> r == None
    ensures plan.Some? && exit.Num? ==> r == Some(RealisedR(plan.value, exit.value))
    ensures plan.Some? && exit.Junk? ==> r == current
  {
    if plan.Some? && Filled(exit) then
      if exit.Num? then Some(RealisedR(plan.value, exit.value)) else current
    else None
  }

  /** The exit field after the execution-type effect: the plan's target or
      stop for the two automatic exits, cleared for a manual close or without a plan. */
  function ForcedExit(t: ExecutionType, plan: Option<Plan>): (e: Input)
    ensures e.Num? <==> plan.Some? && (t == TakeProfit || t == StopLoss)
    ensures !e.Num? ==> e == Blank
    ensures e.Num? && t == TakeProfit ==> e.value == plan.value.takeProfit
    ensures e.Num? && t == StopLoss ==> e.value == plan.value.stopLoss
  {
    if t == TakeProfit && plan.Some? then Num(plan.value.takeProfit)
    else if t == StopLoss && plan.Some? then Num(plan.value.stopLoss)
    else Blank
  }

  /** Choosing "stop loss" shows exactly one unit of risk: -1R when the stop
      lies on the losing side of the entry, +1R otherwise. */
  lemma StopLossShowsOneR(plan: Plan, current: Option<Number>)
    requires plan.entryPrice != plan.stopLoss
    ensures var r := Recomputed(Some(plan), ForcedExit(StopLoss, Some(plan)), current);
      && r.Some? && r.value.Finite?
      && Abs(r.value.value) == 1.0
      && ((plan.direction == Long && plan.stopLoss < plan.entryPrice)
          || (plan.direction == Short && plan.stopLoss > plan.entryPrice)
          ==> r.value.value == -1.0)
  {
    StopExitIsOneR(plan.direction, plan.entryPrice, plan.stopLoss);
  }

  /** Choosing "take profit" on a plan whose target lies on the winning side
      shows the plan's reward-to-risk, i.e. its planned R without commission. */
  lemma TakeProfitShowsPlannedR(plan: Plan, current: Option<Number>)
    requires plan.entryPrice != plan.stopLoss
    requires plan.direction == Long ==> plan.takeProfit >= plan.entryPrice
    requires plan.direction == Short ==> plan.takeProfit <= plan.entryPrice
    ensures Recomputed(Some(plan), ForcedExit(TakeProfit, Some(plan)), current)
            == Some(Finite(ExpectedR(plan.entryPrice, plan.stopLoss, plan.takeProfit, 0.0)))
  {
    var entry, stop, take := plan.entryPrice, plan.stopLoss, plan.takeProfit;
    ExpectedRDirectionFree(entry, stop, take, 0.0);
    var ret := if plan.direction == Long then take - entry else entry - take;
    assert ret == Abs(take - entry);
    assert DirectionalR(plan.direction, entry, stop, take) == Abs(take - entry) / Abs(entry - stop);
  }

  class Form {
    var executionType: ExecutionType
    var actualExitPrice: Input
    var selectedTags: seq<string>
    var executionNotes: string
    var actualR: Option<Number>

    /** What the two effects keep true for the current plan: an automatic exit
        shows the plan's own price, and the R shown belongs to the exit (none
        without a plan or an exit). */
    predicate Valid(plan: Option<Plan>)
      reads this
    {
      && (executionType != ManualClose ==> actualExitPrice == ForcedExit(executionType, plan))
      && (plan.None? || actualExitPrice == Blank ==> actualR == None)
      && (plan.Some? && actualExitPrice.Num? ==> actualR == Some(RealisedR(plan.value, actualExitPrice.value)))
    }

    /** Manual close, empty exit, no tags, no notes, no R. */
    predicate Pristine()
      reads this
    {
      executionType == ManualClose && actualExitPrice == Blank && selectedTags == []
      && executionNotes == "" && actualR == None
    }

    constructor (plan: Option<Plan>)
      ensures Pristine() && Valid(plan)
    {
      executionType := ManualClose;
      actualExitPrice := Blank;
      selectedTags := [];
      executionNotes := "";
      actualR := None;
    }

    /** The button is enabled iff an exit is entered and at least one tag is chosen. */
    predicate IsFormValid()
      reads this
    {
      Filled(actualExitPrice) && |selectedTags| > 0
    }

    /** The realised-R effect, run when the plan or the exit changes. */
    method RefreshR(plan: Option<Plan>)
      modifies this`actualR
      ensures actualR == Recomputed(plan, actualExitPrice, old(actualR))
    {
      if plan.Some? && Filled(actualExitPrice) {
        if actualExitPrice.Num? {
          var p := plan.value;
          if p.entryPrice != p.stopLoss {
            actualR := Some(Finite(DirectionalR(p.direction, p.entryPrice, p.stopLoss, actualExitPrice.value)));
          } else {
            actualR := Some(NonFinite);
          }
        }
      } else {
        actualR := None;
      }
    }

    /** The execution-type effect, run when the type or the plan changes. */
    method ForceExit(plan: Option<Plan>)
      modifies this`actualExitPrice
      ensures actualExitPrice == ForcedExit(executionType, plan)
    {
      if executionType == TakeProfit && plan.Some? {
        actualExitPrice := Num(plan.value.takeProfit);
      } else if executionType == StopLoss && plan.Some? {
        actualExitPrice := Num(plan.value.stopLoss);
      } else {
        actualExitPrice := Blank;
      }
    }

    /** Choosing an execution type: the exit is forced, then the R follows it. */
    method SelectExecutionType(t: ExecutionType, plan: Option<Plan>)
      modifies this`executionType, this`actualExitPrice, this`actualR
      ensures executionType == t && actualExitPrice == ForcedExit(t, plan)
      ensures actualR == Recomputed(plan, actualExitPrice, old(actualR))
      ensures t == ManualClose ==> actualR == None
      ensures Valid(plan)
    {
      executionType := t;
      ForceExit(plan);
      RefreshR(plan);
    }

    /** The dialog receives another plan: both effects run again. */
    method ChangePlan(plan: Option<Plan>)
      modifies this`actualExitPrice, this`actualR
      ensures actualExitPrice == ForcedExit(executionType, plan)
      ensures actualR == Recomputed(plan, actualExitPrice, old(actualR))
      ensures Valid(plan)
    {
      ForceExit(plan);
      RefreshR(plan);
    }

    /** Typing an exit price, which the field allows only for a manual close. */
    method EditExit(value: Input, plan: Option<Plan>)
      requires executionType == ManualClose
      modifies this`actualExitPrice, this`actualR
      ensures actualExitPrice == value
      ensures actualR == Recomputed(plan, value, old(actualR))
      ensures Valid(plan)
    {
      actualExitPrice := value;
      RefreshR(plan);
    }

    /** The tag picker's new selection. */
    method SetTags(tags: seq<string>, ghost plan: Option<Plan>)
      requires Valid(plan)
      modifies this`selectedTags
      ensures selectedTags == tags && Valid(plan)
    {
      selectedTags := tags;
    }

    method SetNotes(notes: string, ghost plan: Option<Plan>)
      requires Valid(plan)
      modifies this`executionNotes
      ensures executionNotes == notes && Valid(plan)
    {
      executionNotes := notes;
    }

    /** Submitting: nothing happens without a plan or without a tag. Otherwise
        the plan's id and the execution are sent, an automatic exit being the
        plan's own target or stop, and the form is reset. */
    method Submit(plan: Option<Plan>) returns (sent: Option<(string, PlanStore.ExecutionData)>)
      requires Valid(plan)
      requires plan.Some? && selectedTags != [] ==> actualExitPrice.Num?
      modifies this
      ensures plan.None? || old(selectedTags) == [] ==>
        sent == None && unchanged(this)
      ensures plan.Some? && old(selectedTags) != [] ==>
        && sent == Some((plan.value.id, PlanStore.ExecutionData(old(executionType), old(actualExitPrice).value,
                         old(selectedTags), old(executionNotes))))
        && (old(executionType) == TakeProfit ==> sent.value.1.actualExitPrice == plan.value.takeProfit)
        && (old(executionType) == StopLoss ==> sent.value.1.actualExitPrice == plan.value.stopLoss)
        && Pristine()
      ensures Valid(plan)
    {
      if plan.None? || |selectedTags| == 0 {
        return None;
      }
      var data := PlanStore.ExecutionData(executionType, actualExitPrice.value, selectedTags, executionNotes);
      sent := Some((plan.value.id, data));
      executionType := ManualClose;
      actualExitPrice := Blank;
      selectedTags := [];
      executionNotes := "";
      actualR := None;
    }
  }
}
