/** The plan dialog: a form whose price fields feed an effect that keeps the
    expected R up to date, a validity test for the submit button, and a
    submit that emits the plan and resets the form. The form state is
    updated field by field, so it is a class; the formula itself is
    `RMultiple.ExpectedR`. */
module CreatePlanForm {
  import opened Journal
  import opened RMultiple
  import opened FormValues
  import PlanStore

  /** The commission field's initial text, `'0.04'` (percent per side). */
  const DefaultCommission: Input := Num(0.04)

  /** The pair used when no recent pair is known. */
  const FallbackPair: string := "BTCUSDT"

  /** The price fields whose change re-runs the expected-R effect. */
  datatype PriceField = EntryField | StopField | TakeField | CommissionField

  /** The other text fields. */
  datatype TextField = Date | CurrencyPair | Setup | Session | Strategy | Comment

  /** `recentPairs[0] || 'BTCUSDT'`: an empty first entry also falls back. */
  function InitialPair(recentPairs: seq<string>): (pair: string)
    ensures pair != ""
    ensures pair == FallbackPair || (recentPairs != [] && pair == recentPairs[0])
    ensures recentPairs != [] && recentPairs[0] != "" ==> pair == recentPairs[0]
  {
    if recentPairs != [] && recentPairs[0] != "" then recentPairs[0] else FallbackPair
  }

  /** What the effect stores once the three prices are numbers: a zero risk or
      a commission that is not a number makes the result non-finite. */
  function EffectValue(entry: real, stop: real, take: real, commission: Input): (r: Number)
    ensures r.Finite? <==> entry != stop && commission.Num?
    ensures r.Finite? ==> r.value == ExpectedR(entry, stop, take, commission.value)
  {
    if entry != stop && commission.Num? then Finite(ExpectedR(entry, stop, take, commission.value))
    else NonFinite
  }

  /** The expected R after the effect ran on the given fields, starting from `current`: kept
      unless all three prices are numbers, and then finite exactly when the risk is non-zero
      and the commission is a number. */
  function Recomputed(entry: Input, stop: Input, take: Input, commission: Input, current: Number): (r: Number)
    ensures !(entry.Num? && stop.Num? && take.Num?) ==> r == current
    ensures entry.Num? && stop.Num? && take.Num? ==>
      && (r.Finite? <==> entry.value != stop.value && commission.Num?)
      && (r.Finite? ==> r.value == ExpectedR(entry.value, stop.value, take.value, commission.value))
  {
    if entry.Num? && stop.Num? && take.Num? then EffectValue(entry.value, stop.value, take.value, commission)
    else current
  }

  /** The form's placeholder prices with the default commission give
      443.9296 / 333, which `toFixed(2)` shows as 1.33. */
  lemma PlaceholderExpectedR(current: Number)
    ensures Recomputed(Num(112588.0), Num(112255.0), Num(113122.0), DefaultCommission, current)
            == Finite(443.9296 / 333.0)
    ensures 1.325 <= 443.9296 / 333.0 < 1.335
  {
    ExpectedRPlaceholderExample();
  }

  /** The direction field plays no part: mirroring stop and take around the
      entry (turning a long set-up into the matching short one) leaves the
      stored value as it is. */
  lemma RecomputedIgnoresDirection(entry: real, stop: real, take: real, commission: Input, current: Number)
    ensures Recomputed(Num(entry), Num(2.0 * entry - stop), Num(2.0 * entry - take), commission, current)
            == Recomputed(Num(entry), Num(stop), Num(take), commission, current)
  {
    if entry != stop && commission.Num? {
      ExpectedRDirectionFree(entry, stop, take, commission.value);
    }
  }

  /** With a zero commission the stored value is reward over risk, never negative. */
  lemma ZeroCommissionIsRewardToRisk(entry: real, stop: real, take: real, current: Number)
    requires entry != stop
    ensures var r := Recomputed(Num(entry), Num(stop), Num(take), Num(0.0), current);
            r.Finite? && r.value == Abs(take - entry) / Abs(entry - stop) && r.value >= 0.0
  {
    ExpectedRDirectionFree(entry, stop, take, 0.0);
  }

  class Form {
    var date: string
    var currencyPair: string
    var direction: Direction
    var entryPrice: Input
    var stopLoss: Input
    var takeProfit: Input
    var commission: Input
    var setup: string
    var session: string
    var strategy: string
    var comment: string
    var expectedR: Number

    /** Whenever the three prices are numbers, the shown expected R is the one
        they and the commission give: every edit of a price re-runs the effect. */
    predicate Valid()
      reads this
    {
      entryPrice.Num? && stopLoss.Num? && takeProfit.Num? ==>
        expectedR == EffectValue(entryPrice.value, stopLoss.value, takeProfit.value, commission)
    }

    /** The state the form opens with and returns to after a submit. */
    predicate Pristine(today: string, recentPairs: seq<string>)
      reads this
    {
      date == today && currencyPair == InitialPair(recentPairs) && direction == Long
      && entryPrice == Blank && stopLoss == Blank && takeProfit == Blank && commission == DefaultCommission
      && setup == "" && session == "" && strategy == "" && comment == ""
      && expectedR == Finite(0.0)
    }

    constructor (today: string, recentPairs: seq<string>)
      ensures Pristine(today, recentPairs) && Valid()
    {
      date := today;
      currencyPair := InitialPair(recentPairs);
      direction := Long;
      entryPrice, stopLoss, takeProfit := Blank, Blank, Blank;
      commission := DefaultCommission;
      setup, session, strategy, comment := "", "", "", "";
      expectedR := Finite(0.0);
    }

    /** The submit button is enabled iff the three prices and the three labels
        are non-empty; the comment, the commission and the date are not looked at. */
    predicate IsFormValid()
      reads this
    {
      Filled(entryPrice) && Filled(stopLoss) && Filled(takeProfit)
      && setup != "" && session != "" && strategy != ""
    }

    /** The expected-R effect: recompute only when the three prices are
        non-empty and numbers, otherwise keep the previous value. */
    method Refresh()
      modifies this`expectedR
      ensures expectedR == Recomputed(entryPrice, stopLoss, takeProfit, commission, old(expectedR))
      ensures Valid()
    {
      if Filled(entryPrice) && Filled(stopLoss) && Filled(takeProfit) {
        if entryPrice.Num? && stopLoss.Num? && takeProfit.Num? {
          var entry, stop, take := entryPrice.value, stopLoss.value, takeProfit.value;
          if entry != stop && commission.Num? {
            expectedR := Finite(ExpectedR(entry, stop, take, commission.value));
          } else {
            expectedR := NonFinite;
          }
        }
      }
    }

    /** Typing into a price field, then the effect. */
    method EditPrice(field: PriceField, value: Input)
      modifies this`entryPrice, this`stopLoss, this`takeProfit, this`commission, this`expectedR
      ensures entryPrice == (if field == EntryField then value else old(entryPrice))
      ensures stopLoss == (if field == StopField then value else old(stopLoss))
      ensures takeProfit == (if field == TakeField then value else old(takeProfit))
      ensures commission == (if field == CommissionField then value else old(commission))
      ensures expectedR == Recomputed(entryPrice, stopLoss, takeProfit, commission, old(expectedR))
      ensures Valid()
    {
      match field {
        case EntryField => entryPrice := value;
        case StopField => stopLoss := value;
        case TakeField => takeProfit := value;
        case CommissionField => commission := value;
      }
      Refresh();
    }

    /** Editing a field the effect does not watch; the expected R stays. */
    method EditText(field: TextField, value: string)
      requires Valid()
      modifies this`date, this`currencyPair, this`setup, this`session, this`strategy, this`comment
      ensures date == (if field == Date then value else old(date))
      ensures currencyPair == (if field == CurrencyPair then value else old(currencyPair))
      ensures setup == (if field == Setup then value else old(setup))
      ensures session == (if field == Session then value else old(session))
      ensures strategy == (if field == Strategy then value else old(strategy))
      ensures comment == (if field == Comment then value else old(comment))
      ensures Valid()
    {
      match field {
        case Date => date := value;
        case CurrencyPair => currencyPair := value;
        case Setup => setup := value;
        case Session => session := value;
        case Strategy => strategy := value;
        case Comment => comment := value;
      }
    }

    /** Choosing long or short; the expected R stays. */
    method SetDirection(d: Direction)
      requires Valid()
      modifies this`direction
      ensures direction == d
      ensures Valid()
    {
      direction := d;
    }

    /** Submitting: the plan carries the form's fields and the shown expected R,
        which is the expected R of its own prices; then the form is reset to its
        defaults for `today` and the current recent pairs, and the button is
        disabled again. */
    method Submit(today: string, recentPairs: seq<string>) returns (data: PlanStore.PlanData)
      requires Valid() && IsFormValid()
      requires entryPrice.Num? && stopLoss.Num? && takeProfit.Num? && commission.Num?
      requires entryPrice.value != stopLoss.value
      modifies this
      ensures data == PlanStore.PlanData(old(date), old(currencyPair), old(direction),
        old(entryPrice).value, old(stopLoss).value, old(takeProfit).value, old(commission).value,
        old(setup), old(session), old(strategy), old(comment), old(expectedR).value)
      ensures data.expectedR == ExpectedR(data.entryPrice, data.stopLoss, data.takeProfit, data.commission)
      ensures Pristine(today, recentPairs) && Valid() && !IsFormValid()
    {
      data := PlanStore.PlanData(date, currencyPair, direction,
        entryPrice.value, stopLoss.value, takeProfit.value, commission.value,
        setup, session, strategy, comment, expectedR.value);
      date := today;
      currencyPair := InitialPair(recentPairs);
      direction := Long;
      entryPrice, stopLoss, takeProfit := Blank, Blank, Blank;
      commission := DefaultCommission;
      setup, session, strategy, comment := "", "", "", "";
      expectedR := Finite(0.0);
    }
  }
}
