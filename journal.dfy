/** The journal's two records: a trading plan and the trade it becomes once
    executed. Identifiers and timestamps, which the source takes from
    `Date.now()`, are plain values supplied by the caller. */
module Journal {

  datatype Direction = Long | Short
  datatype Status = Active | Executed
  datatype ExecutionType = TakeProfit | StopLoss | ManualClose

  /** A planned trade (`TradingPlan`). Prices and R values are exact reals. */
  datatype Plan = Plan(
    id: string,
    date: string,
    currencyPair: string,
    direction: Direction,
    entryPrice: real,
    stopLoss: real,
    takeProfit: real,
    commission: real,
    setup: string,
    session: string,
    strategy: string,
    comment: string,
    expectedR: real,
    status: Status,
    createdAt: int)

  /** An executed plan (`ExecutedTrade`): every plan field, copied when the plan
      was executed, plus the realised outcome. */
  datatype Trade = Trade(
    plan: Plan,
    executionType: ExecutionType,
    actualExitPrice: real,
    actualR: real,
    psychologyTags: seq<string>,
    executionNotes: string,
    executedAt: int)

  /** The tag that marks a clean execution; every other tag is a psychological error. */
  const PerfectExecution: string := "Perfect Execution"

  /** `trades.map(t => t.actualR)`. */
  function RValues(ts: seq<Trade>): (rs: seq<real>)
    ensures |rs| == |ts| && forall i :: 0 <= i < |ts| ==> rs[i] == ts[i].actualR
  {
    seq(|ts|, i requires 0 <= i < |ts| => ts[i].actualR)
  }

  /** Sort key of the curve builders: the execution timestamp. */
  function ExecutedAtKey(t: Trade): real
  {
    t.executedAt as real
  }

  function SetupOf(t: Trade): string
  {
    t.plan.setup
  }

  function SessionOf(t: Trade): string
  {
    t.plan.session
  }
}
