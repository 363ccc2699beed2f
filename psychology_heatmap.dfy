/** The psychology heatmap: for every setup × session pair, how many of its
    trades carry an error tag, the rounded error rate in percent and the count
    of every error tag; a cell opens an analysis with the mean R of all its
    trades and of its error trades, and a list of recommendations. */
module PsychologyHeatmap {
  import opened Seqs
  import opened Journal
  import opened Metrics
  import opened Timeline
  import opened CrossTab
  import opened Psychology

  /** What the collecting pass keeps per cell. */
  datatype PsychStats = PsychStats(total: nat, totalR: real, errorTrades: seq<Trade>, errorTypes: map<string, nat>)

  const EmptyStats := PsychStats(0, 0.0, [], map[])

  /** The statistics of a cell holding exactly `ts`. */
  function StatsOf(ts: seq<Trade>): (st: PsychStats)
    ensures st.total == |ts| && st.totalR == Sum(RValues(ts))
    ensures st.errorTrades == ErrorTradesOf(ts) && st.errorTypes == Tally(AllErrorTags(ts))
    ensures ts == [] ==> st == EmptyStats
  {
    PsychStats(|ts|, Sum(RValues(ts)), ErrorTradesOf(ts), Tally(AllErrorTags(ts)))
  }

  ghost predicate Collected(cellStats: map<CellKey, PsychStats>, ts: seq<Trade>)
  {
    && (forall k :: k in cellStats <==> CellTrades(ts, k) != [])
    && (forall k :: k in cellStats ==> cellStats[k] == StatsOf(CellTrades(ts, k)))
  }

  /** The entry of a pair after collecting, an absent entry read as empty statistics. */
  lemma CollectedEntry(cellStats: map<CellKey, PsychStats>, ts: seq<Trade>, key: CellKey)
    requires Collected(cellStats, ts)
    ensures (if key in cellStats then cellStats[key] else EmptyStats) == StatsOf(CellTrades(ts, key))
  {
  }

  /** The inner tag loop: one more for every tag of `tags` other than "Perfect Execution". */
  method CountErrorTags(errorTypes: map<string, nat>, ghost seen: seq<string>, tags: seq<string>)
    returns (counts: map<string, nat>)
    requires errorTypes == Tally(seen)
    ensures counts == Tally(seen + ErrorTags(tags))
  {
    counts := errorTypes;
    assert seen + ErrorTags(tags[..0]) == seen;
    for j := 0 to |tags|
      invariant counts == Tally(seen + ErrorTags(tags[..j]))
    {
      var tag := tags[j];
      ErrorTagsStep(seen, tags, j);
      if tag != PerfectExecution {
        TallyNext(counts, seen + ErrorTags(tags[..j]), tag, seen + ErrorTags(tags[..j + 1]));
        counts := counts[tag := (if tag in counts then counts[tag] else 0) + 1];
      }
    }
    assert tags[..|tags|] == tags;
  }

  /** One step of the tag loop: an error tag joins the tags seen, "Perfect Execution" does
      not. */
  lemma ErrorTagsStep(seen: seq<string>, tags: seq<string>, j: nat)
    requires j < |tags|
    ensures tags[j] != PerfectExecution ==> seen + ErrorTags(tags[..j + 1]) == seen + ErrorTags(tags[..j]) + [tags[j]]
    ensures tags[j] == PerfectExecution ==> seen + ErrorTags(tags[..j + 1]) == seen + ErrorTags(tags[..j])
  {
    ErrorTagsAppend(tags, j);
    if tags[j] == PerfectExecution {
      assert ErrorTags(tags[..j]) + [] == ErrorTags(tags[..j]);
    }
  }

  lemma TallyNext(counts: map<string, nat>, done: seq<string>, tag: string, next: seq<string>)
    requires counts == Tally(done) && next == done + [tag]
    ensures counts[tag := (if tag in counts then counts[tag] else 0) + 1] == Tally(next)
  {
    TallyAppend(done, tag);
  }

  /** The collecting pass: one entry per pair that has trades, with their number, their total
      R, the error trades and the count of every error tag. */
  method CollectStats(trades: seq<Trade>) returns (cellStats: map<CellKey, PsychStats>)
    ensures Collected(cellStats, trades)
  {
    cellStats := map[];
    for i := 0 to |trades|
      invariant Collected(cellStats, trades[..i])
    {
      cellStats := AddTrade(cellStats, trades[..i], trades[i]);
      assert trades[..i + 1] == trades[..i] + [trades[i]];
    }
    assert trades[..|trades|] == trades;
  }

  /** The body of the collecting pass for one trade: the entry of its pair, created empty
      when missing, then updated. */
  method AddTrade(cellStats: map<CellKey, PsychStats>, ghost done: seq<Trade>, trade: Trade)
    returns (updated: map<CellKey, PsychStats>)
    requires Collected(cellStats, done)
    ensures Collected(updated, done + [trade])
  {
    var key := KeyOf(trade);
    ghost var seen := AllErrorTags(CellTrades(done, key));
    CollectedEntry(cellStats, done, key);
    updated := cellStats;
    if key !in updated {
      updated := updated[key := PsychStats(0, 0.0, [], map[])];
    }
    var st := updated[key];
    var entry := UpdateEntry(st, seen, trade);
    updated := updated[key := entry];
    assert updated == cellStats[key := entry] by {
      if key !in cellStats {
        UpdateTwice(cellStats, key, EmptyStats, entry);
      }
    }
    CollectStep(cellStats, done, trade, st, entry.errorTypes, updated);
  }

  /** One more trade in an entry: one more trade, its R added, and when it has an error tag
      the trade kept and each of its error tags counted. */
  method UpdateEntry(st: PsychStats, ghost seen: seq<string>, trade: Trade) returns (entry: PsychStats)
    requires st.errorTypes == Tally(seen)
    ensures entry == PsychStats(st.total + 1, st.totalR + trade.actualR,
                                st.errorTrades + (if IsErrorTrade(trade) then [trade] else []),
                                Tally(seen + ErrorTags(trade.psychologyTags)))
  {
    var errorTrades, errorTypes := st.errorTrades, st.errorTypes;
    var hasErrors := HasErrorTag(trade.psychologyTags);
    if hasErrors {
      errorTrades := errorTrades + [trade];
      errorTypes := CountErrorTags(errorTypes, seen, trade.psychologyTags);
    } else {
      assert seen + ErrorTags(trade.psychologyTags) == seen;
      assert st.errorTrades + [] == st.errorTrades;
    }
    entry := PsychStats(st.total + 1, st.totalR + trade.actualR, errorTrades, errorTypes);
  }

  lemma CollectStep(m: map<CellKey, PsychStats>, ts: seq<Trade>, t: Trade, st: PsychStats,
                    types: map<string, nat>, m': map<CellKey, PsychStats>)
    requires Collected(m, ts)
    requires st == if KeyOf(t) in m then m[KeyOf(t)] else EmptyStats
    requires types == Tally(AllErrorTags(CellTrades(ts, KeyOf(t))) + ErrorTags(t.psychologyTags))
    requires m' == m[KeyOf(t) := PsychStats(st.total + 1, st.totalR + t.actualR,
                                            st.errorTrades + (if IsErrorTrade(t) then [t] else []), types)]
    ensures Collected(m', ts + [t])
  {
    CollectedEntry(m, ts, KeyOf(t));
    forall k
      ensures k in m' <==> CellTrades(ts + [t], k) != []
      ensures k in m' ==> m'[k] == StatsOf(CellTrades(ts + [t], k))
    {
      CollectStepAt(m, ts, t, st, types, m', k);
    }
  }

  lemma CollectStepAt(m: map<CellKey, PsychStats>, ts: seq<Trade>, t: Trade, st: PsychStats,
                      types: map<string, nat>, m': map<CellKey, PsychStats>, k: CellKey)
    requires k in m <==> CellTrades(ts, k) != []
    requires k in m ==> m[k] == StatsOf(CellTrades(ts, k))
    requires st == StatsOf(CellTrades(ts, KeyOf(t)))
    requires types == Tally(AllErrorTags(CellTrades(ts, KeyOf(t))) + ErrorTags(t.psychologyTags))
    requires m' == m[KeyOf(t) := PsychStats(st.total + 1, st.totalR + t.actualR,
                                            st.errorTrades + (if IsErrorTrade(t) then [t] else []), types)]
    ensures k in m' <==> CellTrades(ts + [t], k) != []
    ensures k in m' ==> m'[k] == StatsOf(CellTrades(ts + [t], k))
  {
    CellTradesAppend(ts, t, k);
    var before, after := CellTrades(ts, k), CellTrades(ts + [t], k);
    if k == KeyOf(t) {
      StatsStep(before, t, st, types);
    } else {
      assert after == before;
    }
  }

  /** The record of a cell after one more trade. */
  lemma StatsStep(ts: seq<Trade>, t: Trade, st: PsychStats, types: map<string, nat>)
    requires st == StatsOf(ts)
    requires types == Tally(AllErrorTags(ts) + ErrorTags(t.psychologyTags))
    ensures StatsOf(ts + [t]) == PsychStats(st.total + 1, st.totalR + t.actualR,
                                            st.errorTrades + (if IsErrorTrade(t) then [t] else []), types)
  {
    TotalRStep(ts, t);
    ErrorTradesAppend(ts, t);
    AllErrorTagsAppend(ts, t);
  }

  /** `Number(((errors / total) * 100).toFixed(0))`: the percentage rounded to the nearest
      whole number, halves rounded up. */
  function RoundedRate(errors: nat, total: nat): (r: int)
    requires 0 < total
    ensures errors <= total ==> 0 <= r <= 100
    ensures errors == 0 ==> r == 0
    ensures errors == total ==> r == 100
  {
    RateBounds(errors, total);
    (errors as real / total as real * 100.0 + 0.5).Floor
  }

  /** The rounded rate is the whole number nearest to the exact percentage, the larger one
      when two are equally near. */
  lemma RoundedRateIsNearest(errors: nat, total: nat)
    requires 0 < total
    ensures var exact := errors as real / total as real * 100.0;
      exact - 0.5 < RoundedRate(errors, total) as real <= exact + 0.5
  {
  }

  datatype PsychologyCell = PsychologyCell(setup: string, session: string, errorRate: int, total: nat,
                                           errors: nat, errorTypes: map<string, nat>)

  /** The cell holding the trades `ct`: their number, the number of error trades, their
      rounded share in percent and the count of every error tag of the error trades; all
      zero and no tags without trades. */
  function CellOf(setup: string, session: string, ct: seq<Trade>): (c: PsychologyCell)
    ensures c.setup == setup && c.session == session
    ensures c.total == |ct|
    ensures c.errors == |ErrorTradesOf(ct)| <= c.total
    ensures c.errorTypes == Tally(AllErrorTags(ErrorTradesOf(ct)))
    ensures 0 <= c.errorRate <= 100
    ensures c.total == 0 ==> c.errorRate == 0 && c.errors == 0 && c.errorTypes == map[]
    ensures c.total > 0 ==> c.errorRate == RoundedRate(c.errors, c.total)
    ensures c.errors == 0 <==> c.errorTypes == map[]
  {
    var errs := ErrorTradesOf(ct);
    ErrorTradesCarryAllTags(ct);
    NoTagsIffNoErrorTrades(ct);
    TallyEmptyIff(AllErrorTags(ct));
    if ct == [] then PsychologyCell(setup, session, 0, 0, 0, map[])
    else PsychologyCell(setup, session, RoundedRate(|errs|, |ct|), |ct|, |errs|, Tally(AllErrorTags(ct)))
  }

  /** The cell of the pair (setup, session). */
  function CellAt(ts: seq<Trade>, setup: string, session: string): (c: PsychologyCell)
    ensures c == CellOf(setup, session, CellTrades(ts, CellKey(setup, session)))
  {
    CellOf(setup, session, CellTrades(ts, CellKey(setup, session)))
  }

  /** The cell of every pair, as a single value. */
  function PairCell(ts: seq<Trade>): (string, string) -> PsychologyCell
  {
    (setup, session) => CellAt(ts, setup, session)
  }

  /** Every cell of the flattened grid is the cell of its own pair, and every pair has its cell. */
  lemma FlatCellsOfPairs(ts: seq<Trade>)
    ensures forall c :: c in Flatten(GridRows(Setups(ts), Sessions(ts), PairCell(ts))) ==>
      c == CellAt(ts, c.setup, c.session) && c.setup in Setups(ts) && c.session in Sessions(ts)
    ensures forall setup, session :: setup in Setups(ts) && session in Sessions(ts) ==>
      CellAt(ts, setup, session) in Flatten(GridRows(Setups(ts), Sessions(ts), PairCell(ts)))
  {
    var cells := Flatten(GridRows(Setups(ts), Sessions(ts), PairCell(ts)));
    forall c | c in cells
      ensures c == CellAt(ts, c.setup, c.session) && c.setup in Setups(ts) && c.session in Sessions(ts)
    {
      var setup, session := FlatGridMember(Setups(ts), Sessions(ts), PairCell(ts), c);
    }
    forall setup, session | setup in Setups(ts) && session in Sessions(ts)
      ensures CellAt(ts, setup, session) in cells
    {
      FlatGridHas(Setups(ts), Sessions(ts), PairCell(ts), setup, session);
    }
  }

  /** The flat grid: the cells of every setup × session pair, row by row; every listed cell
      is the cell of its own pair, and every pair on the grid is listed. */
  function HeatmapData(ts: seq<Trade>): (cells: seq<PsychologyCell>)
    ensures forall c :: c in cells ==>
      c == CellAt(ts, c.setup, c.session) && c.setup in Setups(ts) && c.session in Sessions(ts)
    ensures forall setup, session :: setup in Setups(ts) && session in Sessions(ts) ==>
      CellAt(ts, setup, session) in cells
  {
    FlatCellsOfPairs(ts);
    Flatten(GridRows(Setups(ts), Sessions(ts), PairCell(ts)))
  }

  /** The source's reading of the collected record: no entry, or no trades, means an empty
      cell. Whatever trades the map was collected from, this is the cell of the pair among
      them. */
  function CellFromStats(cellStats: map<CellKey, PsychStats>, setup: string, session: string): (c: PsychologyCell)
    ensures forall ts :: Collected(cellStats, ts) ==> c == CellAt(ts, setup, session)
  {
    var key := CellKey(setup, session);
    var c := if key in cellStats && cellStats[key].total > 0 then
        var stats := cellStats[key];
        PsychologyCell(setup, session, RoundedRate(|stats.errorTrades|, stats.total), stats.total,
                       |stats.errorTrades|, stats.errorTypes)
      else
        PsychologyCell(setup, session, 0, 0, 0, map[]);
    assert forall ts :: Collected(cellStats, ts) ==> c == CellAt(ts, setup, session) by {
      forall ts | Collected(cellStats, ts) ensures c == CellAt(ts, setup, session) {
        CollectedEntry(cellStats, ts, key);
      }
    }
    c
  }

  /** The widget's computation: collect the cells, then push one cell per setup × session
      pair, row by row. */
  method BuildHeatmap(trades: seq<Trade>) returns (heatmapData: seq<PsychologyCell>)
    ensures heatmapData == HeatmapData(trades)
  {
    var cellStats := CollectStats(trades);
    var sessions, setups := Sessions(trades), Setups(trades);
    var cell := (setup, session) => CellFromStats(cellStats, setup, session);
    heatmapData := PushGrid(setups, sessions, cell);
    forall i, j | 0 <= i < |setups| && 0 <= j < |sessions|
      ensures cell(setups[i], sessions[j]) == PairCell(trades)(setups[i], sessions[j])
    {
      assert CellFromStats(cellStats, setups[i], sessions[j]) == CellAt(trades, setups[i], sessions[j]);
    }
    GridRowsExt(setups, sessions, cell, PairCell(trades));
  }

  /** The colour classes of a cell. */
  datatype ErrorColor = Muted | Clean | Few | Many | Critical

  /** The colour of a cell: muted when empty, then by the error rate with bounds 0, 20 and 50. */
  function GetCellColor(errorRate: int, total: nat): (c: ErrorColor)
    ensures c == Muted <==> total == 0
    ensures total > 0 ==>
      && (c == Clean <==> errorRate == 0)
      && (c == Few <==> errorRate != 0 && errorRate <= 20)
      && (c == Many <==> 20 < errorRate <= 50)
      && (c == Critical <==> errorRate > 50)
  {
    if total == 0 then Muted
    else if errorRate == 0 then Clean
    else if errorRate <= 20 then Few
    else if errorRate <= 50 then Many
    else Critical
  }

  function Severity(c: ErrorColor): nat
  {
    match c
    case Muted => 0
    case Clean => 1
    case Few => 2
    case Many => 3
    case Critical => 4
  }

  /** Among the cells of the grid, which never hold a negative rate, a higher error rate never
      gets a milder colour. */
  lemma ColorMonotone(a: int, b: int, total: nat)
    requires total > 0 && 0 <= a <= b
    ensures Severity(GetCellColor(a, total)) <= Severity(GetCellColor(b, total))
  {
  }

  /** The analysis of a cell: the cell itself with the mean R of its trades and of its error
      trades. */
  datatype AnalysisModalData = AnalysisModalData(setup: string, session: string, errorRate: int, total: nat,
                                                 errors: nat, errorTypes: map<string, nat>,
                                                 avgR: real, avgRWithErrors: real)

  /** The analysis of a cell from the trades of its pair: the cell's own figures, the mean R
      of the trades and the mean R of the error trades, each 0 when there is nothing to
      average. */
  function AnalysisOf(cell: PsychologyCell, relevant: seq<Trade>): (a: AnalysisModalData)
    ensures a.setup == cell.setup && a.session == cell.session
    ensures a.errorRate == cell.errorRate && a.total == cell.total
    ensures a.errors == cell.errors && a.errorTypes == cell.errorTypes
    ensures relevant == [] ==> a.avgR == 0.0
    ensures relevant != [] ==> a.avgR == Sum(RValues(relevant)) / |relevant| as real
    ensures ErrorTradesOf(relevant) == [] ==> a.avgRWithErrors == 0.0
    ensures ErrorTradesOf(relevant) != [] ==>
      a.avgRWithErrors == Sum(RValues(ErrorTradesOf(relevant))) / |ErrorTradesOf(relevant)| as real
  {
    AnalysisModalData(cell.setup, cell.session, cell.errorRate, cell.total, cell.errors, cell.errorTypes,
                      AvgR(RValues(relevant)), AvgR(RValues(ErrorTradesOf(relevant))))
  }

  /** A click on a cell: nothing for an empty cell; otherwise the analysis of the trades of
      its pair, looked up again from all the trades. */
  function OpenAnalysis(ts: seq<Trade>, cell: PsychologyCell): (r: Option<AnalysisModalData>)
    ensures r.None? <==> cell.total == 0
    ensures r.Some? ==> r.value == AnalysisOf(cell, CellTrades(ts, CellKey(cell.setup, cell.session)))
  {
    if cell.total == 0 then None
    else Some(AnalysisOf(cell, CellTrades(ts, CellKey(cell.setup, cell.session))))
  }

  /** For a cell of the grid the analysis always opens when it has trades; its error mean is 0
      without error trades and is the mean of the whole cell when every trade is an error. */
  lemma AnalysisOfGridCell(ts: seq<Trade>, setup: string, session: string)
    requires CellAt(ts, setup, session).total > 0
    ensures var cell := CellAt(ts, setup, session);
      var r := OpenAnalysis(ts, cell);
      && r.Some?
      && (cell.errors == 0 ==> r.value.avgRWithErrors == 0.0)
      && (cell.errors == cell.total ==> r.value.avgRWithErrors == r.value.avgR)
  {
    var ct := CellTrades(ts, CellKey(setup, session));
    if |ErrorTradesOf(ct)| == |ct| {
      ErrorTradesFull(ct);
    }
  }

  const RevengeTrade: string := "Revenge Trade"
  const RuleBreakSize: string := "Rule Break: Size"
  const EarlyExit: string := "Early Exit"

  /** `errorTypes[tag] > 0`; a missing tag compares as false. */
  predicate Flagged(errorTypes: map<string, nat>, tag: string)
    ensures tag !in errorTypes ==> !Flagged(errorTypes, tag)
    ensures tag in errorTypes ==> (Flagged(errorTypes, tag) <==> errorTypes[tag] != 0)
  {
    tag in errorTypes && errorTypes[tag] > 0
  }

  /** A tag other than "Perfect Execution" is flagged in a cell exactly when some trade of
      the cell carries it. */
  lemma FlaggedIffSomeTradeCarriesIt(setup: string, session: string, ct: seq<Trade>, tag: string)
    requires tag != PerfectExecution
    ensures Flagged(CellOf(setup, session, ct).errorTypes, tag) <==>
      exists i :: 0 <= i < |ct| && tag in ct[i].psychologyTags
  {
    ErrorTradesCarryAllTags(ct);
    TallyCounts(AllErrorTags(ct), tag);
    TagInAllErrorTags(ct, tag);
  }

  /** The advice shown in the analysis, in the order the source adds it. */
  datatype Recommendation = HighErrorRate | RevengeTrades | PositionSizing | EarlyExits | GoodDiscipline

  function Position(r: Recommendation): nat
  {
    match r
    case HighErrorRate => 0
    case RevengeTrades => 1
    case PositionSizing => 2
    case EarlyExits => 3
    case GoodDiscipline => 4
  }

  /** The recommendation `r` when its rule fires, nothing otherwise. */
  function When(fires: bool, r: Recommendation): seq<Recommendation>
  {
    if fires then [r] else []
  }

  /** The recommendations of the rules that fire, in rule order: at most one per rule, and
      never the praise. */
  function Fired(cell: AnalysisModalData): (r: seq<Recommendation>)
    ensures |r| <= 4
    ensures GoodDiscipline !in r
  {
    When(cell.errorRate > 50, HighErrorRate) + When(Flagged(cell.errorTypes, RevengeTrade), RevengeTrades)
      + When(Flagged(cell.errorTypes, RuleBreakSize), PositionSizing) + When(Flagged(cell.errorTypes, EarlyExit), EarlyExits)
  }

  /** The recommendations of a cell: one per rule that fires (error rate above 50, revenge
      trades, position-size rule breaks, early exits), in that order; the praise alone when
      none fires. */
  function RecommendationsFor(cell: AnalysisModalData): (r: seq<Recommendation>)
    ensures r != []
    ensures GoodDiscipline in r <==> Fired(cell) == []
  {
    if Fired(cell) == [] then [GoodDiscipline] else Fired(cell)
  }

  /** Positions strictly increase along the sequence: no recommendation twice, and in the order
      of the rules. */
  predicate InRuleOrder(rs: seq<Recommendation>)
  {
    forall i, j :: 0 <= i < j < |rs| ==> Position(rs[i]) < Position(rs[j])
  }

  /** No position above `n`. */
  predicate AllAtMost(rs: seq<Recommendation>, n: nat)
  {
    forall i :: 0 <= i < |rs| ==> Position(rs[i]) <= n
  }

  lemma WhenKeepsOrder(rs: seq<Recommendation>, fires: bool, r: Recommendation)
    requires InRuleOrder(rs) && Position(r) > 0 && AllAtMost(rs, Position(r) - 1)
    ensures InRuleOrder(rs + When(fires, r)) && AllAtMost(rs + When(fires, r), Position(r))
  {
  }

  /** A rule's recommendation is among the fired ones exactly when the rule fires; the praise
      never is. */
  lemma FiredMembers(cell: AnalysisModalData)
    ensures HighErrorRate in Fired(cell) <==> cell.errorRate > 50
    ensures RevengeTrades in Fired(cell) <==> Flagged(cell.errorTypes, RevengeTrade)
    ensures PositionSizing in Fired(cell) <==> Flagged(cell.errorTypes, RuleBreakSize)
    ensures EarlyExits in Fired(cell) <==> Flagged(cell.errorTypes, EarlyExit)
    ensures GoodDiscipline !in Fired(cell)
  {
  }

  /** The fired recommendations come in rule order. */
  lemma FiredInRuleOrder(cell: AnalysisModalData)
    ensures InRuleOrder(Fired(cell))
  {
    var a := When(cell.errorRate > 50, HighErrorRate);
    var b := a + When(Flagged(cell.errorTypes, RevengeTrade), RevengeTrades);
    var c := b + When(Flagged(cell.errorTypes, RuleBreakSize), PositionSizing);
    assert InRuleOrder(a) && AllAtMost(a, 0);
    assert InRuleOrder(b) && AllAtMost(b, 1) by {
      WhenKeepsOrder(a, Flagged(cell.errorTypes, RevengeTrade), RevengeTrades);
    }
    assert InRuleOrder(c) && AllAtMost(c, 2) by {
      WhenKeepsOrder(b, Flagged(cell.errorTypes, RuleBreakSize), PositionSizing);
    }
    WhenKeepsOrder(c, Flagged(cell.errorTypes, EarlyExit), EarlyExits);
  }

  /** Each rule's recommendation is given exactly when the rule fires; the praise exactly when
      none fires, and then alone; never an empty list, never a repeat, always in rule order. */
  lemma RecommendationRules(cell: AnalysisModalData)
    ensures var rs := RecommendationsFor(cell);
      && rs != []
      && (HighErrorRate in rs <==> cell.errorRate > 50)
      && (RevengeTrades in rs <==> Flagged(cell.errorTypes, RevengeTrade))
      && (PositionSizing in rs <==> Flagged(cell.errorTypes, RuleBreakSize))
      && (EarlyExits in rs <==> Flagged(cell.errorTypes, EarlyExit))
      && (GoodDiscipline in rs <==>
          !(cell.errorRate > 50 || Flagged(cell.errorTypes, RevengeTrade) ||
            Flagged(cell.errorTypes, RuleBreakSize) || Flagged(cell.errorTypes, EarlyExit)))
      && (GoodDiscipline in rs ==> rs == [GoodDiscipline])
      && InRuleOrder(rs)
  {
    FiredMembers(cell);
    FiredInRuleOrder(cell);
  }

  /** The source's pushes, rule by rule. */
  method GetRecommendations(cell: AnalysisModalData) returns (recommendations: seq<Recommendation>)
    ensures recommendations == RecommendationsFor(cell)
  {
    recommendations := [];
    if cell.errorRate > 50 {
      recommendations := recommendations + [HighErrorRate];
    }
    assert recommendations == When(cell.errorRate > 50, HighErrorRate);
    if Flagged(cell.errorTypes, RevengeTrade) {
      recommendations := recommendations + [RevengeTrades];
    }
    if Flagged(cell.errorTypes, RuleBreakSize) {
      recommendations := recommendations + [PositionSizing];
    }
    if Flagged(cell.errorTypes, EarlyExit) {
      recommendations := recommendations + [EarlyExits];
    }
    if |recommendations| == 0 {
      recommendations := recommendations + [GoodDiscipline];
    }
  }
}
