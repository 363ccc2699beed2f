/** The R-analysis heatmap: for every setup × session pair, the average R, the
    number of trades and the win rate of the trades of that pair. Clicking a
    cell toggles it in a set of excluded cells, and the trades outside the
    excluded cells are passed on to the rest of the dashboard. */
module RAnalysisHeatmap {
  import opened Seqs
  import opened Journal
  import opened Metrics
  import opened Timeline
  import opened CrossTab

  /** One cell of the grid. */
  datatype HeatmapCell = HeatmapCell(
    setup: string, session: string, avgR: real, totalTrades: nat, winRate: real, isFiltered: bool)

  /** What the collecting pass keeps per cell: its trades, their total R and their wins. */
  datatype CellAccum = CellAccum(trades: seq<Trade>, totalR: real, wins: nat)

  /** The accumulator of a cell holding exactly `ts`. */
  function AccumOf(ts: seq<Trade>): (a: CellAccum)
    ensures a.trades == ts
    ensures a.totalR == Sum(RValues(ts)) && a.wins == CountPositive(RValues(ts))
  {
    CellAccum(ts, Sum(RValues(ts)), CountPositive(RValues(ts)))
  }

  /** `cellData` holds one entry per pair that has trades in `ts`, with the accumulator of
      exactly those trades. */
  ghost predicate Collected(cellData: map<CellKey, CellAccum>, ts: seq<Trade>)
  {
    && (forall k :: k in cellData <==> CellTrades(ts, k) != [])
    && (forall k :: k in cellData ==> cellData[k] == AccumOf(CellTrades(ts, k)))
  }

  /** The collecting pass: one entry per pair that has trades, holding those trades with
      their total R and their number of wins. */
  method CollectCells(trades: seq<Trade>) returns (cellData: map<CellKey, CellAccum>)
    ensures Collected(cellData, trades)
  {
    cellData := map[];
    for i := 0 to |trades|
      invariant Collected(cellData, trades[..i])
    {
      var trade := trades[i];
      var key := KeyOf(trade);
      ghost var before := cellData;
      if key !in cellData {
        cellData := cellData[key := CellAccum([], 0.0, 0)];
      }
      var cell := cellData[key];
      cellData := cellData[key := CellAccum(cell.trades + [trade], cell.totalR + trade.actualR,
                                            if trade.actualR > 0.0 then cell.wins + 1 else cell.wins)];
      assert trades[..i + 1] == trades[..i] + [trade];
      CollectStep(before, trades[..i], trade, cell, cellData);
    }
    assert trades[..|trades|] == trades;
  }

  /** One step of the collecting pass keeps the map in step with the trades seen. */
  lemma CollectStep(m: map<CellKey, CellAccum>, ts: seq<Trade>, t: Trade, cell: CellAccum, m': map<CellKey, CellAccum>)
    requires Collected(m, ts)
    requires cell == if KeyOf(t) in m then m[KeyOf(t)] else CellAccum([], 0.0, 0)
    requires m' == m[KeyOf(t) := CellAccum(cell.trades + [t], cell.totalR + t.actualR,
                                           if t.actualR > 0.0 then cell.wins + 1 else cell.wins)]
    ensures Collected(m', ts + [t])
  {
    var key := KeyOf(t);
    if key !in m {
      assert CellTrades(ts, key) == [];
      assert RValues([]) == [];
    }
    assert cell == AccumOf(CellTrades(ts, key));
    forall k
      ensures k in m' <==> CellTrades(ts + [t], k) != []
      ensures k in m' ==> m'[k] == AccumOf(CellTrades(ts + [t], k))
    {
      CollectStepAt(m, ts, t, cell, m', k);
    }
  }

  lemma CollectStepAt(m: map<CellKey, CellAccum>, ts: seq<Trade>, t: Trade, cell: CellAccum,
                      m': map<CellKey, CellAccum>, k: CellKey)
    requires k in m <==> CellTrades(ts, k) != []
    requires k in m ==> m[k] == AccumOf(CellTrades(ts, k))
    requires cell == AccumOf(CellTrades(ts, KeyOf(t)))
    requires m' == m[KeyOf(t) := CellAccum(cell.trades + [t], cell.totalR + t.actualR,
                                           if t.actualR > 0.0 then cell.wins + 1 else cell.wins)]
    ensures k in m' <==> CellTrades(ts + [t], k) != []
    ensures k in m' ==> m'[k] == AccumOf(CellTrades(ts + [t], k))
  {
    CellTradesAppend(ts, t, k);
    var before, after := CellTrades(ts, k), CellTrades(ts + [t], k);
    if k == KeyOf(t) {
      assert after == before + [t];
      AccumStep(before, t);
      assert m'[k] == AccumOf(after);
    } else {
      assert after == before;
    }
  }

  lemma AccumStep(ts: seq<Trade>, t: Trade)
    ensures AccumOf(ts + [t]) ==
      CellAccum(ts + [t], Sum(RValues(ts)) + t.actualR,
                CountPositive(RValues(ts)) + if t.actualR > 0.0 then 1 else 0)
  {
    RValuesAppend(ts, [t]);
    var rs := RValues(ts) + [t.actualR];
    assert rs[..|rs| - 1] == RValues(ts);
  }

  /** A cell holding the trades `ct`: zeros when there are none, otherwise the mean R and
      the share of winning trades in percent. */
  function CellOf(setup: string, session: string, ct: seq<Trade>, isFiltered: bool): (c: HeatmapCell)
    ensures c.setup == setup && c.session == session && c.isFiltered == isFiltered
    ensures c.totalTrades == |ct|
    ensures 0.0 <= c.winRate <= 100.0
    ensures ct == [] ==> c.avgR == 0.0 && c.winRate == 0.0
    ensures ct != [] ==>
      && c.avgR * |ct| as real == Sum(RValues(ct))
      && c.winRate * |ct| as real == CountPositive(RValues(ct)) as real * 100.0
  {
    var rs := RValues(ct);
    HeatmapCell(setup, session, AvgR(rs), |rs|, WinRate(rs), isFiltered)
  }

  /** The cell of the pair (setup, session). */
  function CellAt(ts: seq<Trade>, filteredCells: set<CellKey>, setup: string, session: string): (c: HeatmapCell)
    ensures c == CellOf(setup, session, CellTrades(ts, CellKey(setup, session)), CellKey(setup, session) in filteredCells)
  {
    var key := CellKey(setup, session);
    CellOf(setup, session, CellTrades(ts, key), key in filteredCells)
  }

  /** The cell of every pair, as a single value. */
  function PairCell(ts: seq<Trade>, filteredCells: set<CellKey>): (string, string) -> HeatmapCell
  {
    (setup, session) => CellAt(ts, filteredCells, setup, session)
  }

  /** The grid: one row per setup, one cell per session in each row. */
  function HeatmapData(ts: seq<Trade>, filteredCells: set<CellKey>): (rows: seq<seq<HeatmapCell>>)
    ensures |rows| == |Setups(ts)|
    ensures forall i :: 0 <= i < |rows| ==> |rows[i]| == |Sessions(ts)|
    ensures forall i, j :: 0 <= i < |rows| && 0 <= j < |Sessions(ts)| ==>
      rows[i][j] == CellAt(ts, filteredCells, Setups(ts)[i], Sessions(ts)[j])
  {
    GridRows(Setups(ts), Sessions(ts), PairCell(ts, filteredCells))
  }

  /** The source's branch on the collected map: no entry means an empty cell. Whatever trades
      the map was collected from, this is the cell of the pair among them. */
  function CellFromData(cellData: map<CellKey, CellAccum>, filteredCells: set<CellKey>,
                        setup: string, session: string): (c: HeatmapCell)
    ensures forall ts :: Collected(cellData, ts) ==> c == CellAt(ts, filteredCells, setup, session)
  {
    var key := CellKey(setup, session);
    var isFiltered := key in filteredCells;
    var c := if key !in cellData then HeatmapCell(setup, session, 0.0, 0, 0.0, isFiltered)
      else
        var cell := cellData[key];
        if |cell.trades| == 0 then HeatmapCell(setup, session, 0.0, 0, 0.0, isFiltered)
        else
          HeatmapCell(setup, session, cell.totalR / |cell.trades| as real, |cell.trades|,
                      (cell.wins as real / |cell.trades| as real) * 100.0, isFiltered);
    assert forall ts :: Collected(cellData, ts) ==> c == CellAt(ts, filteredCells, setup, session) by {
      forall ts | Collected(cellData, ts) ensures c == CellAt(ts, filteredCells, setup, session) {
        if key in cellData {
          assert cellData[key] == AccumOf(CellTrades(ts, key));
        }
      }
    }
    c
  }

  /** The grid as the widget builds it: collect the cells, then map the sorted setups and
      sessions onto the collected data. */
  method BuildHeatmap(trades: seq<Trade>, filteredCells: set<CellKey>) returns (rows: seq<seq<HeatmapCell>>)
    ensures rows == HeatmapData(trades, filteredCells)
  {
    var cellData := CollectCells(trades);
    var setups, sessions := Setups(trades), Sessions(trades);
    var cell := (setup, session) => CellFromData(cellData, filteredCells, setup, session);
    rows := GridRows(setups, sessions, cell);
    forall i, j | 0 <= i < |setups| && 0 <= j < |sessions|
      ensures cell(setups[i], sessions[j]) == PairCell(trades, filteredCells)(setups[i], sessions[j])
    {
      assert CellFromData(cellData, filteredCells, setups[i], sessions[j]) == CellAt(trades, filteredCells, setups[i], sessions[j]);
    }
    GridRowsExt(setups, sessions, cell, PairCell(trades, filteredCells));
  }

  /** The totalTrades of one cell, as a single value. */
  function TradeCounts(ts: seq<Trade>, filteredCells: set<CellKey>): CellKey -> nat
  {
    (k: CellKey) => CellAt(ts, filteredCells, k.setup, k.session).totalTrades
  }

  /** Every trade is counted in exactly one cell of the grid. */
  lemma CellTotalsCountEveryTrade(ts: seq<Trade>, filteredCells: set<CellKey>)
    ensures GridSum(Setups(ts), Sessions(ts), TradeCounts(ts, filteredCells)) == |ts|
  {
    GridSumExt(Setups(ts), Sessions(ts), TradeCounts(ts, filteredCells), CellSize(ts));
    GridCountsEveryTrade(ts);
  }

  /** The set after a click on `key`: removed when present, added when absent. */
  function Toggled(cells: set<CellKey>, key: CellKey): (r: set<CellKey>)
    ensures key in r <==> key !in cells
    ensures forall k :: k != key ==> (k in r <==> k in cells)
  {
    if key in cells then cells - {key} else cells + {key}
  }

  /** Two clicks on the same cell restore the set. */
  lemma ToggleTwiceRestores(cells: set<CellKey>, key: CellKey)
    ensures Toggled(Toggled(cells, key), key) == cells
  {
  }

  /** The test a trade passes to stay visible. */
  function Visible(filteredCells: set<CellKey>): (visible: Trade -> bool)
    ensures forall t :: visible(t) <==> KeyOf(t) !in filteredCells
  {
    t => KeyOf(t) !in filteredCells
  }

  /** Its complement: the trade sits in an excluded cell. */
  function Hidden(filteredCells: set<CellKey>): (hidden: Trade -> bool)
    ensures forall t :: hidden(t) <==> !Visible(filteredCells)(t)
  {
    t => KeyOf(t) in filteredCells
  }

  /** The trades passed on: those outside the excluded cells, in order. */
  function FilteredTrades(ts: seq<Trade>, filteredCells: set<CellKey>): (r: seq<Trade>)
    ensures IsSubsequence(r, ts)
    ensures forall i :: 0 <= i < |r| ==> KeyOf(r[i]) !in filteredCells
    ensures forall i :: 0 <= i < |ts| && KeyOf(ts[i]) !in filteredCells ==> ts[i] in r
    ensures filteredCells == {} ==> r == ts
  {
    FilterIsSubsequence(ts, Visible(filteredCells));
    FilterSpec(ts, Visible(filteredCells));
    Filter(ts, Visible(filteredCells))
  }

  /** The number of hidden trades is the number of trades in excluded cells; it is 0 exactly
      when no trade sits in an excluded cell. */
  lemma HiddenCountIsExcludedTrades(ts: seq<Trade>, filteredCells: set<CellKey>)
    ensures |ts| - |FilteredTrades(ts, filteredCells)| == |Filter(ts, Hidden(filteredCells))|
    ensures |ts| - |FilteredTrades(ts, filteredCells)| == 0 <==>
      forall i :: 0 <= i < |ts| ==> KeyOf(ts[i]) !in filteredCells
  {
    FilterSplitsLength(ts, Visible(filteredCells), Hidden(filteredCells));
    FilterFullIffAll(ts, Visible(filteredCells));
  }

  /** The component: the set of excluded cells. */
  class Heatmap {
    var filteredCells: set<CellKey>

    constructor()
      ensures filteredCells == {}
    {
      filteredCells := {};
    }

    /** A click on a cell: the cell's membership flips and the trades outside the new set
        of excluded cells are passed on. */
    method ToggleCellFilter(executedTrades: seq<Trade>, setup: string, session: string) returns (filteredTrades: seq<Trade>)
      modifies this
      ensures filteredCells == Toggled(old(filteredCells), CellKey(setup, session))
      ensures filteredTrades == FilteredTrades(executedTrades, filteredCells)
    {
      var key := CellKey(setup, session);
      var newFilteredCells := filteredCells;
      if key in newFilteredCells {
        newFilteredCells := newFilteredCells - {key};
      } else {
        newFilteredCells := newFilteredCells + {key};
      }
      filteredCells := newFilteredCells;
      filteredTrades := Filter(executedTrades, Visible(newFilteredCells));
    }

    /** Clearing empties the set and passes every trade on. */
    method ClearAllFilters(executedTrades: seq<Trade>) returns (shown: seq<Trade>)
      modifies this
      ensures filteredCells == {}
      ensures shown == executedTrades && shown == FilteredTrades(executedTrades, filteredCells)
    {
      filteredCells := {};
      shown := executedTrades;
    }

    /** How many trades the current set hides. */
    function HiddenTradesCount(executedTrades: seq<Trade>): (n: int)
      reads this
      ensures 0 <= n <= |executedTrades|
      ensures n == |Filter(executedTrades, Hidden(filteredCells))|
      ensures filteredCells == {} ==> n == 0
    {
      HiddenCountIsExcludedTrades(executedTrades, filteredCells);
      |executedTrades| - |Filter(executedTrades, Visible(filteredCells))|
    }
  }

  /** The colour classes of a cell, from the empty cell to the deepest loss. */
  datatype CellColor = Muted | Profit | StrongGain | Gain | MildLoss | Loss

  /** The colour of a cell: muted when empty, otherwise by the average R with thresholds
      2, 1, 0 and -1. */
  function GetCellColor(avgR: real, totalTrades: nat): (c: CellColor)
    ensures c == Muted <==> totalTrades == 0
    ensures totalTrades > 0 ==>
      && (c == Profit <==> avgR >= 2.0)
      && (c == StrongGain <==> 1.0 <= avgR < 2.0)
      && (c == Gain <==> 0.0 <= avgR < 1.0)
      && (c == MildLoss <==> -1.0 <= avgR < 0.0)
      && (c == Loss <==> avgR < -1.0)
  {
    if totalTrades == 0 then Muted
    else if avgR >= 2.0 then Profit
    else if avgR >= 1.0 then StrongGain
    else if avgR >= 0.0 then Gain
    else if avgR >= -1.0 then MildLoss
    else Loss
  }

  /** The position of a colour on the scale, best first. */
  function Rank(c: CellColor): nat
  {
    match c
    case Profit => 0
    case StrongGain => 1
    case Gain => 2
    case MildLoss => 3
    case Loss => 4
    case Muted => 5
  }

  /** Among non-empty cells a higher average R never gets a worse colour. */
  lemma ColorMonotone(a: real, b: real, totalTrades: nat)
    requires totalTrades > 0 && a <= b
    ensures Rank(GetCellColor(b, totalTrades)) <= Rank(GetCellColor(a, totalTrades))
  {
  }
}
