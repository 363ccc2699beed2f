/** The interactive heatmap: the average R and the number of trades of every
    setup × session pair, as one flat list of cells (row by row), and a list of
    active filters that a click on a cell toggles. */
module InteractiveHeatmap {
  import opened Seqs
  import opened Journal
  import opened Metrics
  import opened Timeline
  import opened CrossTab

  /** An active filter names one pair; it is the cell key. */
  type HeatmapFilter = CellKey

  datatype HeatmapCell = HeatmapCell(setup: string, session: string, avgR: real, total: nat, isFiltered: bool)

  /** What the collecting pass keeps per cell. */
  datatype CellStats = CellStats(total: nat, totalR: real, trades: seq<Trade>)

  /** The statistics of a cell holding exactly `ts`. */
  function StatsOf(ts: seq<Trade>): (st: CellStats)
    ensures st.total == |ts| && st.totalR == Sum(RValues(ts)) && st.trades == ts
  {
    CellStats(|ts|, Sum(RValues(ts)), ts)
  }

  ghost predicate Collected(cellStats: map<CellKey, CellStats>, ts: seq<Trade>)
  {
    && (forall k :: k in cellStats <==> CellTrades(ts, k) != [])
    && (forall k :: k in cellStats ==> cellStats[k] == StatsOf(CellTrades(ts, k)))
  }

  /** The collecting pass: one entry per pair that has trades, with their number, their
      total R and the trades themselves. */
  method CollectStats(trades: seq<Trade>) returns (cellStats: map<CellKey, CellStats>)
    ensures Collected(cellStats, trades)
  {
    cellStats := map[];
    for i := 0 to |trades|
      invariant Collected(cellStats, trades[..i])
    {
      var trade := trades[i];
      var key := KeyOf(trade);
      ghost var before := cellStats;
      if key !in cellStats {
        cellStats := cellStats[key := CellStats(0, 0.0, [])];
      }
      var st := cellStats[key];
      cellStats := cellStats[key := CellStats(st.total + 1, st.totalR + trade.actualR, st.trades + [trade])];
      assert trades[..i + 1] == trades[..i] + [trade];
      CollectStep(before, trades[..i], trade, st, cellStats);
    }
    assert trades[..|trades|] == trades;
  }

  lemma CollectStep(m: map<CellKey, CellStats>, ts: seq<Trade>, t: Trade, st: CellStats, m': map<CellKey, CellStats>)
    requires Collected(m, ts)
    requires st == if KeyOf(t) in m then m[KeyOf(t)] else CellStats(0, 0.0, [])
    requires m' == m[KeyOf(t) := CellStats(st.total + 1, st.totalR + t.actualR, st.trades + [t])]
    ensures Collected(m', ts + [t])
  {
    var key := KeyOf(t);
    if key !in m {
      assert CellTrades(ts, key) == [];
      assert RValues([]) == [];
    }
    assert st == StatsOf(CellTrades(ts, key));
    forall k
      ensures k in m' <==> CellTrades(ts + [t], k) != []
      ensures k in m' ==> m'[k] == StatsOf(CellTrades(ts + [t], k))
    {
      CollectStepAt(m, ts, t, st, m', k);
    }
  }

  lemma CollectStepAt(m: map<CellKey, CellStats>, ts: seq<Trade>, t: Trade, st: CellStats,
                      m': map<CellKey, CellStats>, k: CellKey)
    requires k in m <==> CellTrades(ts, k) != []
    requires k in m ==> m[k] == StatsOf(CellTrades(ts, k))
    requires st == StatsOf(CellTrades(ts, KeyOf(t)))
    requires m' == m[KeyOf(t) := CellStats(st.total + 1, st.totalR + t.actualR, st.trades + [t])]
    ensures k in m' <==> CellTrades(ts + [t], k) != []
    ensures k in m' ==> m'[k] == StatsOf(CellTrades(ts + [t], k))
  {
    CellTradesAppend(ts, t, k);
    var before, after := CellTrades(ts, k), CellTrades(ts + [t], k);
    if k == KeyOf(t) {
      assert after == before + [t];
      StatsStep(before, t);
      assert m'[k] == StatsOf(after);
    } else {
      assert after == before;
    }
  }

  lemma StatsStep(ts: seq<Trade>, t: Trade)
    ensures StatsOf(ts + [t]) == CellStats(|ts| + 1, Sum(RValues(ts)) + t.actualR, ts + [t])
  {
    RValuesAppend(ts, [t]);
    var rs := RValues(ts) + [t.actualR];
    assert rs[..|rs| - 1] == RValues(ts);
  }

  /** `activeFilters.some(...)`: some active filter names this pair, that is, the pair is in
      the list. */
  predicate IsFiltered(activeFilters: seq<HeatmapFilter>, setup: string, session: string)
    ensures IsFiltered(activeFilters, setup, session) <==> CellKey(setup, session) in activeFilters
  {
    var named := exists i :: 0 <= i < |activeFilters| && activeFilters[i].setup == setup && activeFilters[i].session == session;
    assert named <==> CellKey(setup, session) in activeFilters by {
      if CellKey(setup, session) in activeFilters {
        var i :| 0 <= i < |activeFilters| && activeFilters[i] == CellKey(setup, session);
        assert activeFilters[i].setup == setup && activeFilters[i].session == session;
      }
    }
    named
  }

  /** `Number(x.toFixed(1))`: the magnitude rounded to tenths, halves away from zero, and the
      sign kept. The result is a whole number of tenths within 0.05 of `x`, and a tie goes to
      the tenth farther from zero. A negative `x` above −0.05 gives −0, which compares as 0. */
  function RoundTenth(x: real): (r: real)
    ensures (r * 10.0).Floor as real == r * 10.0
    ensures x - 0.05 <= r <= x + 0.05
    ensures x >= 0.0 ==> x - 0.05 < r
    ensures x < 0.0 ==> r < x + 0.05
  {
    if x >= 0.0 then
      var n := HalfUpTenths(x);
      Tenths(n);
      n as real / 10.0
    else
      var n := HalfUpTenths(-x);
      Tenths(-n);
      (-n) as real / 10.0
  }

  /** The number of tenths nearest to `y`, halves rounded up: within half a tenth of `y`,
      and above `y - 0.05`. */
  function HalfUpTenths(y: real): (n: int)
    ensures y - 0.05 < n as real / 10.0 <= y + 0.05
  {
    var n := (y * 10.0 + 0.5).Floor;
    assert n as real <= y * 10.0 + 0.5 < n as real + 1.0;
    n
  }

  /** A whole number of tenths times ten is that whole number. */
  lemma Tenths(n: int)
    ensures ((n as real / 10.0) * 10.0).Floor as real == (n as real / 10.0) * 10.0
  {
    assert (n as real / 10.0) * 10.0 == n as real;
  }

  /** The colour bands of a cell, stated on the exact mean R of its trades: rounding to one
      decimal moves every threshold of `GetCellColor` down by half a tenth, so a mean of
      −0.04 shows as a gain and a mean of 1.96 as the top band. */
  lemma RoundedBands(mean: real)
    ensures RoundTenth(mean) >= 2.0 <==> mean >= 1.95
    ensures RoundTenth(mean) >= 0.5 <==> mean >= 0.45
    ensures RoundTenth(mean) >= 0.0 <==> mean > -0.05
    ensures RoundTenth(mean) >= -1.0 <==> mean > -1.05
  {
    var r := RoundTenth(mean);
    if mean >= 0.0 {
      assert r == (mean * 10.0 + 0.5).Floor as real / 10.0;
    } else {
      assert r == -((-mean * 10.0 + 0.5).Floor as real / 10.0);
    }
  }

  /** A cell whose trades average −0.04R is coloured as a gain, not as a mild loss. */
  lemma SmallLossShowsAsGain()
    ensures RoundTenth(-0.04) == 0.0
    ensures GetCellColor(RoundTenth(-0.04), 1, false) == Gain
    ensures GetCellColor(-0.04, 1, false) == MildLoss
  {
    assert (0.04 * 10.0 + 0.5).Floor == 0;
  }

  /** The cell of the pair (setup, session): the mean R of its trades rounded to one decimal
      (0 without trades) and their number. */
  function CellAt(ts: seq<Trade>, activeFilters: seq<HeatmapFilter>, setup: string, session: string): (c: HeatmapCell)
    ensures c.setup == setup && c.session == session
    ensures c.total == |CellTrades(ts, CellKey(setup, session))|
    ensures c.isFiltered <==> CellKey(setup, session) in activeFilters
    ensures c.total == 0 ==> c.avgR == 0.0
    ensures c.total > 0 ==>
      var mean := Sum(RValues(CellTrades(ts, CellKey(setup, session)))) / c.total as real;
      c.avgR == RoundTenth(mean) && mean - 0.05 <= c.avgR <= mean + 0.05
  {
    var ct := CellTrades(ts, CellKey(setup, session));
    var avgR := if ct == [] then 0.0 else RoundTenth(AvgR(RValues(ct)));
    HeatmapCell(setup, session, avgR, |ct|, IsFiltered(activeFilters, setup, session))
  }

  /** The cell of every pair, as a single value. */
  function PairCell(ts: seq<Trade>, activeFilters: seq<HeatmapFilter>): (string, string) -> HeatmapCell
  {
    (setup, session) => CellAt(ts, activeFilters, setup, session)
  }

  /** Every cell of the flattened grid is the cell of its own pair, and every pair has its cell. */
  lemma FlatCellsOfPairs(ts: seq<Trade>, activeFilters: seq<HeatmapFilter>)
    ensures forall c :: c in Flatten(GridRows(Setups(ts), Sessions(ts), PairCell(ts, activeFilters))) ==>
      c == CellAt(ts, activeFilters, c.setup, c.session) && c.setup in Setups(ts) && c.session in Sessions(ts)
    ensures forall setup, session :: setup in Setups(ts) && session in Sessions(ts) ==>
      CellAt(ts, activeFilters, setup, session) in Flatten(GridRows(Setups(ts), Sessions(ts), PairCell(ts, activeFilters)))
  {
    var cells := Flatten(GridRows(Setups(ts), Sessions(ts), PairCell(ts, activeFilters)));
    forall c | c in cells
      ensures c == CellAt(ts, activeFilters, c.setup, c.session) && c.setup in Setups(ts) && c.session in Sessions(ts)
    {
      var setup, session := FlatGridMember(Setups(ts), Sessions(ts), PairCell(ts, activeFilters), c);
    }
    forall setup, session | setup in Setups(ts) && session in Sessions(ts)
      ensures CellAt(ts, activeFilters, setup, session) in cells
    {
      FlatGridHas(Setups(ts), Sessions(ts), PairCell(ts, activeFilters), setup, session);
    }
  }

  /** The flat grid: the cells of every setup × session pair, row by row; every listed cell
      is the cell of its own pair, and every pair on the grid is listed. */
  function HeatmapData(ts: seq<Trade>, activeFilters: seq<HeatmapFilter>): (cells: seq<HeatmapCell>)
    ensures forall c :: c in cells ==>
      c == CellAt(ts, activeFilters, c.setup, c.session) && c.setup in Setups(ts) && c.session in Sessions(ts)
    ensures forall setup, session :: setup in Setups(ts) && session in Sessions(ts) ==>
      CellAt(ts, activeFilters, setup, session) in cells
  {
    FlatCellsOfPairs(ts, activeFilters);
    Flatten(GridRows(Setups(ts), Sessions(ts), PairCell(ts, activeFilters)))
  }

  /** The source's reading of the collected record: no entry means an empty cell. Whatever
      trades the map was collected from, this is the cell of the pair among them. */
  function CellFromStats(cellStats: map<CellKey, CellStats>, activeFilters: seq<HeatmapFilter>,
                         setup: string, session: string): (c: HeatmapCell)
    ensures forall ts :: Collected(cellStats, ts) ==> c == CellAt(ts, activeFilters, setup, session)
  {
    var key := CellKey(setup, session);
    var isFiltered := IsFiltered(activeFilters, setup, session);
    var c := if key in cellStats && cellStats[key].total > 0 then
        HeatmapCell(setup, session, RoundTenth(cellStats[key].totalR / cellStats[key].total as real), cellStats[key].total,
                    isFiltered)
      else
        HeatmapCell(setup, session, 0.0, 0, isFiltered);
    assert forall ts :: Collected(cellStats, ts) ==> c == CellAt(ts, activeFilters, setup, session) by {
      forall ts | Collected(cellStats, ts) ensures c == CellAt(ts, activeFilters, setup, session) {
        if key in cellStats {
          assert cellStats[key] == StatsOf(CellTrades(ts, key));
        }
      }
    }
    c
  }

  /** The widget's computation: collect the cells, then push one cell per setup × session
      pair, row by row. */
  method BuildHeatmap(trades: seq<Trade>, activeFilters: seq<HeatmapFilter>) returns (heatmapData: seq<HeatmapCell>)
    ensures heatmapData == HeatmapData(trades, activeFilters)
  {
    var cellStats := CollectStats(trades);
    var sessions, setups := Sessions(trades), Setups(trades);
    var cell := (setup, session) => CellFromStats(cellStats, activeFilters, setup, session);
    heatmapData := PushGrid(setups, sessions, cell);
    forall i, j | 0 <= i < |setups| && 0 <= j < |sessions|
      ensures cell(setups[i], sessions[j]) == PairCell(trades, activeFilters)(setups[i], sessions[j])
    {
      assert CellFromStats(cellStats, activeFilters, setups[i], sessions[j]) == CellAt(trades, activeFilters, setups[i], sessions[j]);
    }
    GridRowsExt(setups, sessions, cell, PairCell(trades, activeFilters));
  }

  /** `findIndex`: the first position holding `k`, or -1. */
  function FindIndex(filters: seq<HeatmapFilter>, k: HeatmapFilter): (i: int)
    ensures -1 <= i < |filters|
    ensures i == -1 <==> k !in filters
    ensures i >= 0 ==> filters[i] == k && forall j :: 0 <= j < i ==> filters[j] != k
  {
    if filters == [] then -1
    else if filters[0] == k then 0
    else
      var r := FindIndex(filters[1..], k);
      if r < 0 then -1 else r + 1
  }

  /** The list without position `index`. */
  function WithoutIndex(filters: seq<HeatmapFilter>, index: nat): (r: seq<HeatmapFilter>)
    requires index < |filters|
    ensures |r| == |filters| - 1
    ensures forall j :: 0 <= j < index ==> r[j] == filters[j]
    ensures forall j :: index <= j < |r| ==> r[j] == filters[j + 1]
    ensures multiset(r) == multiset(filters) - multiset{filters[index]}
  {
    assert filters == filters[..index] + [filters[index]] + filters[index + 1..];
    filters[..index] + filters[index + 1..]
  }

  /** The list after a click on the pair `k`: its first occurrence removed when present,
      otherwise `k` appended. */
  function Toggle(filters: seq<HeatmapFilter>, k: HeatmapFilter): (r: seq<HeatmapFilter>)
    ensures k !in filters ==> r == filters + [k]
    ensures multiset(r) == if k in filters then multiset(filters) - multiset{k} else multiset(filters) + multiset{k}
    ensures forall x :: x != k ==> (x in r <==> x in filters)
    ensures k in filters ==> r == WithoutIndex(filters, FindIndex(filters, k))
  {
    var index := FindIndex(filters, k);
    var r := if index >= 0 then WithoutIndex(filters, index) else filters + [k];
    forall x | x != k ensures x in r <==> x in filters {
      assert x in r <==> x in multiset(r);
    }
    r
  }

  /** On a duplicate-free list each click flips the membership of its pair and keeps the
      list duplicate-free. */
  lemma ToggleFlips(filters: seq<HeatmapFilter>, k: HeatmapFilter)
    requires NoDuplicates(filters)
    ensures k in Toggle(filters, k) <==> k !in filters
    ensures NoDuplicates(Toggle(filters, k))
  {
    if k in filters {
      WithoutIndexNoDuplicates(filters, FindIndex(filters, k));
    } else {
      AppendFreshKeepsNoDuplicates(filters, k);
    }
  }

  /** Removing one position of a duplicate-free list removes its element altogether and keeps
      the list duplicate-free. */
  lemma WithoutIndexNoDuplicates(filters: seq<HeatmapFilter>, index: nat)
    requires NoDuplicates(filters) && index < |filters|
    ensures filters[index] !in WithoutIndex(filters, index)
    ensures NoDuplicates(WithoutIndex(filters, index))
  {
    var r := WithoutIndex(filters, index);
    forall m | 0 <= m < |r| ensures r[m] != filters[index] {
      if m >= index { assert r[m] == filters[m + 1]; }
    }
    forall a, b | 0 <= a < b < |r| ensures r[a] != r[b] {
      if b >= index { assert r[b] == filters[b + 1]; }
      if a >= index { assert r[a] == filters[a + 1]; }
    }
  }

  /** Clicking twice on a pair that was not active restores the list. */
  lemma ToggleTwiceRestores(filters: seq<HeatmapFilter>, k: HeatmapFilter)
    requires k !in filters
    ensures Toggle(Toggle(filters, k), k) == filters
  {
    var once := filters + [k];
    assert once[|filters|] == k;
    assert forall j :: 0 <= j < |filters| ==> once[j] != k;
    assert FindIndex(once, k) == |filters|;
    assert once[..|filters|] == filters;
  }

  /** The component: the list of active filters. */
  class Heatmap {
    var activeFilters: seq<HeatmapFilter>

    constructor()
      ensures activeFilters == []
    {
      activeFilters := [];
    }

    /** A click on a cell: the new list is stored and reported. */
    method ToggleFilter(setup: string, session: string) returns (newFilters: seq<HeatmapFilter>)
      modifies this
      ensures activeFilters == Toggle(old(activeFilters), CellKey(setup, session))
      ensures newFilters == activeFilters
    {
      var existingFilterIndex := FindIndex(activeFilters, CellKey(setup, session));
      if existingFilterIndex >= 0 {
        newFilters := WithoutIndex(activeFilters, existingFilterIndex);
      } else {
        newFilters := activeFilters + [CellKey(setup, session)];
      }
      activeFilters := newFilters;
    }

    /** Clearing stores and reports the empty list. */
    method ClearFilters() returns (newFilters: seq<HeatmapFilter>)
      modifies this
      ensures activeFilters == [] && newFilters == []
    {
      activeFilters := [];
      newFilters := [];
    }
  }

  /** The colour classes of a cell. */
  datatype CellColor = Muted | Filtered | Profit | StrongGain | Gain | MildLoss | Loss

  /** The colour of a cell: muted when empty, then the filtered style, then by the average R
      with thresholds 2, 0.5, 0 and -1. */
  function GetCellColor(avgR: real, total: nat, isFiltered: bool): (c: CellColor)
    ensures c == Muted <==> total == 0
    ensures c == Filtered <==> total > 0 && isFiltered
    ensures total > 0 && !isFiltered ==>
      && (c == Profit <==> avgR >= 2.0)
      && (c == StrongGain <==> 0.5 <= avgR < 2.0)
      && (c == Gain <==> 0.0 <= avgR < 0.5)
      && (c == MildLoss <==> -1.0 <= avgR < 0.0)
      && (c == Loss <==> avgR < -1.0)
  {
    if total == 0 then Muted
    else if isFiltered then Filtered
    else if avgR >= 2.0 then Profit
    else if avgR >= 0.5 then StrongGain
    else if avgR >= 0.0 then Gain
    else if avgR >= -1.0 then MildLoss
    else Loss
  }

  function Rank(c: CellColor): nat
  {
    match c
    case Profit => 0
    case StrongGain => 1
    case Gain => 2
    case MildLoss => 3
    case Loss => 4
    case Filtered => 5
    case Muted => 6
  }

  /** Among shown, unfiltered cells a higher average R never gets a worse colour. */
  lemma ColorMonotone(a: real, b: real, total: nat)
    requires total > 0 && a <= b
    ensures Rank(GetCellColor(b, total, false)) <= Rank(GetCellColor(a, total, false))
  {
  }
}
