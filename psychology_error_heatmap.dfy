/** The psychology error heatmap: a grid of setups × sessions whose cells
    give the share of error trades in percent, the number of error trades and
    the most common error tag of the cell; a click opens a breakdown of the
    error tags with the mean R and a piece of advice. */
module PsychologyErrorHeatmap {
  import opened Seqs
  import opened Journal
  import opened Metrics
  import opened Timeline
  import opened Sorting
  import opened CrossTab
  import opened Psychology
  import PsychologyHeatmap

  /** One entry of the tag counts: a tag and how often it occurs. */
  datatype ErrorCount = ErrorCount(tag: string, count: nat)

  /** The first position of `x` in `xs`. */
  function FirstIndex(x: string, xs: seq<string>): (i: nat)
    requires x in xs
    ensures i < |xs| && xs[i] == x
  {
    var init := xs[..|xs| - 1];
    if x in init then FirstIndex(x, init) else |xs| - 1
  }

  /** The position of the entry for `x`, or -1. */
  function TagIndex(entries: seq<ErrorCount>, x: string): (i: int)
    ensures -1 <= i < |entries|
    ensures i >= 0 ==> entries[i].tag == x
    ensures i < 0 ==> forall j :: 0 <= j < |entries| ==> entries[j].tag != x
  {
    if entries == [] then -1
    else
      var init := entries[..|entries| - 1];
      var i := TagIndex(init, x);
      if i >= 0 then i
      else if entries[|entries| - 1].tag == x then |entries| - 1
      else -1
  }

  /** `counts[x] = (counts[x] || 0) + 1` on an object whose entries keep their insertion
      order: an existing entry grows by one, a new tag is added at the end. */
  function Bump(entries: seq<ErrorCount>, x: string): (r: seq<ErrorCount>)
    ensures |r| == if TagIndex(entries, x) < 0 then |entries| + 1 else |entries|
    ensures forall j :: 0 <= j < |entries| && entries[j].tag != x ==> r[j] == entries[j]
    ensures TagIndex(entries, x) < 0 ==> r[|entries|] == ErrorCount(x, 1)
    ensures TagIndex(entries, x) >= 0 ==>
      r[TagIndex(entries, x)] == ErrorCount(x, entries[TagIndex(entries, x)].count + 1)
  {
    var i := TagIndex(entries, x);
    if i < 0 then entries + [ErrorCount(x, 1)] else entries[i := ErrorCount(x, entries[i].count + 1)]
  }

  /** The entries of the counts of `xs`, tag by tag: no more entries than values, and none
      exactly when there are no values. */
  function ErrorEntries(xs: seq<string>): (r: seq<ErrorCount>)
    ensures |r| <= |xs|
  {
    if xs == [] then [] else Bump(ErrorEntries(xs[..|xs| - 1]), xs[|xs| - 1])
  }

  /** No tag has two entries. */
  predicate DistinctTags(entries: seq<ErrorCount>)
  {
    forall i, j :: 0 <= i < j < |entries| ==> entries[i].tag != entries[j].tag
  }

  /** Every entry is a value of `xs` with its number of occurrences. */
  predicate CountsOccurrences(entries: seq<ErrorCount>, xs: seq<string>)
  {
    forall i :: 0 <= i < |entries| ==> entries[i].tag in xs && entries[i].count == Occurrences(entries[i].tag, xs)
  }

  /** Every value of `xs` has an entry. */
  ghost predicate CoversValues(entries: seq<ErrorCount>, xs: seq<string>)
  {
    forall x :: x in xs ==> TagIndex(entries, x) >= 0
  }

  /** The entries are in the order of the first occurrences of their tags. */
  predicate FirstOccurrenceOrder(entries: seq<ErrorCount>, xs: seq<string>)
  {
    forall i, j :: 0 <= i < j < |entries| ==>
      entries[i].tag in xs && entries[j].tag in xs &&
      FirstIndex(entries[i].tag, xs) < FirstIndex(entries[j].tag, xs)
  }

  /** The entries count `xs`: one entry per distinct value, with its number of occurrences,
      in the order of the first occurrences. */
  ghost predicate Counts(entries: seq<ErrorCount>, xs: seq<string>)
  {
    DistinctTags(entries) && CountsOccurrences(entries, xs) && CoversValues(entries, xs) &&
    FirstOccurrenceOrder(entries, xs)
  }

  lemma {:induction false} ErrorEntriesCount(xs: seq<string>)
    ensures Counts(ErrorEntries(xs), xs)
  {
    if xs != [] {
      var init, x := xs[..|xs| - 1], xs[|xs| - 1];
      ErrorEntriesCount(init);
      assert xs == init + [x];
      if x in init {
        BumpPresent(ErrorEntries(init), init, x);
      } else {
        BumpAbsent(ErrorEntries(init), init, x);
      }
    }
  }

  /** Occurrences and first positions of values of `init` after one more value. */
  lemma AppendFacts(init: seq<string>, x: string, y: string)
    requires y in init
    ensures Occurrences(y, init + [x]) == Occurrences(y, init) + (if y == x then 1 else 0)
    ensures FirstIndex(y, init + [x]) == FirstIndex(y, init)
  {
    assert (init + [x])[..|init|] == init;
  }

  lemma BumpPresent(entries: seq<ErrorCount>, init: seq<string>, x: string)
    requires Counts(entries, init) && x in init
    ensures Counts(Bump(entries, x), init + [x])
  {
    var xs := init + [x];
    var i := TagIndex(entries, x);
    var r := Bump(entries, x);
    assert r == entries[i := ErrorCount(x, entries[i].count + 1)];
    assert DistinctTags(r);
    assert CountsOccurrences(r, xs) by {
      forall k | 0 <= k < |r|
        ensures r[k].tag in xs && r[k].count == Occurrences(r[k].tag, xs)
      {
        AppendFacts(init, x, r[k].tag);
      }
    }
    assert CoversValues(r, xs) by {
      forall y | y in xs ensures TagIndex(r, y) >= 0 {
        if y != x {
          assert y in init;
          var j := TagIndex(entries, y);
          assert r[j].tag == y;
        } else {
          assert r[i].tag == x;
        }
      }
    }
    assert FirstOccurrenceOrder(r, xs) by {
      forall a, b | 0 <= a < b < |r|
        ensures r[a].tag in xs && r[b].tag in xs && FirstIndex(r[a].tag, xs) < FirstIndex(r[b].tag, xs)
      {
        AppendFacts(init, x, r[a].tag);
        AppendFacts(init, x, r[b].tag);
      }
    }
  }

  lemma BumpAbsent(entries: seq<ErrorCount>, init: seq<string>, x: string)
    requires Counts(entries, init) && x !in init
    ensures Counts(Bump(entries, x), init + [x])
  {
    assert TagIndex(entries, x) < 0;
    assert Bump(entries, x) == entries + [ErrorCount(x, 1)];
    AppendedCounts(entries, init, x);
    AppendedCovers(entries, init, x);
    AppendedOrder(entries, init, x);
  }

  /** A new entry for an absent value counts it once and keeps the tags distinct. */
  lemma AppendedCounts(entries: seq<ErrorCount>, init: seq<string>, x: string)
    requires Counts(entries, init) && x !in init
    ensures DistinctTags(entries + [ErrorCount(x, 1)])
    ensures CountsOccurrences(entries + [ErrorCount(x, 1)], init + [x])
  {
    var xs, r := init + [x], entries + [ErrorCount(x, 1)];
    forall k | 0 <= k < |r|
      ensures r[k].tag in xs && r[k].count == Occurrences(r[k].tag, xs)
    {
      if k < |entries| {
        AppendFacts(init, x, r[k].tag);
      } else {
        OccurrencesAbsent(x, init);
        assert xs[..|init|] == init;
      }
    }
  }

  /** A new entry for an absent value leaves every value covered. */
  lemma AppendedCovers(entries: seq<ErrorCount>, init: seq<string>, x: string)
    requires Counts(entries, init) && x !in init
    ensures CoversValues(entries + [ErrorCount(x, 1)], init + [x])
  {
    var xs, r := init + [x], entries + [ErrorCount(x, 1)];
    forall y | y in xs ensures TagIndex(r, y) >= 0 {
      if y != x {
        assert y in init;
        var j := TagIndex(entries, y);
        assert r[j].tag == y;
      } else {
        assert r[|entries|].tag == x;
      }
    }
  }

  /** A new entry for an absent value comes after the others, as its value first occurs last. */
  lemma AppendedOrder(entries: seq<ErrorCount>, init: seq<string>, x: string)
    requires Counts(entries, init) && x !in init
    ensures FirstOccurrenceOrder(entries + [ErrorCount(x, 1)], init + [x])
  {
    var xs, r := init + [x], entries + [ErrorCount(x, 1)];
    assert xs[..|init|] == init;
    assert FirstIndex(x, xs) == |init|;
    forall a, b | 0 <= a < b < |r|
      ensures r[a].tag in xs && r[b].tag in xs && FirstIndex(r[a].tag, xs) < FirstIndex(r[b].tag, xs)
    {
      AppendFacts(init, x, r[a].tag);
      if b < |entries| {
        AppendFacts(init, x, r[b].tag);
      }
    }
  }

  /** The counting loop: each value bumps its entry. */
  method CountErrors(errors: seq<string>) returns (errorCounts: seq<ErrorCount>)
    ensures errorCounts == ErrorEntries(errors)
  {
    errorCounts := [];
    for i := 0 to |errors|
      invariant errorCounts == ErrorEntries(errors[..i])
    {
      var error := errors[i];
      var index := FindTag(errorCounts, error);
      if index < 0 {
        errorCounts := errorCounts + [ErrorCount(error, 1)];
      } else {
        errorCounts := errorCounts[index := ErrorCount(error, errorCounts[index].count + 1)];
      }
      ErrorEntriesStep(errors, i);
    }
    assert errors[..|errors|] == errors;
  }

  /** The search for the entry of a tag: the first entry with that tag, or -1. */
  method FindTag(entries: seq<ErrorCount>, x: string) returns (index: int)
    ensures index == TagIndex(entries, x)
  {
    index := -1;
    var j := 0;
    while j < |entries|
      invariant 0 <= j <= |entries|
      invariant index == TagIndex(entries[..j], x)
    {
      assert entries[..j + 1][..j] == entries[..j];
      if index < 0 && entries[j].tag == x {
        index := j;
      }
      j := j + 1;
    }
    assert entries[..|entries|] == entries;
  }

  lemma ErrorEntriesStep(errors: seq<string>, i: nat)
    requires i < |errors|
    ensures ErrorEntries(errors[..i + 1]) == Bump(ErrorEntries(errors[..i]), errors[i])
  {
    assert errors[..i + 1][..i] == errors[..i];
  }

  /** The sort key of an entry: the larger the count, the earlier. */
  function ByCountDescending(): (key: ErrorCount -> real)
    ensures forall e :: key(e) <= 0.0
  {
    (e: ErrorCount) => -(e.count as real)
  }

  /** The key orders entries as `(a, b) => b - a` does: `a` sorts no later than `b` exactly
      when its count is at least as large. */
  lemma ByCountDescendingOrders(a: ErrorCount, b: ErrorCount)
    ensures ByCountDescending()(a) <= ByCountDescending()(b) <==> a.count >= b.count
  {
  }

  /** `Object.entries(errorCounts).sort(([,a], [,b]) => b - a)[0]?.[0] || ''`: the tag of the
      first entry after a stable sort by decreasing count, or the empty string. */
  function DominantError(errors: seq<string>): (d: string)
    ensures errors == [] ==> d == ""
    ensures errors != [] ==> d in errors
  {
    var entries := ErrorEntries(errors);
    var sorted := SortBy(entries, ByCountDescending());
    assert errors != [] ==> sorted != [] && sorted[0].tag in errors by {
      if errors != [] {
        ErrorEntriesCount(errors);
        assert TagIndex(entries, errors[0]) >= 0;
        SortByFirstIsMin(entries, ByCountDescending());
      }
    }
    if sorted == [] then "" else sorted[0].tag
  }

  /** No error occurs more often than the dominant one. */
  lemma DominantIsMostCommon(errors: seq<string>, y: string)
    requires y in errors
    ensures Occurrences(y, errors) <= Occurrences(DominantError(errors), errors)
  {
    var entries := ErrorEntries(errors);
    var key := ByCountDescending();
    ErrorEntriesCount(errors);
    var i := TagIndex(entries, y);
    SortByFirstIsMin(entries, key);
    var top := SortBy(entries, key)[0];
    assert key(top) <= key(entries[i]);
    assert top in entries;
  }

  /** Among the most common errors the dominant one is the one that occurs first: the sort
      keeps the entries of equal count in their insertion order. */
  lemma DominantIsFirstAmongTies(errors: seq<string>, y: string)
    requires y in errors
    requires Occurrences(y, errors) == Occurrences(DominantError(errors), errors)
    ensures FirstIndex(DominantError(errors), errors) <= FirstIndex(y, errors)
  {
    var m, j := TiedEntries(errors, y);
    EntriesInFirstOrder(errors, m, j);
  }

  /** The entries of the dominant error and of an error as common, the first no later. */
  lemma TiedEntries(errors: seq<string>, y: string) returns (m: nat, j: nat)
    requires y in errors
    requires Occurrences(y, errors) == Occurrences(DominantError(errors), errors)
    ensures m <= j < |ErrorEntries(errors)|
    ensures ErrorEntries(errors)[m].tag == DominantError(errors) && ErrorEntries(errors)[j].tag == y
  {
    j := EntryOf(errors, y);
    var t := DominantEntry(errors);
    m := SortByFirstAmongTies(ErrorEntries(errors), ByCountDescending(), j);
  }

  /** The entry that counts a value of the sequence. */
  lemma EntryOf(errors: seq<string>, y: string) returns (j: nat)
    requires y in errors
    ensures j < |ErrorEntries(errors)|
    ensures ErrorEntries(errors)[j].tag == y && ErrorEntries(errors)[j].count == Occurrences(y, errors)
  {
    ErrorEntriesCount(errors);
    j := TagIndex(ErrorEntries(errors), y);
  }

  /** Entries come in the order of the first occurrences of their tags. */
  lemma EntriesInFirstOrder(errors: seq<string>, m: nat, j: nat)
    requires m <= j < |ErrorEntries(errors)|
    ensures ErrorEntries(errors)[m].tag in errors && ErrorEntries(errors)[j].tag in errors
    ensures FirstIndex(ErrorEntries(errors)[m].tag, errors) <= FirstIndex(ErrorEntries(errors)[j].tag, errors)
  {
    ErrorEntriesCount(errors);
    OrderedEntries(ErrorEntries(errors), errors, m, j);
  }

  lemma OrderedEntries(entries: seq<ErrorCount>, xs: seq<string>, m: nat, j: nat)
    requires Counts(entries, xs) && m <= j < |entries|
    ensures entries[m].tag in xs && entries[j].tag in xs
    ensures FirstIndex(entries[m].tag, xs) <= FirstIndex(entries[j].tag, xs)
  {
  }

  /** The entry the dominant error is read from: the first after sorting, counting its tag. */
  lemma DominantEntry(errors: seq<string>) returns (t: nat)
    requires errors != []
    ensures t < |ErrorEntries(errors)|
    ensures SortBy(ErrorEntries(errors), ByCountDescending())[0] == ErrorEntries(errors)[t]
    ensures ErrorEntries(errors)[t].tag == DominantError(errors)
    ensures ErrorEntries(errors)[t].count == Occurrences(DominantError(errors), errors)
  {
    var entries := ErrorEntries(errors);
    ErrorEntriesCount(errors);
    assert TagIndex(entries, errors[0]) >= 0;
    SortByFirstIsMin(entries, ByCountDescending());
    var top := SortBy(entries, ByCountDescending())[0];
    t :| 0 <= t < |entries| && entries[t] == top;
  }

  /** What the collecting pass keeps per cell: the trades, every error tag of every trade
      in order, and the total R. */
  datatype CellData = CellData(trades: seq<Trade>, errors: seq<string>, totalR: real)

  const EmptyData := CellData([], [], 0.0)

  /** The data of a cell holding exactly `ts`. */
  function DataOf(ts: seq<Trade>): (d: CellData)
    ensures d.trades == ts && d.errors == AllErrorTags(ts) && d.totalR == Sum(RValues(ts))
    ensures ts == [] ==> d == EmptyData
  {
    CellData(ts, AllErrorTags(ts), Sum(RValues(ts)))
  }

  ghost predicate Collected(cellData: map<CellKey, CellData>, ts: seq<Trade>)
  {
    && (forall k :: k in cellData <==> CellTrades(ts, k) != [])
    && (forall k :: k in cellData ==> cellData[k] == DataOf(CellTrades(ts, k)))
  }

  lemma CollectedEntry(cellData: map<CellKey, CellData>, ts: seq<Trade>, key: CellKey)
    requires Collected(cellData, ts)
    ensures (if key in cellData then cellData[key] else EmptyData) == DataOf(CellTrades(ts, key))
  {
  }

  /** The collecting pass: one entry per pair that has trades. */
  method CollectCells(trades: seq<Trade>) returns (cellData: map<CellKey, CellData>)
    ensures Collected(cellData, trades)
  {
    cellData := map[];
    for i := 0 to |trades|
      invariant Collected(cellData, trades[..i])
    {
      cellData := AddTrade(cellData, trades[..i], trades[i]);
      assert trades[..i + 1] == trades[..i] + [trades[i]];
    }
    assert trades[..|trades|] == trades;
  }

  /** The body of the collecting pass for one trade: the entry of its pair, created empty
      when missing, then the trade pushed, its R added and its error tags pushed. */
  method AddTrade(cellData: map<CellKey, CellData>, ghost done: seq<Trade>, trade: Trade)
    returns (updated: map<CellKey, CellData>)
    requires Collected(cellData, done)
    ensures Collected(updated, done + [trade])
  {
    var key := KeyOf(trade);
    CollectedEntry(cellData, done, key);
    updated := cellData;
    if key !in updated {
      updated := updated[key := CellData([], [], 0.0)];
    }
    var cell := updated[key];
    var errors := PushErrorTags(cell.errors, trade.psychologyTags);
    var entry := CellData(cell.trades + [trade], errors, cell.totalR + trade.actualR);
    updated := updated[key := entry];
    assert updated == cellData[key := entry] by {
      if key !in cellData {
        UpdateTwice(cellData, key, EmptyData, entry);
      }
    }
    CollectStep(cellData, done, trade, cell, updated);
  }

  /** The inner loop: every tag other than "Perfect Execution" is pushed. */
  method PushErrorTags(errors: seq<string>, tags: seq<string>) returns (pushed: seq<string>)
    ensures pushed == errors + ErrorTags(tags)
  {
    pushed := errors;
    assert errors + ErrorTags(tags[..0]) == errors;
    for j := 0 to |tags|
      invariant pushed == errors + ErrorTags(tags[..j])
    {
      ErrorTagsAppend(tags, j);
      if tags[j] != PerfectExecution {
        pushed := pushed + [tags[j]];
      }
    }
    assert tags[..|tags|] == tags;
  }

  lemma CollectStep(m: map<CellKey, CellData>, ts: seq<Trade>, t: Trade, cell: CellData, m': map<CellKey, CellData>)
    requires Collected(m, ts)
    requires cell == if KeyOf(t) in m then m[KeyOf(t)] else EmptyData
    requires m' == m[KeyOf(t) := CellData(cell.trades + [t], cell.errors + ErrorTags(t.psychologyTags),
                                          cell.totalR + t.actualR)]
    ensures Collected(m', ts + [t])
  {
    CollectedEntry(m, ts, KeyOf(t));
    forall k
      ensures k in m' <==> CellTrades(ts + [t], k) != []
      ensures k in m' ==> m'[k] == DataOf(CellTrades(ts + [t], k))
    {
      CollectStepAt(m, ts, t, cell, m', k);
    }
  }

  lemma CollectStepAt(m: map<CellKey, CellData>, ts: seq<Trade>, t: Trade, cell: CellData,
                      m': map<CellKey, CellData>, k: CellKey)
    requires k in m <==> CellTrades(ts, k) != []
    requires k in m ==> m[k] == DataOf(CellTrades(ts, k))
    requires cell == DataOf(CellTrades(ts, KeyOf(t)))
    requires m' == m[KeyOf(t) := CellData(cell.trades + [t], cell.errors + ErrorTags(t.psychologyTags),
                                          cell.totalR + t.actualR)]
    ensures k in m' <==> CellTrades(ts + [t], k) != []
    ensures k in m' ==> m'[k] == DataOf(CellTrades(ts + [t], k))
  {
    CellTradesAppend(ts, t, k);
    var before, after := CellTrades(ts, k), CellTrades(ts + [t], k);
    if k == KeyOf(t) {
      DataStep(before, t, cell);
    } else {
      assert after == before;
    }
  }

  /** The data of a cell after one more trade. */
  lemma DataStep(ts: seq<Trade>, t: Trade, cell: CellData)
    requires cell == DataOf(ts)
    ensures DataOf(ts + [t]) == CellData(cell.trades + [t], cell.errors + ErrorTags(t.psychologyTags),
                                         cell.totalR + t.actualR)
  {
    RValuesAppend(ts, [t]);
    var rs := RValues(ts) + [t.actualR];
    assert rs[..|rs| - 1] == RValues(ts);
    AllErrorTagsAppend(ts, t);
  }

  datatype PsychCell = PsychCell(setup: string, session: string, errorRate: real, totalTrades: nat,
                                 errorCount: nat, dominantError: string)

  /** `errorTrades / total * 100`, a percentage between 0 and 100. */
  function ErrorRate(errors: nat, total: nat): (rate: real)
    requires errors <= total
    ensures total == 0 ==> rate == 0.0
    ensures 0.0 <= rate <= 100.0
    ensures total > 0 ==> rate == errors as real / total as real * 100.0
    ensures errors == 0 ==> rate == 0.0
  {
    if total == 0 then 0.0
    else
      RateBounds(errors, total);
      RateTimesTotal(errors, total);
      errors as real / total as real * 100.0
  }

  /** The cell holding the trades `ct`: their number, the number of error trades, their share
      in percent and the dominant error tag; all zero and no tag without trades. */
  function CellOf(setup: string, session: string, ct: seq<Trade>): (c: PsychCell)
    ensures c.setup == setup && c.session == session
    ensures c.totalTrades == |ct|
    ensures c.errorCount == |ErrorTradesOf(ct)| <= c.totalTrades
    ensures 0.0 <= c.errorRate <= 100.0
    ensures ct == [] ==> c.errorRate == 0.0 && c.errorCount == 0 && c.dominantError == ""
    ensures ct != [] ==> c.errorRate == c.errorCount as real / |ct| as real * 100.0
    ensures c.errorCount == 0 ==> c.dominantError == ""
    ensures c.errorCount > 0 ==> c.dominantError in AllErrorTags(ct)
  {
    NoTagsIffNoErrorTrades(ct);
    if ct == [] then PsychCell(setup, session, 0.0, 0, 0, "")
    else
      PsychCell(setup, session, ErrorRate(|ErrorTradesOf(ct)|, |ct|), |ct|, |ErrorTradesOf(ct)|,
                DominantError(AllErrorTags(ct)))
  }

  /** The cell of the pair (setup, session). */
  function CellAt(ts: seq<Trade>, setup: string, session: string): (c: PsychCell)
    ensures c == CellOf(setup, session, CellTrades(ts, CellKey(setup, session)))
  {
    CellOf(setup, session, CellTrades(ts, CellKey(setup, session)))
  }

  /** The cell of every pair, as a single value. */
  function PairCell(ts: seq<Trade>): (string, string) -> PsychCell
  {
    (setup, session) => CellAt(ts, setup, session)
  }

  /** The grid: one row per setup, one cell per session in each row. */
  function HeatmapData(ts: seq<Trade>): (rows: seq<seq<PsychCell>>)
    ensures |rows| == |Setups(ts)|
    ensures forall i :: 0 <= i < |rows| ==> |rows[i]| == |Sessions(ts)|
    ensures forall i, j :: 0 <= i < |rows| && 0 <= j < |Sessions(ts)| ==>
      rows[i][j] == CellAt(ts, Setups(ts)[i], Sessions(ts)[j])
  {
    GridRows(Setups(ts), Sessions(ts), PairCell(ts))
  }

  /** The source's reading of the collected map: no entry, or no trades, means an empty cell;
      otherwise the counts are taken from the entry. Whatever trades the map was collected
      from, this is the cell of the pair among them. */
  function CellFromData(cellData: map<CellKey, CellData>, setup: string, session: string): (c: PsychCell)
    ensures forall ts :: Collected(cellData, ts) ==> c == CellAt(ts, setup, session)
  {
    var key := CellKey(setup, session);
    var c := if key !in cellData || |cellData[key].trades| == 0 then PsychCell(setup, session, 0.0, 0, 0, "")
      else
        var cell := cellData[key];
        var errorTrades := |ErrorTradesOf(cell.trades)|;
        PsychCell(setup, session, errorTrades as real / |cell.trades| as real * 100.0, |cell.trades|, errorTrades,
                  DominantError(cell.errors));
    assert forall ts :: Collected(cellData, ts) ==> c == CellAt(ts, setup, session) by {
      forall ts | Collected(cellData, ts) ensures c == CellAt(ts, setup, session) {
        CollectedEntry(cellData, ts, key);
      }
    }
    c
  }

  /** The widget's computation: collect the cells, then map every setup and, within it, every
      session to its cell. */
  method BuildHeatmap(trades: seq<Trade>) returns (rows: seq<seq<PsychCell>>)
    ensures rows == HeatmapData(trades)
  {
    var cellData := CollectCells(trades);
    var setups, sessions := Setups(trades), Sessions(trades);
    var cell := (setup, session) => CellFromData(cellData, setup, session);
    rows := GridRows(setups, sessions, cell);
    forall i, j | 0 <= i < |setups| && 0 <= j < |sessions|
      ensures cell(setups[i], sessions[j]) == PairCell(trades)(setups[i], sessions[j])
    {
      assert CellFromData(cellData, setups[i], sessions[j]) == CellAt(trades, setups[i], sessions[j]);
    }
    GridRowsExt(setups, sessions, cell, PairCell(trades));
  }

  /** The dominant error of a cell with error trades is the error tag its trades carry most
      often, the earliest one among equals. */
  lemma DominantOfCell(setup: string, session: string, ct: seq<Trade>, y: string)
    requires y in AllErrorTags(ct)
    ensures var c := CellOf(setup, session, ct);
      && c.dominantError in AllErrorTags(ct)
      && Occurrences(y, AllErrorTags(ct)) <= Occurrences(c.dominantError, AllErrorTags(ct))
      && (Occurrences(y, AllErrorTags(ct)) == Occurrences(c.dominantError, AllErrorTags(ct)) ==>
            FirstIndex(c.dominantError, AllErrorTags(ct)) <= FirstIndex(y, AllErrorTags(ct)))
  {
    var errors := AllErrorTags(ct);
    NoTagsIffNoErrorTrades(ct);
    DominantIsMostCommon(errors, y);
    if Occurrences(y, errors) == Occurrences(DominantError(errors), errors) {
      DominantIsFirstAmongTies(errors, y);
    }
  }

  /** The colour classes of a cell. */
  datatype ErrorColor = Muted | Perfect | Clean | SomeIssues | ManyIssues | Critical

  /** The colour of a cell: muted when empty, then by the error rate with bounds 0, 20, 50
      and 80. */
  function GetCellColor(errorRate: real, totalTrades: nat): (c: ErrorColor)
    ensures c == Muted <==> totalTrades == 0
    ensures totalTrades > 0 ==>
      && (c == Perfect <==> errorRate == 0.0)
      && (c == Clean <==> errorRate != 0.0 && errorRate < 20.0)
      && (c == SomeIssues <==> 20.0 <= errorRate < 50.0)
      && (c == ManyIssues <==> 50.0 <= errorRate < 80.0)
      && (c == Critical <==> errorRate >= 80.0)
  {
    if totalTrades == 0 then Muted
    else if errorRate == 0.0 then Perfect
    else if errorRate < 20.0 then Clean
    else if errorRate < 50.0 then SomeIssues
    else if errorRate < 80.0 then ManyIssues
    else Critical
  }

  function Severity(c: ErrorColor): nat
  {
    match c
    case Muted => 0
    case Perfect => 1
    case Clean => 2
    case SomeIssues => 3
    case ManyIssues => 4
    case Critical => 5
  }

  /** For the non-negative rates of the grid a higher error rate never gets a milder colour. */
  lemma ColorMonotone(a: real, b: real, totalTrades: nat)
    requires totalTrades > 0 && 0.0 <= a <= b
    ensures Severity(GetCellColor(a, totalTrades)) <= Severity(GetCellColor(b, totalTrades))
  {
  }

  /** The advice of the analysis. */
  datatype Advice = HighErrorRate | ModerateErrorRate | GoodDiscipline

  /** Above 50 percent the error rate is high, above 20 moderate, otherwise the discipline is
      good. */
  function Recommendation(errorRate: real): (a: Advice)
    ensures a == HighErrorRate <==> errorRate > 50.0
    ensures a == ModerateErrorRate <==> 20.0 < errorRate <= 50.0
    ensures a == GoodDiscipline <==> errorRate <= 20.0
  {
    if errorRate > 50.0 then HighErrorRate
    else if errorRate > 20.0 then ModerateErrorRate
    else GoodDiscipline
  }

  /** The analysis of a clicked cell. The mean R is absent when there is nothing to average:
      the source divides by the number of trades without a guard, which gives NaN. */
  datatype ErrorAnalysis = ErrorAnalysis(setup: string, session: string, totalTrades: nat, errorTrades: nat,
                                         errorRate: real, errorBreakdown: map<string, nat>,
                                         avgR: Option<real>, recommendation: Advice)

  /** The tally of the error tags of the error trades: the same as the tally of all the tags
      of the cell, since trades without an error tag add none. */
  function Breakdown(tradesInCell: seq<Trade>): (m: map<string, nat>)
    ensures m == Tally(AllErrorTags(tradesInCell))
  {
    ErrorTradesCarryAllTags(tradesInCell);
    Tally(AllErrorTags(ErrorTradesOf(tradesInCell)))
  }

  /** The mean R of the cell, `None` where the source divides 0 by 0. */
  function CellAvgR(tradesInCell: seq<Trade>): (r: Option<real>)
    ensures r.None? <==> tradesInCell == []
    ensures r.Some? ==> r.value == Sum(RValues(tradesInCell)) / |tradesInCell| as real
  {
    if tradesInCell == [] then None else Some(MeanR(tradesInCell))
  }

  /** The analysis of `cell` from the trades of its pair: the cell's own figures, the count
      of every error tag of the error trades, the mean R and the advice for the rate. */
  function AnalysisOf(cell: PsychCell, tradesInCell: seq<Trade>): (a: ErrorAnalysis)
    ensures a.setup == cell.setup && a.session == cell.session
    ensures a.totalTrades == cell.totalTrades && a.errorTrades == cell.errorCount && a.errorRate == cell.errorRate
    ensures a.errorBreakdown == Tally(AllErrorTags(tradesInCell))
    ensures a.avgR.None? <==> tradesInCell == []
    ensures a.avgR.Some? ==> a.avgR.value == Sum(RValues(tradesInCell)) / |tradesInCell| as real
    ensures a.recommendation == Recommendation(cell.errorRate)
  {
    ErrorAnalysis(cell.setup, cell.session, cell.totalTrades, cell.errorCount, cell.errorRate,
                  Breakdown(tradesInCell), CellAvgR(tradesInCell), Recommendation(cell.errorRate))
  }

  /** A click on a cell: nothing for an empty cell; otherwise the trades of the pair are looked
      up again, and the tags of their error trades counted trade by trade. */
  method HandleCellClick(executedTrades: seq<Trade>, cell: PsychCell) returns (analysis: Option<ErrorAnalysis>)
    ensures cell.totalTrades == 0 ==> analysis == None
    ensures cell.totalTrades > 0 ==>
      analysis == Some(AnalysisOf(cell, CellTrades(executedTrades, CellKey(cell.setup, cell.session))))
  {
    if cell.totalTrades == 0 {
      return None;
    }
    var tradesInCell := CellTrades(executedTrades, CellKey(cell.setup, cell.session));
    var errorTrades := ErrorTradesOf(tradesInCell);
    var errorBreakdown: map<string, nat> := map[];
    for i := 0 to |errorTrades|
      invariant errorBreakdown == Tally(AllErrorTags(errorTrades[..i]))
    {
      errorBreakdown := PsychologyHeatmap.CountErrorTags(errorBreakdown, AllErrorTags(errorTrades[..i]),
                                                         errorTrades[i].psychologyTags);
      assert errorTrades[..i + 1] == errorTrades[..i] + [errorTrades[i]];
      AllErrorTagsAppend(errorTrades[..i], errorTrades[i]);
    }
    assert errorTrades[..|errorTrades|] == errorTrades;
    var avgR := if tradesInCell == [] then None else Some(MeanR(tradesInCell));
    var recommendation := Recommendation(cell.errorRate);
    analysis := Some(ErrorAnalysis(cell.setup, cell.session, cell.totalTrades, cell.errorCount, cell.errorRate,
                                   errorBreakdown, avgR, recommendation));
  }

  /** For a cell with error trades, its dominant error is a key of the breakdown with the
      largest count. */
  lemma DominantTopsBreakdown(setup: string, session: string, ct: seq<Trade>, tag: string)
    requires CellOf(setup, session, ct).errorCount > 0
    requires tag in AnalysisOf(CellOf(setup, session, ct), ct).errorBreakdown
    ensures var cell := CellOf(setup, session, ct);
      var breakdown := AnalysisOf(cell, ct).errorBreakdown;
      cell.dominantError in breakdown && breakdown[tag] <= breakdown[cell.dominantError]
  {
    var errors := AllErrorTags(ct);
    var d := CellOf(setup, session, ct).dominantError;
    TallyCounts(errors, tag);
    TallyCounts(errors, d);
    DominantOfCell(setup, session, ct, tag);
  }
}
