/** The setup × session cross-tabulation the four heatmaps share: the rows are
    the distinct setups in ascending order, the columns the distinct sessions,
    and a cell holds the trades of that pair, in order.

    The source keys a cell by the string `${setup}-${session}`. Two different
    pairs can give the same string when a label contains `-` (("a-b", "c") and
    ("a", "b-c") both give "a-b-c"), so the keyed maps of the source can merge
    cells. This model keys a cell by the pair itself. */
module CrossTab {
  import opened Seqs
  import opened Journal
  import opened Labels

  datatype CellKey = CellKey(setup: string, session: string)

  function KeyOf(t: Trade): (k: CellKey)
    ensures k.setup == SetupOf(t) && k.session == SessionOf(t)
  {
    CellKey(t.plan.setup, t.plan.session)
  }

  /** The trades of one cell, in order. */
  function CellTrades(ts: seq<Trade>, k: CellKey): (r: seq<Trade>)
    ensures |r| <= |ts|
  {
    if ts == [] then []
    else
      var last := ts[|ts| - 1];
      CellTrades(ts[..|ts| - 1], k) + (if KeyOf(last) == k then [last] else [])
  }

  /** The trades of a cell are exactly the trades whose key is that of the cell. */
  lemma {:induction false} CellTradesMembers(ts: seq<Trade>, k: CellKey, t: Trade)
    ensures t in CellTrades(ts, k) <==> t in ts && KeyOf(t) == k
  {
    if ts != [] {
      var init, last := ts[..|ts| - 1], ts[|ts| - 1];
      CellTradesMembers(init, k, t);
      assert ts == init + [last];
    }
  }

  /** Every trade of a cell has the key of the cell. */
  lemma CellTradesKeys(ts: seq<Trade>, k: CellKey)
    ensures forall i :: 0 <= i < |CellTrades(ts, k)| ==> KeyOf(CellTrades(ts, k)[i]) == k
  {
    forall i | 0 <= i < |CellTrades(ts, k)|
      ensures KeyOf(CellTrades(ts, k)[i]) == k
    {
      CellTradesMembers(ts, k, CellTrades(ts, k)[i]);
    }
  }

  lemma CellTradesAppend(ts: seq<Trade>, t: Trade, k: CellKey)
    ensures CellTrades(ts + [t], k) == CellTrades(ts, k) + (if KeyOf(t) == k then [t] else [])
  {
    assert (ts + [t])[..|ts|] == ts;
  }

  /** The sorted distinct setups of the trades: the rows. */
  function Setups(ts: seq<Trade>): (r: seq<string>)
    ensures StrictlySorted(r) && NoDuplicates(r)
    ensures forall s :: s in r <==> exists i :: 0 <= i < |ts| && SetupOf(ts[i]) == s
  {
    var labels := seq(|ts|, i requires 0 <= i < |ts| => SetupOf(ts[i]));
    var r := SortedDistinct(labels);
    forall s ensures s in labels <==> exists i :: 0 <= i < |ts| && SetupOf(ts[i]) == s {
      if s in labels {
        var i :| 0 <= i < |labels| && labels[i] == s;
      }
      if exists i :: 0 <= i < |ts| && SetupOf(ts[i]) == s {
        var i :| 0 <= i < |ts| && SetupOf(ts[i]) == s;
        assert labels[i] == s;
      }
    }
    StrictlySortedDistinct(r);
    r
  }

  /** The sorted distinct sessions of the trades: the columns. */
  function Sessions(ts: seq<Trade>): (r: seq<string>)
    ensures StrictlySorted(r) && NoDuplicates(r)
    ensures forall s :: s in r <==> exists i :: 0 <= i < |ts| && SessionOf(ts[i]) == s
  {
    var labels := seq(|ts|, i requires 0 <= i < |ts| => SessionOf(ts[i]));
    var r := SortedDistinct(labels);
    forall s ensures s in labels <==> exists i :: 0 <= i < |ts| && SessionOf(ts[i]) == s {
      if s in labels {
        var i :| 0 <= i < |labels| && labels[i] == s;
      }
      if exists i :: 0 <= i < |ts| && SessionOf(ts[i]) == s {
        var i :| 0 <= i < |ts| && SessionOf(ts[i]) == s;
        assert labels[i] == s;
      }
    }
    StrictlySortedDistinct(r);
    r
  }

  /** Sum of `f` over the cells of row `s`. */
  function RowSum(s: string, sessions: seq<string>, f: CellKey -> nat): nat
  {
    if sessions == [] then 0
    else RowSum(s, sessions[..|sessions| - 1], f) + f(CellKey(s, sessions[|sessions| - 1]))
  }

  /** Sum of `f` over every cell of the grid `setups` × `sessions`. */
  function GridSum(setups: seq<string>, sessions: seq<string>, f: CellKey -> nat): nat
  {
    if setups == [] then 0
    else GridSum(setups[..|setups| - 1], sessions, f) + RowSum(setups[|setups| - 1], sessions, f)
  }

  /** Two cell measures that agree on every cell have the same grid sum. */
  lemma {:induction false} GridSumExt(setups: seq<string>, sessions: seq<string>, f: CellKey -> nat, g: CellKey -> nat)
    requires forall k :: f(k) == g(k)
    ensures GridSum(setups, sessions, f) == GridSum(setups, sessions, g)
  {
    if setups != [] {
      GridSumExt(setups[..|setups| - 1], sessions, f, g);
      RowSumExt(setups[|setups| - 1], sessions, f, g);
    }
  }

  lemma {:induction false} RowSumExt(s: string, sessions: seq<string>, f: CellKey -> nat, g: CellKey -> nat)
    requires forall k :: f(k) == g(k)
    ensures RowSum(s, sessions, f) == RowSum(s, sessions, g)
  {
    if sessions != [] {
      RowSumExt(s, sessions[..|sessions| - 1], f, g);
    }
  }

  /** The number of trades of each cell, as a single value. */
  function CellSize(ts: seq<Trade>): CellKey -> nat
  {
    k => |CellTrades(ts, k)|
  }

  /** How often `x` occurs in `xs`. */
  function Occurrences(x: string, xs: seq<string>): nat
  {
    if xs == [] then 0 else Occurrences(x, xs[..|xs| - 1]) + (if xs[|xs| - 1] == x then 1 else 0)
  }

  lemma {:induction false} OccurrencesOfDistinct(x: string, xs: seq<string>)
    requires NoDuplicates(xs)
    ensures Occurrences(x, xs) == if x in xs then 1 else 0
  {
    if xs != [] {
      var init := xs[..|xs| - 1];
      assert NoDuplicates(init);
      OccurrencesOfDistinct(x, init);
      assert xs == init + [xs[|xs| - 1]];
      assert xs[|xs| - 1] !in init;
    }
  }

  lemma {:induction false} RowSumEmpty(s: string, sessions: seq<string>)
    ensures RowSum(s, sessions, CellSize([])) == 0
  {
    if sessions != [] {
      RowSumEmpty(s, sessions[..|sessions| - 1]);
    }
  }

  lemma {:induction false} GridSumEmpty(setups: seq<string>, sessions: seq<string>)
    ensures GridSum(setups, sessions, CellSize([])) == 0
  {
    if setups != [] {
      GridSumEmpty(setups[..|setups| - 1], sessions);
      RowSumEmpty(setups[|setups| - 1], sessions);
    }
  }

  lemma {:induction false} RowSumStep(ts: seq<Trade>, t: Trade, s: string, sessions: seq<string>)
    ensures RowSum(s, sessions, CellSize(ts + [t])) ==
      RowSum(s, sessions, CellSize(ts)) + (if SetupOf(t) == s then Occurrences(SessionOf(t), sessions) else 0)
  {
    if sessions != [] {
      RowSumStep(ts, t, s, sessions[..|sessions| - 1]);
      CellTradesAppend(ts, t, CellKey(s, sessions[|sessions| - 1]));
    }
  }

  lemma {:induction false} GridSumStep(ts: seq<Trade>, t: Trade, setups: seq<string>, sessions: seq<string>)
    requires Occurrences(SessionOf(t), sessions) == 1
    ensures GridSum(setups, sessions, CellSize(ts + [t])) ==
      GridSum(setups, sessions, CellSize(ts)) + Occurrences(SetupOf(t), setups)
  {
    if setups != [] {
      GridSumStep(ts, t, setups[..|setups| - 1], sessions);
      RowSumStep(ts, t, setups[|setups| - 1], sessions);
    }
  }

  /** Over distinct rows and columns that include every setup and every session, each
      trade is in exactly one cell: the cell sizes add up to the number of trades. */
  lemma {:induction false} GridCoversTrades(ts: seq<Trade>, setups: seq<string>, sessions: seq<string>)
    requires NoDuplicates(setups) && NoDuplicates(sessions)
    requires forall i :: 0 <= i < |ts| ==> SetupOf(ts[i]) in setups && SessionOf(ts[i]) in sessions
    ensures GridSum(setups, sessions, CellSize(ts)) == |ts|
  {
    if ts == [] {
      GridSumEmpty(setups, sessions);
    } else {
      var init, t := ts[..|ts| - 1], ts[|ts| - 1];
      assert ts == init + [t];
      GridCoversTrades(init, setups, sessions);
      OccurrencesOfDistinct(SessionOf(t), sessions);
      OccurrencesOfDistinct(SetupOf(t), setups);
      GridSumStep(init, t, setups, sessions);
    }
  }

  /** The grid as rows: row `i` holds `cell(setups[i], sessions[j])` for every column `j`. */
  function GridRows<C>(setups: seq<string>, sessions: seq<string>, cell: (string, string) -> C): (rows: seq<seq<C>>)
    ensures |rows| == |setups|
    ensures forall i :: 0 <= i < |setups| ==> |rows[i]| == |sessions|
    ensures forall i, j :: 0 <= i < |setups| && 0 <= j < |sessions| ==> rows[i][j] == cell(setups[i], sessions[j])
  {
    seq(|setups|, i requires 0 <= i < |setups| =>
      seq(|sessions|, j requires 0 <= j < |sessions| => cell(setups[i], sessions[j])))
  }

  /** Cell functions that agree on the grid give the same rows. */
  lemma GridRowsExt<C>(setups: seq<string>, sessions: seq<string>, f: (string, string) -> C, g: (string, string) -> C)
    requires forall i, j :: 0 <= i < |setups| && 0 <= j < |sessions| ==> f(setups[i], sessions[j]) == g(setups[i], sessions[j])
    ensures GridRows(setups, sessions, f) == GridRows(setups, sessions, g)
  {
    var a, b := GridRows(setups, sessions, f), GridRows(setups, sessions, g);
    forall i | 0 <= i < |setups| ensures a[i] == b[i] {
    }
  }

  /** The rows one after the other. */
  function Flatten<C>(rows: seq<seq<C>>): seq<C>
  {
    if rows == [] then [] else Flatten(rows[..|rows| - 1]) + rows[|rows| - 1]
  }

  lemma {:induction false} FlattenMembers<C>(rows: seq<seq<C>>, c: C)
    ensures c in Flatten(rows) <==> exists i :: 0 <= i < |rows| && c in rows[i]
  {
    if rows != [] {
      var init := rows[..|rows| - 1];
      FlattenMembers(init, c);
      assert forall i :: 0 <= i < |init| ==> init[i] == rows[i];
      if c in rows[|rows| - 1] {
        assert exists i :: 0 <= i < |rows| && c in rows[i];
      }
    }
  }

  /** Every cell of the flat grid is the cell of a row label and a column label. */
  lemma FlatGridMember<C>(setups: seq<string>, sessions: seq<string>, cell: (string, string) -> C, c: C)
    returns (setup: string, session: string)
    requires c in Flatten(GridRows(setups, sessions, cell))
    ensures setup in setups && session in sessions && c == cell(setup, session)
  {
    var rows := GridRows(setups, sessions, cell);
    FlattenMembers(rows, c);
    var i :| 0 <= i < |rows| && c in rows[i];
    var j :| 0 <= j < |rows[i]| && rows[i][j] == c;
    setup, session := setups[i], sessions[j];
  }

  /** The flat grid lists the cell of every row label and column label. */
  lemma FlatGridHas<C>(setups: seq<string>, sessions: seq<string>, cell: (string, string) -> C,
                       setup: string, session: string)
    requires setup in setups && session in sessions
    ensures cell(setup, session) in Flatten(GridRows(setups, sessions, cell))
  {
    var rows := GridRows(setups, sessions, cell);
    var i :| 0 <= i < |setups| && setups[i] == setup;
    var j :| 0 <= j < |sessions| && sessions[j] == session;
    assert rows[i][j] == cell(setup, session);
    FlattenMembers(rows, cell(setup, session));
  }

  /** The nested `forEach` over setups and sessions that pushes one cell per pair. */
  method PushGrid<C>(setups: seq<string>, sessions: seq<string>, cell: (string, string) -> C) returns (heatmapData: seq<C>)
    ensures heatmapData == Flatten(GridRows(setups, sessions, cell))
  {
    ghost var rows := GridRows(setups, sessions, cell);
    heatmapData := [];
    for i := 0 to |setups|
      invariant heatmapData == Flatten(rows[..i])
    {
      var setup := setups[i];
      ghost var done, row := heatmapData, rows[i];
      for j := 0 to |sessions|
        invariant heatmapData == done + row[..j]
      {
        var session := sessions[j];
        heatmapData := heatmapData + [cell(setup, session)];
        AppendNext(done, row, j);
      }
      assert rows[..i + 1][..i] == rows[..i];
      assert row[..|sessions|] == row;
    }
    assert rows[..|setups|] == rows;
  }

  /** The heatmap grid holds every trade exactly once. */
  lemma GridCountsEveryTrade(ts: seq<Trade>)
    ensures GridSum(Setups(ts), Sessions(ts), CellSize(ts)) == |ts|
  {
    GridCoversTrades(ts, Setups(ts), Sessions(ts));
  }

  /** Every trade's own cell is on the grid. */
  lemma TradeCellOnGrid(ts: seq<Trade>, i: nat)
    requires i < |ts|
    ensures SetupOf(ts[i]) in Setups(ts) && SessionOf(ts[i]) in Sessions(ts)
    ensures ts[i] in CellTrades(ts, KeyOf(ts[i]))
  {
    CellTradesMembers(ts, KeyOf(ts[i]), ts[i]);
  }
}
