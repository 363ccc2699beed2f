/** The three R-multiple formulas of the journal, each exactly as its call
    site computes it. R is a price move measured in units of the planned
    risk |entry - stop|, so every formula needs entry != stop.
    - `ExpectedR`: the plan dialog's planned R, net of a round-trip commission.
    - `DirectionalR`: the execution dialog's realised R, signed by direction.
    - `StoredR`: the realised R the plan store writes into the trade; it
      ignores direction, so for a Short plan it is the negation of the
      dialog's figure (`StoredRIgnoresDirection`). */
module RMultiple {
  import opened Journal

  function Abs(x: real): real
  {
    if x < 0.0 then -x else x
  }

  /** Planned R: (|take - entry| - entry * (commission% / 100) * 2) / |entry - stop|, the
      reward net of the entry-priced commission paid twice, in units of risk. It is
      non-negative exactly when the reward covers that commission. */
  function ExpectedR(entry: real, stop: real, take: real, commissionPercent: real): (r: real)
    requires entry != stop
    ensures r * Abs(entry - stop) == Abs(take - entry) - entry * (commissionPercent / 100.0) * 2.0
    ensures r >= 0.0 <==> Abs(take - entry) >= entry * (commissionPercent / 100.0) * 2.0
  {
    var risk := Abs(entry - stop);
    var reward := Abs(take - entry);
    var commissionCost := entry * (commissionPercent / 100.0) * 2.0;
    (reward - commissionCost) / risk
  }

  /** Realised R as the execution dialog shows it: the signed move in the trade's favour over
      the risk. The exit is r units of risk from the entry, on the winning side when r > 0. */
  function DirectionalR(direction: Direction, entry: real, stop: real, exit: real): (r: real)
    requires entry != stop
    ensures direction == Long ==> exit == entry + r * Abs(entry - stop)
    ensures direction == Short ==> exit == entry - r * Abs(entry - stop)
  {
    var risk := Abs(entry - stop);
    var actualReturn := if direction == Long then exit - entry else entry - exit;
    actualReturn / risk
  }

  /** Realised R as the plan store records it: (exit - entry) / |entry - stop| whatever the
      direction, so the exit is always entry + r units of risk. */
  function StoredR(entry: real, stop: real, exit: real): (r: real)
    requires entry != stop
    ensures exit == entry + r * Abs(entry - stop)
  {
    (exit - entry) / Abs(entry - stop)
  }

  /** Planned R does not depend on the side of the trade: mirroring the stop and
      the target around the entry (a Long plan turned into the same Short plan)
      leaves it unchanged. With no commission it is reward over risk, never negative. */
  lemma ExpectedRDirectionFree(entry: real, stop: real, take: real, c: real)
    requires entry != stop
    ensures ExpectedR(entry, 2.0 * entry - stop, 2.0 * entry - take, c) == ExpectedR(entry, stop, take, c)
    ensures c == 0.0 ==> ExpectedR(entry, stop, take, c) == Abs(take - entry) / Abs(entry - stop)
    ensures c == 0.0 ==> ExpectedR(entry, stop, take, c) >= 0.0
  {
    assert Abs(entry - (2.0 * entry - stop)) == Abs(entry - stop);
    assert Abs((2.0 * entry - take) - entry) == Abs(take - entry);
  }

  /** A higher commission on a positive entry price never raises the planned R. */
  lemma ExpectedRCommissionMonotone(entry: real, stop: real, take: real, c1: real, c2: real)
    requires entry != stop && entry > 0.0 && c1 <= c2
    ensures ExpectedR(entry, stop, take, c2) <= ExpectedR(entry, stop, take, c1)
  {
    var risk := Abs(entry - stop);
    var reward := Abs(take - entry);
    var n1 := reward - entry * (c1 / 100.0) * 2.0;
    var n2 := reward - entry * (c2 / 100.0) * 2.0;
    assert entry * (c1 / 100.0) <= entry * (c2 / 100.0);
    assert n2 <= n1;
    DivMonotone(n2, n1, risk);
  }

  lemma DivMonotone(a: real, b: real, d: real)
    requires a <= b && d > 0.0
    ensures a / d <= b / d
  {
    assert b / d - a / d == (b - a) / d;
  }

  /** The plan form's placeholder values: risk 333, net reward 443.9296, so R = 1.3331…, shown as 1.33. */
  lemma ExpectedRPlaceholderExample()
    ensures ExpectedR(112588.0, 112255.0, 113122.0, 0.04) == 443.9296 / 333.0
    ensures 1.325 <= ExpectedR(112588.0, 112255.0, 113122.0, 0.04) < 1.335
  {
    assert Abs(112588.0 - 112255.0) == 333.0;
    assert Abs(113122.0 - 112588.0) == 534.0;
    assert 112588.0 * (0.04 / 100.0) * 2.0 == 90.0704;
  }

  /** Sign and size of realised R: a move in the trade's favour is positive, against it
      negative, and its magnitude is |exit - entry| / |entry - stop| for either side. */
  lemma DirectionalRSign(direction: Direction, entry: real, stop: real, exit: real)
    requires entry != stop
    ensures var r := DirectionalR(direction, entry, stop, exit);
      && (direction == Long ==> (r > 0.0 <==> exit > entry) && (r < 0.0 <==> exit < entry))
      && (direction == Short ==> (r > 0.0 <==> exit < entry) && (r < 0.0 <==> exit > entry))
      && Abs(r) == Abs(exit - entry) / Abs(entry - stop)
  {
    var risk := Abs(entry - stop);
    var ret := if direction == Long then exit - entry else entry - exit;
    var r := ret / risk;
    assert r * risk == ret;
    if ret < 0.0 {
      assert Abs(r) == -r;
      assert -r == (-ret) / risk;
    }
  }

  /** Exiting at the stop is exactly one unit of risk: -1R when the stop lies on the
      losing side of the entry, +1R when it does not. */
  lemma StopExitIsOneR(direction: Direction, entry: real, stop: real)
    requires entry != stop
    ensures Abs(DirectionalR(direction, entry, stop, stop)) == 1.0
    ensures (direction == Long && stop < entry) || (direction == Short && stop > entry)
      ==> DirectionalR(direction, entry, stop, stop) == -1.0
  {
    var risk := Abs(entry - stop);
    var ret := if direction == Long then stop - entry else entry - stop;
    assert ret == risk || ret == -risk;
    UnitQuotients(risk);
  }

  lemma UnitQuotients(d: real)
    requires d > 0.0
    ensures d / d == 1.0 && (-d) / d == -1.0
  {
  }

  /** The plan store's R agrees with the dialog's for a Long trade and is its negation for a Short one. */
  lemma StoredRIgnoresDirection(direction: Direction, entry: real, stop: real, exit: real)
    requires entry != stop
    ensures direction == Long ==> StoredR(entry, stop, exit) == DirectionalR(direction, entry, stop, exit)
    ensures direction == Short ==> StoredR(entry, stop, exit) == -DirectionalR(direction, entry, stop, exit)
  {
    var risk := Abs(entry - stop);
    assert (entry - exit) / risk == -((exit - entry) / risk);
  }
}
