/** The outcome projector (`OutcomeAnalysisWidget`): given the active plans and a historical
    win rate in percent, it reports the best, worst and expected total R, the probability of
    the best and worst case, and ranks the n + 1 "k plans win, the rest lose" scenarios by
    their binomial probability. Reals are exact; the source's IEEE doubles (and the overflow
    of its recursive factorial for large n) are not modelled. */
module OutcomeAnalysis {
  import opened Seqs
  import opened Journal
  import opened Sorting

  /** One entry of `mostLikelyScenarios`. */
  datatype Scenario = Scenario(wins: nat, losses: int, probability: real, outcome: real)

  /** What the widget shows: the empty state without active plans, otherwise the three key
      cases and the ranked scenarios. */
  datatype Projection =
    | NoActivePlans
    | Projection(
        totalPlans: nat,
        totalPossibleWins: int,
        totalPossibleLosses: int,
        bestCaseR: real,
        worstCaseR: real,
        expectedR: real,
        bestCaseProbability: real,
        worstCaseProbability: real,
        scenarios: seq<Scenario>,
        topScenarios: seq<Scenario>)

  // ---------------------------------------------------------------- arithmetic helpers

  /** `Math.pow(x, k)` for a natural exponent. */
  function Pow(x: real, k: nat): real
  {
    if k == 0 then 1.0 else x * Pow(x, k - 1)
  }

  lemma {:induction false} PowOne(k: nat)
    ensures Pow(1.0, k) == 1.0
  {
    if k > 0 {
      PowOne(k - 1);
    }
  }

  /** The recursive `factorial`: 1 for n <= 1, otherwise n times the factorial of n - 1. */
  function Factorial(n: nat): (f: nat)
    ensures f >= 1
  {
    if n <= 1 then 1 else n * Factorial(n - 1)
  }

  /** Binomial coefficients by Pascal's rule; 0 when k exceeds n. */
  function Choose(n: nat, k: nat): nat
  {
    if k == 0 then 1 else if n == 0 then 0 else Choose(n - 1, k - 1) + Choose(n - 1, k)
  }

  lemma {:induction false} ChooseAbove(n: nat, k: nat)
    requires k > n
    ensures Choose(n, k) == 0
  {
    if n > 0 {
      ChooseAbove(n - 1, k - 1);
      ChooseAbove(n - 1, k);
    }
  }

  lemma ChooseAll(n: nat)
    ensures Choose(n, n) == 1
  {
    if n > 0 {
      ChooseAbove(n - 1, n);
    }
  }

  lemma FactorialStep(n: nat)
    requires n >= 1
    ensures Factorial(n) == n * Factorial(n - 1)
  {
  }

  /** The arithmetic of one Pascal step, on plain integers: with n = k + j,
      (a + b)·k!·j! = n·(n − 1)! once a·(k − 1)!·j! and b·k!·(j − 1)! both equal (n − 1)!. */
  lemma PascalStep(n: int, k: int, j: int, a: int, b: int, fk: int, fj: int, f: int)
    requires n == k + j && f == a * (fk * (j * fj)) && f == b * ((k * fk) * fj)
    ensures (a + b) * ((k * fk) * (j * fj)) == n * f
  {
    calc {
      (a + b) * ((k * fk) * (j * fj));
      k * (a * (fk * (j * fj))) + j * (b * ((k * fk) * fj));
      k * f + j * f;
    }
  }

  /** The factorial quotient the source computes is the binomial coefficient:
      n! = C(n, k) · (k! · (n − k)!) for every k <= n. */
  lemma {:induction false} FactorialQuotientIsChoose(n: nat, k: nat)
    requires k <= n
    ensures Factorial(n) == Choose(n, k) * (Factorial(k) * Factorial(n - k))
  {
    if k == 0 {
    } else if k == n {
      ChooseAll(n);
    } else {
      var j := n - k;
      FactorialQuotientIsChoose(n - 1, k - 1);
      FactorialQuotientIsChoose(n - 1, k);
      FactorialStep(n);
      FactorialStep(k);
      FactorialStep(j);
      PascalStep(n, k, j, Choose(n - 1, k - 1), Choose(n - 1, k), Factorial(k - 1), Factorial(j - 1),
                 Factorial(n - 1));
    }
  }

  // ---------------------------------------------------------------- binomial distribution

  /** `binomialCoeff`: the factorial quotient n!/(k!·(n−k)!), which is the binomial
      coefficient C(n, k). */
  function BinomialCoefficient(n: nat, k: nat): (c: real)
    requires k <= n
    ensures c == Choose(n, k) as real
  {
    FactorialQuotientIsChoose(n, k);
    Quotient(Factorial(n), Choose(n, k), Factorial(k) * Factorial(n - k));
    Factorial(n) as real / (Factorial(k) * Factorial(n - k)) as real
  }

  /** `binomialProbability(n, k, p)`: binomialCoeff · p^k · (1 − p)^(n−k), the k-th term
      of the binomial expansion of (p + (1 − p))^n. */
  function BinomialProbability(n: nat, k: nat, p: real): (b: real)
    requires k <= n
    ensures b == Term(n, k, p, 1.0 - p)
  {
    SameProduct(BinomialCoefficient(n, k), Choose(n, k) as real, Pow(p, k), Pow(1.0 - p, n - k));
    BinomialCoefficient(n, k) * Pow(p, k) * Pow(1.0 - p, n - k)
  }

  lemma Quotient(f: nat, c: nat, d: nat)
    requires d > 0 && f == c * d
    ensures f as real / d as real == c as real
  {
    assert f as real == c as real * d as real;
  }

  lemma SameProduct(a: real, b: real, x: real, y: real)
    requires a == b
    ensures a * x * y == b * x * y
  {
  }

  /** The k-th term of the expansion of (p + q)^n. */
  function Term(n: nat, k: nat, p: real, q: real): real
    requires k <= n
  {
    Choose(n, k) as real * Pow(p, k) * Pow(q, n - k)
  }

  lemma TermRing(a: real, b: real, p: real, pk: real, q: real, qj: real)
    ensures (a + b) * (p * pk) * (q * qj) == p * (a * pk * (q * qj)) + q * (b * (p * pk) * qj)
  {
  }

  /** Pascal's rule on one term of the expansion. */
  lemma TermSplit(n: nat, k: nat, p: real, q: real)
    requires 1 <= k < n
    ensures Term(n, k, p, q) == p * Term(n - 1, k - 1, p, q) + q * Term(n - 1, k, p, q)
  {
    TermRing(Choose(n - 1, k - 1) as real, Choose(n - 1, k) as real, p, Pow(p, k - 1), q, Pow(q, n - 1 - k));
  }

  lemma TermFirst(n: nat, p: real, q: real)
    requires n >= 1
    ensures Term(n, 0, p, q) == q * Term(n - 1, 0, p, q)
  {
  }

  lemma TermLast(n: nat, p: real, q: real)
    requires n >= 1
    ensures Term(n, n, p, q) == p * Term(n - 1, n - 1, p, q)
  {
    ChooseAll(n);
    ChooseAll(n - 1);
  }

  /** Entry k of row n of Pascal's triangle weighted by p and q: 1 at the apex, otherwise
      p times the entry above-left plus q times the entry above, 0 outside the triangle. */
  function Entry(n: nat, k: nat, p: real, q: real): real
  {
    if k > n then 0.0
    else if n == 0 then 1.0
    else (if k == 0 then 0.0 else p * Entry(n - 1, k - 1, p, q)) + q * Entry(n - 1, k, p, q)
  }

  /** The sum of entries 0..m-1 of row n. */
  function Partial(n: nat, m: nat, p: real, q: real): real
  {
    if m == 0 then 0.0 else Partial(n, m - 1, p, q) + Entry(n, m - 1, p, q)
  }

  lemma ZeroProducts(p: real, q: real, u: real, x: real, y: real)
    requires u == 0.0 && x == 0.0 && y == 0.0
    ensures u == p * x + q * y
  {
  }

  lemma EntryInside(n: nat, k: nat, p: real, q: real, t: real, b: real, d: real)
    requires 1 <= k <= n
    requires t == Entry(n, k, p, q) && b == Entry(n - 1, k - 1, p, q) && d == Entry(n - 1, k, p, q)
    ensures t == p * b + q * d
  {
  }

  /** Pascal's rule holds at every k >= 1 of a row below the apex, inside the triangle or not. */
  lemma EntryStep(n: nat, k: nat, p: real, q: real, t: real, b: real, d: real)
    requires n >= 1 && k >= 1
    requires t == Entry(n, k, p, q) && b == Entry(n - 1, k - 1, p, q) && d == Entry(n - 1, k, p, q)
    ensures t == p * b + q * d
  {
    if k > n {
      ZeroProducts(p, q, t, b, d);
    } else {
      EntryInside(n, k, p, q, t, b, d);
    }
  }

  lemma EntryFirstOf(n: nat, p: real, q: real, t: real, x: real)
    requires n >= 1 && t == Entry(n, 0, p, q) && x == Entry(n - 1, 0, p, q)
    ensures t == q * x
  {
  }

  lemma EntryLastOf(n: nat, p: real, q: real, t: real, x: real)
    requires n >= 1 && t == Entry(n, n, p, q) && x == Entry(n - 1, n - 1, p, q)
    ensures t == p * x
  {
    ZeroProducts(p, q, 0.0, 0.0, Entry(n - 1, n, p, q));
  }

  lemma SumOfSplits(p: real, q: real, u: real, s: real, t: real, a: real, b: real,
                    c: real, d: real, v: real, w: real)
    requires s == p * a + q * c
    requires t == p * b + q * d
    requires u == s + t
    requires v == a + b
    requires w == c + d
    ensures u == p * v + q * w
  {
  }

  lemma FirstSplit(p: real, q: real, u: real, x: real, v: real, w: real)
    requires u == q * x && v == 0.0 && w == x
    ensures u == p * v + q * w
  {
  }

  lemma PartialNext(n: nat, m: nat, p: real, q: real, s: real, t: real)
    requires m >= 1 && s == Partial(n, m - 1, p, q) && t == Entry(n, m - 1, p, q)
    ensures Partial(n, m, p, q) == s + t
  {
  }

  lemma PartialFirst(n: nat, p: real, q: real, s: real, a: real, c: real)
    requires n >= 1
    requires s == Partial(n, 1, p, q) && a == Partial(n - 1, 0, p, q) && c == Partial(n - 1, 1, p, q)
    ensures s == p * a + q * c
  {
    var t, x := Entry(n, 0, p, q), Entry(n - 1, 0, p, q);
    EntryFirstOf(n, p, q, t, x);
    PartialNext(n, 1, p, q, 0.0, t);
    PartialNext(n - 1, 1, p, q, 0.0, x);
    FirstSplit(p, q, s, x, a, c);
  }

  /** Every partial sum of row n is p times a partial sum of row n - 1 plus q times
      the partial sum one entry longer. */
  lemma {:induction false} PartialStep(n: nat, m: nat, p: real, q: real, s: real, a: real, c: real)
    requires n >= 1 && m >= 1
    requires s == Partial(n, m, p, q) && a == Partial(n - 1, m - 1, p, q) && c == Partial(n - 1, m, p, q)
    ensures s == p * a + q * c
  {
    if m == 1 {
      PartialFirst(n, p, q, s, a, c);
    } else {
      var s', t' := Partial(n, m - 1, p, q), Entry(n, m - 1, p, q);
      var a', b' := Partial(n - 1, m - 1 - 1, p, q), Entry(n - 1, m - 1 - 1, p, q);
      var d' := Entry(n - 1, m - 1, p, q);
      PartialStep(n, m - 1, p, q, s', a', a);
      EntryStep(n, m - 1, p, q, t', b', d');
      PartialNext(n, m, p, q, s', t');
      PartialNext(n - 1, m - 1, p, q, a', b');
      PartialNext(n - 1, m, p, q, a, d');
      SumOfSplits(p, q, s, s', t', a', b', a, d', a, c);
    }
  }

  lemma RowSplit(p: real, q: real, u: real, v: real, w: real, e: real)
    requires u == p * v + q * w && w == v + e && e == 0.0
    ensures u == (p + q) * v
  {
  }

  lemma PowStep(x: real, n: nat, u: real, v: real)
    requires n >= 1 && u == x * v && v == Pow(x, n - 1)
    ensures u == Pow(x, n)
  {
  }

  /** The binomial theorem: the entries of row n add up to (p + q)^n. */
  lemma {:induction false} BinomialTheorem(n: nat, p: real, q: real)
    ensures Partial(n, n + 1, p, q) == Pow(p + q, n)
  {
    if n > 0 {
      var s, v, w, e := Partial(n, n + 1, p, q), Partial(n - 1, n, p, q), Partial(n - 1, n + 1, p, q),
                        Entry(n - 1, n, p, q);
      PartialStep(n, n + 1, p, q, s, v, w);
      PartialNext(n - 1, n + 1, p, q, v, e);
      RowSplit(p, q, s, v, w, e);
      BinomialTheorem(n - 1, p, q);
      PowStep(p + q, n, s, v);
    }
  }

  lemma Same(a: real, b: real, c: real)
    requires a == c && b == c
    ensures a == b
  {
  }

  lemma TermFirstOf(n: nat, p: real, q: real, x: real)
    requires n >= 1 && x == Term(n - 1, 0, p, q)
    ensures Term(n, 0, p, q) == q * x
  {
    TermFirst(n, p, q);
  }

  lemma TermLastOf(n: nat, p: real, q: real, x: real)
    requires n >= 1 && x == Term(n - 1, n - 1, p, q)
    ensures Term(n, n, p, q) == p * x
  {
    TermLast(n, p, q);
  }

  lemma TermSplitOf(n: nat, k: nat, p: real, q: real, x: real, y: real)
    requires 1 <= k < n && x == Term(n - 1, k - 1, p, q) && y == Term(n - 1, k, p, q)
    ensures Term(n, k, p, q) == p * x + q * y
  {
    TermSplit(n, k, p, q);
  }

  lemma EntryTermFirst(n: nat, p: real, q: real)
    requires 0 < n && Entry(n - 1, 0, p, q) == Term(n - 1, 0, p, q)
    ensures Entry(n, 0, p, q) == Term(n, 0, p, q)
  {
    var x := Entry(n - 1, 0, p, q);
    EntryFirstOf(n, p, q, Entry(n, 0, p, q), x);
    TermFirstOf(n, p, q, x);
    Same(Entry(n, 0, p, q), Term(n, 0, p, q), q * x);
  }

  lemma EntryTermLast(n: nat, p: real, q: real)
    requires 0 < n && Entry(n - 1, n - 1, p, q) == Term(n - 1, n - 1, p, q)
    ensures Entry(n, n, p, q) == Term(n, n, p, q)
  {
    var x := Entry(n - 1, n - 1, p, q);
    EntryLastOf(n, p, q, Entry(n, n, p, q), x);
    TermLastOf(n, p, q, x);
    Same(Entry(n, n, p, q), Term(n, n, p, q), p * x);
  }

  lemma EntryTermInner(n: nat, k: nat, p: real, q: real)
    requires 0 < k < n
    requires Entry(n - 1, k - 1, p, q) == Term(n - 1, k - 1, p, q)
    requires Entry(n - 1, k, p, q) == Term(n - 1, k, p, q)
    ensures Entry(n, k, p, q) == Term(n, k, p, q)
  {
    var x, y := Entry(n - 1, k - 1, p, q), Entry(n - 1, k, p, q);
    EntryInside(n, k, p, q, Entry(n, k, p, q), x, y);
    TermSplitOf(n, k, p, q, x, y);
    Same(Entry(n, k, p, q), Term(n, k, p, q), p * x + q * y);
  }

  /** Entry k of row n is the k-th term of the expansion of (p + q)^n. */
  lemma {:induction false} EntryIsTerm(n: nat, k: nat, p: real, q: real)
    requires k <= n
    ensures Entry(n, k, p, q) == Term(n, k, p, q)
  {
    if n == 0 {
    } else if k == 0 {
      EntryIsTerm(n - 1, 0, p, q);
      EntryTermFirst(n, p, q);
    } else if k == n {
      EntryIsTerm(n - 1, n - 1, p, q);
      EntryTermLast(n, p, q);
    } else {
      EntryIsTerm(n - 1, k - 1, p, q);
      EntryIsTerm(n - 1, k, p, q);
      EntryTermInner(n, k, p, q);
    }
  }

  // ---------------------------------------------------------------- the scenarios

  /** `activePlans.map(p => p.expectedR)`. */
  function ExpectedRs(plans: seq<Plan>): (rs: seq<real>)
    ensures |rs| == |plans| && forall i :: 0 <= i < |plans| ==> rs[i] == plans[i].expectedR
  {
    seq(|plans|, i requires 0 <= i < |plans| => plans[i].expectedR)
  }

  /** The scenario in which the first `wins` plans reach their expected R and every other
      plan loses 1R, weighted by its binomial probability in percent. */
  function ScenarioAt(plans: seq<Plan>, wins: nat, p: real): (s: Scenario)
    requires wins <= |plans|
    ensures s.wins == wins && s.wins + s.losses == |plans|
  {
    var losses := |plans| - wins;
    Scenario(wins, losses, BinomialProbability(|plans|, wins, p) * 100.0,
             Sum(ExpectedRs(plans[..wins])) + losses as real * -1.0)
  }

  /** `mostLikelyScenarios`: one scenario per number of wins, from 0 to n. */
  function Scenarios(plans: seq<Plan>, p: real): (ss: seq<Scenario>)
    ensures |ss| == |plans| + 1
    ensures forall w :: 0 <= w < |ss| ==> ss[w].wins == w && ss[w].losses == |plans| - w
  {
    seq(|plans| + 1, w requires 0 <= w <= |plans| => ScenarioAt(plans, w, p))
  }

  /** The loop that pushes the scenarios for wins = 0, 1, ..., n. */
  method BuildScenarios(activePlans: seq<Plan>, p: real) returns (scenarios: seq<Scenario>)
    ensures scenarios == Scenarios(activePlans, p)
  {
    var totalPlans := |activePlans|;
    scenarios := [];
    for wins := 0 to totalPlans + 1
      invariant |scenarios| == wins
      invariant forall w :: 0 <= w < wins ==> scenarios[w] == ScenarioAt(activePlans, w, p)
    {
      var losses := totalPlans - wins;
      var winR := Sum(ExpectedRs(activePlans[..wins]));
      var lossR := losses as real * -1.0;
      var totalR := winR + lossR;
      var probability := BinomialProbability(totalPlans, wins, p) * 100.0;
      scenarios := scenarios + [Scenario(wins, losses, probability, totalR)];
    }
  }

  function Probabilities(ss: seq<Scenario>): (ps: seq<real>)
    ensures |ps| == |ss| && forall i :: 0 <= i < |ss| ==> ps[i] == ss[i].probability
  {
    seq(|ss|, i requires 0 <= i < |ss| => ss[i].probability)
  }

  /** Percentages that are 100 times the entries of a row add up to 100 times its partial sums. */
  lemma {:induction false} PercentPartial(ps: seq<real>, n: nat, m: nat, p: real, q: real)
    requires m <= |ps|
    requires forall k {:trigger ps[k]} :: 0 <= k < |ps| ==> ps[k] == 100.0 * Entry(n, k, p, q)
    ensures Sum(ps[..m]) == 100.0 * Partial(n, m, p, q)
  {
    if m > 0 {
      PercentPartial(ps, n, m - 1, p, q);
      assert ps[..m][..m - 1] == ps[..m - 1];
    }
  }

  /** The probability of the scenario with k wins is 100 times entry k of row n. */
  lemma ProbabilityIsEntry(plans: seq<Plan>, p: real, k: nat)
    requires k <= |plans|
    ensures Probabilities(Scenarios(plans, p))[k] == 100.0 * Entry(|plans|, k, p, 1.0 - p)
  {
    EntryIsTerm(|plans|, k, p, 1.0 - p);
  }

  lemma PowOfOne(x: real, n: nat)
    requires x == 1.0
    ensures Pow(x, n) == 1.0
  {
    PowOne(n);
  }

  /** Summing 100 times the entries of row n gives 100 (p + q)^n with q = 1 - p, which is 100. */
  lemma PercentRowSum(ps: seq<real>, n: nat, p: real)
    requires |ps| == n + 1
    requires forall k {:trigger ps[k]} :: 0 <= k < |ps| ==> ps[k] == 100.0 * Entry(n, k, p, 1.0 - p)
    ensures Sum(ps) == 100.0
  {
    PercentPartial(ps, n, n + 1, p, 1.0 - p);
    BinomialTheorem(n, p, 1.0 - p);
    PowOfOne(p + (1.0 - p), n);
    assert ps[..n + 1] == ps;
  }

  /** For every win rate the scenario probabilities add up to 100 percent. */
  lemma ProbabilitiesSumTo100(plans: seq<Plan>, p: real)
    ensures Sum(Probabilities(Scenarios(plans, p))) == 100.0
  {
    var ps := Probabilities(Scenarios(plans, p));
    forall k | 0 <= k < |ps| ensures ps[k] == 100.0 * Entry(|plans|, k, p, 1.0 - p) {
      ProbabilityIsEntry(plans, p, k);
    }
    PercentRowSum(ps, |plans|, p);
  }

  // ---------------------------------------------------------------- ranking

  /** The sort key of `(a, b) => b.probability - a.probability`: most probable first. */
  function ByProbabilityDescending(): Scenario -> real
  {
    (s: Scenario) => -s.probability
  }

  /** `.sort(...).slice(0, 3)`: at most three scenarios, all taken from `ss`. */
  function TopScenarios(ss: seq<Scenario>): (r: seq<Scenario>)
    ensures |r| == (if |ss| < 3 then |ss| else 3)
    ensures forall s :: s in r ==> s in ss
  {
    var sorted := SortBy(ss, ByProbabilityDescending());
    var r := sorted[..if |sorted| < 3 then |sorted| else 3];
    assert forall s :: s in r ==> s in multiset(sorted);
    r
  }

  /** Sorting by the descending key leaves the probabilities non-increasing. */
  lemma DescendingProbabilities(sorted: seq<Scenario>)
    requires SortedBy(sorted, ByProbabilityDescending())
    ensures forall i, j :: 0 <= i < j < |sorted| ==> sorted[i].probability >= sorted[j].probability
  {
    var key := ByProbabilityDescending();
    forall i, j | 0 <= i < j < |sorted| ensures sorted[i].probability >= sorted[j].probability {
      assert key(sorted[i]) <= key(sorted[j]);
    }
  }

  /** A prefix of a list ordered by non-increasing probability, taken from a permutation of
      `ss`, holds scenarios of `ss`, and every scenario of `ss` outside it is at most as
      probable as its last element. */
  lemma RankedPrefix(sorted: seq<Scenario>, ss: seq<Scenario>, k: nat)
    requires multiset(sorted) == multiset(ss) && 1 <= k <= |sorted|
    requires forall i, j :: 0 <= i < j < |sorted| ==> sorted[i].probability >= sorted[j].probability
    ensures forall s :: s in sorted[..k] ==> s in ss
    ensures forall s :: s in ss && s !in sorted[..k] ==> s.probability <= sorted[k - 1].probability
  {
    forall s | s in sorted[..k] ensures s in ss {
      assert s in multiset(sorted);
    }
    forall s | s in ss && s !in sorted[..k] ensures s.probability <= sorted[k - 1].probability {
      assert s in multiset(sorted);
      var j :| 0 <= j < |sorted| && sorted[j] == s;
    }
  }

  /** The top list holds min(3, |ss|) scenarios, most probable first. */
  lemma TopScenariosRanked(ss: seq<Scenario>)
    ensures |TopScenarios(ss)| == (if |ss| < 3 then |ss| else 3)
    ensures forall i, j :: 0 <= i < j < |TopScenarios(ss)| ==>
      TopScenarios(ss)[i].probability >= TopScenarios(ss)[j].probability
  {
    DescendingProbabilities(SortBy(ss, ByProbabilityDescending()));
  }

  /** Every scenario in the top list comes from `ss`, and every scenario left out is at most
      as probable as the last one kept. */
  lemma TopScenariosMostLikely(ss: seq<Scenario>)
    requires ss != []
    ensures forall s :: s in TopScenarios(ss) ==> s in ss
    ensures forall s :: s in ss && s !in TopScenarios(ss) ==>
      s.probability <= TopScenarios(ss)[|TopScenarios(ss)| - 1].probability
  {
    var sorted := SortBy(ss, ByProbabilityDescending());
    DescendingProbabilities(sorted);
    RankedPrefix(sorted, ss, |TopScenarios(ss)|);
  }

  // ---------------------------------------------------------------- the widget

  /** `Math.round(totalPlans * (historicalWinrate / 100))`: the nearest whole number of
      wins, halves rounded up. */
  function PredictedWins(totalPlans: nat, historicalWinrate: real): (w: int)
    ensures w as real <= totalPlans as real * (historicalWinrate / 100.0) + 0.5 < w as real + 1.0
  {
    (totalPlans as real * (historicalWinrate / 100.0) + 0.5).Floor
  }

  /** With a win rate between 0 and 100 percent the predicted wins are within one half of
      n·p, so neither they nor the predicted losses are negative. */
  lemma PredictedWinsInRange(totalPlans: nat, historicalWinrate: real)
    requires 0.0 <= historicalWinrate <= 100.0
    ensures var wins := PredictedWins(totalPlans, historicalWinrate);
      var np := totalPlans as real * (historicalWinrate / 100.0);
      && np - 0.5 < wins as real <= np + 0.5
      && 0 <= wins <= totalPlans
      && 0 <= totalPlans - wins <= totalPlans
  {
    var n, p := totalPlans as real, historicalWinrate / 100.0;
    assert 0.0 <= n * p <= n by {
      assert n * p <= n * 1.0;
    }
    RoundedWithin(n * p, totalPlans, PredictedWins(totalPlans, historicalWinrate));
  }

  /** A whole number within half of a value in [0, total] lies in [0, total]. */
  lemma RoundedWithin(x: real, total: nat, w: int)
    requires 0.0 <= x <= total as real
    requires w as real <= x + 0.5 < w as real + 1.0
    ensures 0 <= w <= total
  {
  }

  /** `bestCaseR * p + worstCaseR * (1 - p)`: the worst case moved the share p of the way to
      the best case, so p = 0 gives the worst case and p = 1 the best. */
  function ExpectedValue(bestCaseR: real, worstCaseR: real, p: real): (e: real)
    ensures e == worstCaseR + p * (bestCaseR - worstCaseR)
    ensures p == 0.0 ==> e == worstCaseR
    ensures p == 1.0 ==> e == bestCaseR
  {
    bestCaseR * p + worstCaseR * (1.0 - p)
  }

  /** For a probability p the expected value lies between the worst and the best case. */
  lemma ExpectedBetweenCases(bestCaseR: real, worstCaseR: real, p: real)
    requires 0.0 <= p <= 1.0
    ensures var e := ExpectedValue(bestCaseR, worstCaseR, p);
      || worstCaseR <= e <= bestCaseR
      || bestCaseR <= e <= worstCaseR
  {
    var b, w := bestCaseR, worstCaseR;
    var x := p * (b - w);
    assert ExpectedValue(b, w, p) == w + x;
    ScaleBetween(p, b - w);
    assert (0.0 <= b - w ==> 0.0 <= x <= b - w) && (b - w <= 0.0 ==> b - w <= x <= 0.0);
  }

  /** p·d lies between 0 and d when 0 <= p <= 1. */
  lemma ScaleBetween(p: real, d: real)
    requires 0.0 <= p <= 1.0
    ensures 0.0 <= d ==> 0.0 <= p * d <= d
    ensures d <= 0.0 ==> d <= p * d <= 0.0
  {
    if 0.0 <= d {
      ProductNonNegative(p, d);
      ProductNonNegative(1.0 - p, d);
    } else {
      ProductNonNegative(p, -d);
      ProductNonNegative(1.0 - p, -d);
    }
  }

  lemma ProductNonNegative(x: real, y: real)
    requires 0.0 <= x && 0.0 <= y
    ensures 0.0 <= x * y
  {
  }

  /** The projection shown for the given active plans and historical win rate (percent). */
  function Project(activePlans: seq<Plan>, historicalWinrate: real): (r: Projection)
    ensures r.NoActivePlans? <==> activePlans == []
    ensures r.Projection? ==>
      && r.totalPlans == |activePlans|
      && r.totalPossibleWins + r.totalPossibleLosses == |activePlans|
      && r.worstCaseR == -(|activePlans| as real)
    ensures r.Projection? ==>
      var n := |activePlans|;
      var p := historicalWinrate / 100.0;
      && r.totalPossibleWins == PredictedWins(n, historicalWinrate)
      && r.bestCaseR == Sum(ExpectedRs(activePlans))
      && r.expectedR == ExpectedValue(r.bestCaseR, r.worstCaseR, p)
      && r.bestCaseProbability == Pow(p, n) * 100.0
      && r.worstCaseProbability == Pow(1.0 - p, n) * 100.0
      && r.scenarios == Scenarios(activePlans, p)
      && r.topScenarios == TopScenarios(r.scenarios)
  {
    if activePlans == [] then NoActivePlans
    else
      var n := |activePlans|;
      var p := historicalWinrate / 100.0;
      var wins := PredictedWins(n, historicalWinrate);
      var best := Sum(ExpectedRs(activePlans));
      var worst := -(n as real);
      var scenarios := Scenarios(activePlans, p);
      Projection(n, wins, n - wins, best, worst, ExpectedValue(best, worst, p),
                 Pow(p, n) * 100.0, Pow(1.0 - p, n) * 100.0,
                 scenarios, TopScenarios(scenarios))
  }

  /** With every plan winning the outcome is the sum of the expected R values, with
      probability p^n. */
  lemma AllWinsScenario(plans: seq<Plan>, p: real)
    ensures ScenarioAt(plans, |plans|, p).outcome == Sum(ExpectedRs(plans))
    ensures ScenarioAt(plans, |plans|, p).probability == Pow(p, |plans|) * 100.0
  {
    var n := |plans|;
    ChooseAll(n);
    assert plans[..n] == plans;
  }

  /** With every plan losing the outcome is −n R, with probability (1 − p)^n. */
  lemma AllLossesScenario(plans: seq<Plan>, p: real)
    ensures ScenarioAt(plans, 0, p).outcome == -(|plans| as real)
    ensures ScenarioAt(plans, 0, p).probability == Pow(1.0 - p, |plans|) * 100.0
  {
    assert plans[..0] == [];
  }

  /** There are n + 1 scenarios, scenario w having w wins and n − w losses; the all-wins
      scenario is the best case with the best-case probability, the all-losses scenario
      the worst case with the worst-case probability. */
  lemma ExtremeScenarios(activePlans: seq<Plan>, historicalWinrate: real)
    requires activePlans != []
    ensures var r := Project(activePlans, historicalWinrate);
      var n := |activePlans|;
      && |r.scenarios| == n + 1
      && (forall w :: 0 <= w <= n ==> r.scenarios[w].wins == w && r.scenarios[w].losses == n - w)
      && r.scenarios[n].outcome == r.bestCaseR
      && r.scenarios[n].probability == r.bestCaseProbability
      && r.scenarios[0].outcome == r.worstCaseR
      && r.scenarios[0].probability == r.worstCaseProbability
  {
    AllWinsScenario(activePlans, historicalWinrate / 100.0);
    AllLossesScenario(activePlans, historicalWinrate / 100.0);
  }
}
