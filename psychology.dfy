/** Psychology tags of executed trades as both psychology heatmaps read them:
    every tag other than "Perfect Execution" is an error, a trade with at least
    one such tag is an error trade, and errors are tallied per tag. */
module Psychology {
  import opened Seqs
  import opened Journal
  import opened CrossTab

  /** `tags.some(tag => tag !== 'Perfect Execution')`. */
  function HasErrorTag(tags: seq<string>): (b: bool)
    ensures b <==> exists i :: 0 <= i < |tags| && tags[i] != PerfectExecution
  {
    if tags == [] then false
    else if tags[0] != PerfectExecution then true
    else
      assert forall i :: 1 <= i < |tags| ==> tags[i] == tags[1..][i - 1];
      HasErrorTag(tags[1..])
  }

  predicate IsErrorTrade(t: Trade)
  {
    HasErrorTag(t.psychologyTags)
  }

  /** The error tags of one trade, in order. */
  function ErrorTags(tags: seq<string>): (r: seq<string>)
    ensures PerfectExecution !in r
    ensures r == [] <==> !HasErrorTag(tags)
  {
    if tags == [] then []
    else
      var init, last := tags[..|tags| - 1], tags[|tags| - 1];
      assert forall i :: 0 <= i < |tags| - 1 ==> tags[i] == init[i];
      ErrorTags(init) + (if last != PerfectExecution then [last] else [])
  }

  /** The error tags are the tags of the trade other than "Perfect Execution". */
  lemma {:induction false} ErrorTagsMembers(tags: seq<string>, x: string)
    requires x != PerfectExecution
    ensures x in ErrorTags(tags) <==> x in tags
  {
    if tags != [] {
      var init, last := tags[..|tags| - 1], tags[|tags| - 1];
      ErrorTagsMembers(init, x);
      assert tags == init + [last];
    }
  }

  lemma ErrorTagsAppend(tags: seq<string>, j: nat)
    requires j < |tags|
    ensures ErrorTags(tags[..j + 1]) == ErrorTags(tags[..j]) + (if tags[j] != PerfectExecution then [tags[j]] else [])
  {
    assert tags[..j + 1][..j] == tags[..j];
  }

  /** The error trades, in order. */
  function ErrorTradesOf(ts: seq<Trade>): (r: seq<Trade>)
    ensures |r| <= |ts|
  {
    if ts == [] then []
    else ErrorTradesOf(ts[..|ts| - 1]) + (if IsErrorTrade(ts[|ts| - 1]) then [ts[|ts| - 1]] else [])
  }

  /** The error trades are exactly the trades with an error tag. */
  lemma {:induction false} ErrorTradesMembers(ts: seq<Trade>, t: Trade)
    ensures t in ErrorTradesOf(ts) <==> t in ts && IsErrorTrade(t)
  {
    if ts != [] {
      var init, last := ts[..|ts| - 1], ts[|ts| - 1];
      ErrorTradesMembers(init, t);
      assert ts == init + [last];
    }
  }

  lemma ErrorTradesAppend(ts: seq<Trade>, t: Trade)
    ensures ErrorTradesOf(ts + [t]) == ErrorTradesOf(ts) + (if IsErrorTrade(t) then [t] else [])
  {
    assert (ts + [t])[..|ts|] == ts;
  }

  /** Every error tag of every trade, trade by trade. */
  function AllErrorTags(ts: seq<Trade>): (r: seq<string>)
    ensures PerfectExecution !in r
  {
    if ts == [] then [] else AllErrorTags(ts[..|ts| - 1]) + ErrorTags(ts[|ts| - 1].psychologyTags)
  }

  lemma AllErrorTagsAppend(ts: seq<Trade>, t: Trade)
    ensures AllErrorTags(ts + [t]) == AllErrorTags(ts) + ErrorTags(t.psychologyTags)
  {
    assert (ts + [t])[..|ts|] == ts;
  }

  /** Trades without an error tag contribute no tags: the error trades carry them all. */
  lemma {:induction false} ErrorTradesCarryAllTags(ts: seq<Trade>)
    ensures AllErrorTags(ErrorTradesOf(ts)) == AllErrorTags(ts)
  {
    if ts != [] {
      var init, last := ts[..|ts| - 1], ts[|ts| - 1];
      ErrorTradesCarryAllTags(init);
      if IsErrorTrade(last) {
        AllErrorTagsAppend(ErrorTradesOf(init), last);
      } else {
        assert ErrorTradesOf(ts) == ErrorTradesOf(init);
        assert AllErrorTags(init) + [] == AllErrorTags(init);
      }
    }
  }

  /** There are error tags exactly when there are error trades. */
  lemma {:induction false} NoTagsIffNoErrorTrades(ts: seq<Trade>)
    ensures AllErrorTags(ts) == [] <==> ErrorTradesOf(ts) == []
  {
    if ts != [] {
      var init, last := ts[..|ts| - 1], ts[|ts| - 1];
      NoTagsIffNoErrorTrades(init);
    }
  }

  /** When every trade is an error trade, the error trades are all the trades. */
  lemma {:induction false} ErrorTradesFull(ts: seq<Trade>)
    requires |ErrorTradesOf(ts)| == |ts|
    ensures ErrorTradesOf(ts) == ts
  {
    if ts != [] {
      var init, last := ts[..|ts| - 1], ts[|ts| - 1];
      assert IsErrorTrade(last);
      ErrorTradesFull(init);
      assert ts == init + [last];
    }
  }

  /** A tag other than "Perfect Execution" is among the error tags exactly when some trade
      carries it. */
  lemma {:induction false} TagInAllErrorTags(ts: seq<Trade>, tag: string)
    requires tag != PerfectExecution
    ensures tag in AllErrorTags(ts) <==> exists i :: 0 <= i < |ts| && tag in ts[i].psychologyTags
  {
    if ts != [] {
      var init, last := ts[..|ts| - 1], ts[|ts| - 1];
      TagInAllErrorTags(init, tag);
      assert forall i :: 0 <= i < |init| ==> init[i] == ts[i];
      ErrorTagsMembers(last.psychologyTags, tag);
      if exists i :: 0 <= i < |ts| && tag in ts[i].psychologyTags {
        var i :| 0 <= i < |ts| && tag in ts[i].psychologyTags;
        if i < |init| {
          assert tag in init[i].psychologyTags;
        }
      }
    }
  }

  /** The count of every tag of `xs`: `counts[tag] = (counts[tag] || 0) + 1` tag by tag. */
  function Tally(xs: seq<string>): (counts: map<string, nat>)
    ensures forall y :: y in counts <==> y in xs
  {
    if xs == [] then map[]
    else
      var init, last := xs[..|xs| - 1], xs[|xs| - 1];
      assert xs == init + [last];
      var m := Tally(init);
      m[last := (if last in m then m[last] else 0) + 1]
  }

  lemma TallyAppend(xs: seq<string>, x: string)
    ensures Tally(xs + [x]) == Tally(xs)[x := (if x in Tally(xs) then Tally(xs)[x] else 0) + 1]
  {
    assert (xs + [x])[..|xs|] == xs;
  }

  /** The tally has a key for every value of `xs` and no other, and its entry is the number of
      occurrences, never 0. */
  lemma {:induction false} TallyCounts(xs: seq<string>, y: string)
    ensures y in Tally(xs) <==> y in xs
    ensures y in Tally(xs) ==> Tally(xs)[y] == Occurrences(y, xs) > 0
  {
    if xs != [] {
      var init, last := xs[..|xs| - 1], xs[|xs| - 1];
      TallyCounts(init, y);
      assert xs == init + [last];
      if y == last && last !in init {
        OccurrencesAbsent(last, init);
      }
    }
  }

  /** Only an empty sequence has an empty tally. */
  lemma TallyEmptyIff(xs: seq<string>)
    ensures Tally(xs) == map[] <==> xs == []
  {
    if xs != [] {
      TallyCounts(xs, xs[0]);
    }
  }

  lemma {:induction false} OccurrencesAbsent(y: string, xs: seq<string>)
    requires y !in xs
    ensures Occurrences(y, xs) == 0
  {
    if xs != [] {
      OccurrencesAbsent(y, xs[..|xs| - 1]);
    }
  }

  /** The tally never has "Perfect Execution" as a key. */
  lemma SentinelNeverTallied(ts: seq<Trade>)
    ensures PerfectExecution !in Tally(AllErrorTags(ts))
  {
    TallyCounts(AllErrorTags(ts), PerfectExecution);
  }

  /** The percentage `errors / total * 100`, between 0 and 100 when `errors <= total`. */
  lemma RateBounds(errors: nat, total: nat)
    requires 0 < total
    ensures errors <= total ==> 0.0 <= errors as real / total as real * 100.0 <= 100.0
    ensures errors == 0 ==> errors as real / total as real * 100.0 == 0.0
    ensures errors == total ==> errors as real / total as real * 100.0 == 100.0
  {
    if errors == total {
      assert errors as real / total as real == 1.0;
    } else {
      var q := errors as real / total as real;
      assert q * total as real == errors as real;
    }
  }

  /** The percentage times the total gives back the count times 100. */
  lemma RateTimesTotal(errors: nat, total: nat)
    requires 0 < total
    ensures errors as real / total as real * 100.0 * total as real == errors as real * 100.0
  {
    var q := errors as real / total as real;
    assert q * total as real == errors as real;
    assert q * 100.0 * total as real == q * total as real * 100.0;
  }
}
