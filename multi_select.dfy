/** The multi-select used for psychology tags: clicking an option toggles it,
    and the badge's remove button drops it. Both compute the new selection
    from the current one. */
module MultiSelect {
  import opened Seqs

  /** Clicking an option: a selected value is removed everywhere it occurs,
      an unselected one is appended at the end. */
  function HandleSelect(selected: seq<string>, value: string): (r: seq<string>)
    ensures value in r <==> value !in selected
    ensures forall y :: y != value ==> (y in r <==> y in selected)
    ensures value !in selected ==> r == selected + [value]
    ensures value in selected ==> IsSubsequence(r, selected) && |r| < |selected|
  {
    if value in selected then
      var r := HandleRemove(selected, value);
      RemoveAllIsSubsequence(selected, value);
      RemovedIsShorter(selected, value);
      r
    else selected + [value]
  }

  /** The badge's remove button: every occurrence removed, the rest in order;
      nothing changes when the value is not selected. */
  function HandleRemove(selected: seq<string>, value: string): (r: seq<string>)
    ensures value !in r
    ensures forall y :: y != value ==> (y in r <==> y in selected)
    ensures value !in selected ==> r == selected
    ensures IsSubsequence(r, selected)
    ensures forall y :: multiset(r)[y] == if y == value then 0 else multiset(selected)[y]
  {
    var r := RemoveAll(selected, value);
    RemoveAllMultiset(selected, value);
    RemoveAllIsSubsequence(selected, value);
    assert forall y :: y in selected && y != value ==> y in r by {
      forall y | y in selected && y != value ensures y in r {
        var i :| 0 <= i < |selected| && selected[i] == y;
      }
    }
    r
  }

  lemma {:induction false} RemovedIsShorter(xs: seq<string>, x: string)
    requires x in xs
    ensures |RemoveAll(xs, x)| < |xs|
  {
    if xs[0] != x {
      RemovedIsShorter(xs[1..], x);
    } else {
      assert |RemoveAll(xs[1..], x)| <= |xs[1..]|;
    }
  }

  /** Clicking an unselected option twice gives the original selection back. */
  lemma SelectTwiceRestores(selected: seq<string>, value: string)
    requires value !in selected
    ensures HandleSelect(HandleSelect(selected, value), value) == selected
  {
    RemoveAllAppendFresh(selected, value);
  }

  /** Clicking a selected option twice moves it to the end of the selection. */
  lemma SelectTwiceMovesToEnd(selected: seq<string>, value: string)
    requires value in selected
    ensures HandleSelect(HandleSelect(selected, value), value) == HandleRemove(selected, value) + [value]
  {
  }

  /** Both operations keep a duplicate-free selection duplicate-free. */
  lemma SelectionStaysDuplicateFree(selected: seq<string>, value: string)
    requires NoDuplicates(selected)
    ensures NoDuplicates(HandleSelect(selected, value))
    ensures NoDuplicates(HandleRemove(selected, value))
  {
    RemoveAllKeepsNoDuplicates(selected, value);
    if value !in selected {
      AppendFreshKeepsNoDuplicates(selected, value);
    }
  }
}
