/** The settings tab: the user's custom setups, sessions and strategies. Each
    list has an "add" driven by a text input and a "remove" per label, and
    all three follow the same rules, so one pair of list operations serves
    every kind. Each operation computes a new list and hands it to the
    settings update, which replaces that one list. */
module Settings {
  import opened Seqs
  import opened Labels

  datatype UserSettings = UserSettings(
    customSetups: seq<string>,
    customSessions: seq<string>,
    customStrategies: seq<string>)

  datatype LabelKind = Setups | Sessions | Strategies

  function ListOf(s: UserSettings, kind: LabelKind): seq<string>
  {
    match kind
    case Setups => s.customSetups
    case Sessions => s.customSessions
    case Strategies => s.customStrategies
  }

  /** The partial settings update `{ customX: list }`: that list replaced, the other two kept. */
  function WithList(s: UserSettings, kind: LabelKind, list: seq<string>): (r: UserSettings)
    ensures ListOf(r, kind) == list
    ensures forall k :: k != kind ==> ListOf(r, k) == ListOf(s, k)
  {
    match kind
    case Setups => s.(customSetups := list)
    case Sessions => s.(customSessions := list)
    case Strategies => s.(customStrategies := list)
  }

  /** The result of pressing "add": the new list and the new input text. */
  datatype Added = Added(list: seq<string>, input: string)

  /** Add the trimmed input at the end when it is non-empty and not already
      listed, and then clear the input; otherwise change nothing. */
  function AddCustom(list: seq<string>, input: string): (r: Added)
    ensures r.list != list <==> Trim(input) != "" && Trim(input) !in list
    ensures r.list != list ==> r.list == list + [Trim(input)] && r.input == ""
    ensures r.list == list ==> r.input == input
    ensures |list| <= |r.list| <= |list| + 1
    ensures NoDuplicates(list) ==> NoDuplicates(r.list)
  {
    var value := Trim(input);
    if value != "" && value !in list then
      AppendFreshKeepsNoDuplicatesIf(list, value);
      Added(list + [value], "")
    else Added(list, input)
  }

  lemma AppendFreshKeepsNoDuplicatesIf(list: seq<string>, value: string)
    requires value !in list
    ensures NoDuplicates(list) ==> NoDuplicates(list + [value])
  {
    if NoDuplicates(list) {
      AppendFreshKeepsNoDuplicates(list, value);
    }
  }

  lemma RemoveAllKeepsNoDuplicatesIf(list: seq<string>, value: string)
    ensures NoDuplicates(list) ==> NoDuplicates(RemoveAll(list, value))
  {
    if NoDuplicates(list) {
      RemoveAllKeepsNoDuplicates(list, value);
    }
  }

  /** Remove every occurrence of `value`, keeping the others in order. */
  function RemoveCustom(list: seq<string>, value: string): (r: seq<string>)
    ensures value !in r
    ensures forall y :: y != value ==> (y in r <==> y in list)
    ensures IsSubsequence(r, list)
    ensures NoDuplicates(list) ==> NoDuplicates(r)
    ensures forall y :: multiset(r)[y] == if y == value then 0 else multiset(list)[y]
  {
    var r := RemoveAll(list, value);
    RemoveAllMultiset(list, value);
    RemoveAllIsSubsequence(list, value);
    RemoveAllKeepsNoDuplicatesIf(list, value);
    assert forall y :: y in list && y != value ==> y in r by {
      forall y | y in list && y != value ensures y in r {
        var i :| 0 <= i < |list| && list[i] == y;
      }
    }
    r
  }

  /** "Add" on one list of the settings: only that list and that input change. */
  function AddToSettings(s: UserSettings, kind: LabelKind, input: string): (r: (UserSettings, string))
    ensures var a := AddCustom(ListOf(s, kind), input);
      ListOf(r.0, kind) == a.list && r.1 == a.input
    ensures forall k :: k != kind ==> ListOf(r.0, k) == ListOf(s, k)
  {
    var a := AddCustom(ListOf(s, kind), input);
    (WithList(s, kind, a.list), a.input)
  }

  /** "Remove" on one list of the settings: the other two lists are untouched. */
  function RemoveFromSettings(s: UserSettings, kind: LabelKind, value: string): (r: UserSettings)
    ensures ListOf(r, kind) == RemoveCustom(ListOf(s, kind), value)
    ensures forall k :: k != kind ==> ListOf(r, k) == ListOf(s, k)
  {
    WithList(s, kind, RemoveCustom(ListOf(s, kind), value))
  }

  /** Adding a fresh label and then removing it gives the original list back. */
  lemma AddThenRemoveRestores(list: seq<string>, input: string)
    requires Trim(input) != "" && Trim(input) !in list
    ensures RemoveCustom(AddCustom(list, input).list, Trim(input)) == list
  {
    RemoveAllAppendFresh(list, Trim(input));
  }

  /** Pressing "add" again with the same text changes nothing: the label is
      already listed, or the first press changed nothing either. */
  lemma AddIsIdempotent(list: seq<string>, input: string)
    ensures AddCustom(AddCustom(list, input).list, input).list == AddCustom(list, input).list
  {
    var a := AddCustom(list, input);
    if a.list != list {
      assert Trim(input) in a.list by {
        assert a.list[|list|] == Trim(input);
      }
    }
  }

  /** The same, for a whole settings record and any of its lists. */
  lemma SettingsAddThenRemoveRestores(s: UserSettings, kind: LabelKind, input: string)
    requires Trim(input) != "" && Trim(input) !in ListOf(s, kind)
    ensures RemoveFromSettings(AddToSettings(s, kind, input).0, kind, Trim(input)) == s
  {
    var after := AddToSettings(s, kind, input).0;
    AddThenRemoveRestores(ListOf(s, kind), input);
    var r := RemoveFromSettings(after, kind, Trim(input));
    assert ListOf(r, kind) == ListOf(s, kind);
    assert forall k :: ListOf(r, k) == ListOf(s, k);
    assert ListOf(r, Setups) == ListOf(s, Setups);
    assert ListOf(r, Sessions) == ListOf(s, Sessions);
    assert ListOf(r, Strategies) == ListOf(s, Strategies);
  }
}
