/** The source sorts with `Array.prototype.sort` and a numeric comparator
    (`(a, b) => a.executedAt - b.executedAt`, `(a, b) => a - b`,
    `(a, b) => b.probability - a.probability`). That sort is stable, so it is
    modelled by an insertion sort that places each element after every
    element whose key is not larger: the result is ordered by the key, is a
    permutation of the input, and keeps the input order among equal keys. */
module Sorting {

  /** Keys never decrease along the sequence. */
  predicate SortedBy<T>(xs: seq<T>, key: T -> real)
  {
    forall i, j :: 0 <= i < j < |xs| ==> key(xs[i]) <= key(xs[j])
  }

  /** The elements whose key is exactly `k`, in their original order. */
  function WithKey<T>(xs: seq<T>, key: T -> real, k: real): seq<T>
  {
    if xs == [] then []
    else (if key(xs[0]) == k then [xs[0]] else []) + WithKey(xs[1..], key, k)
  }

  /** Inserts `x` before the first element whose key exceeds `key(x)`: into an ordered `s`,
      after every element whose key is at most `key(x)`. */
  function Insert<T(==)>(x: T, s: seq<T>, key: T -> real): (r: seq<T>)
    ensures |r| == |s| + 1 && multiset(r) == multiset(s) + multiset{x}
    ensures r[0] == x || (s != [] && r[0] == s[0])
  {
    if s == [] then [x]
    else if key(x) < key(s[0]) then [x] + s
    else
      assert s == [s[0]] + s[1..];
      [s[0]] + Insert(x, s[1..], key)
  }

  /** Inserting into an ordered sequence keeps it ordered. */
  lemma {:induction false} InsertSorted<T>(x: T, s: seq<T>, key: T -> real)
    requires SortedBy(s, key)
    ensures SortedBy(Insert(x, s, key), key)
  {
    if s != [] && key(s[0]) <= key(x) {
      SortedTail(s, key);
      InsertSorted(x, s[1..], key);
      var rest := Insert(x, s[1..], key);
      assert key(s[0]) <= key(rest[0]) by {
        if |s| > 1 { assert s[1..][0] == s[1]; }
      }
      SortedCons(s[0], rest, key);
    } else if s != [] {
      SortedCons(x, s, key);
    }
  }

  lemma SortedTail<T>(s: seq<T>, key: T -> real)
    requires SortedBy(s, key) && s != []
    ensures SortedBy(s[1..], key)
  {
    forall i, j | 0 <= i < j < |s[1..]| ensures key(s[1..][i]) <= key(s[1..][j]) {
      assert s[1..][i] == s[i + 1] && s[1..][j] == s[j + 1];
    }
  }

  lemma SortedCons<T>(x: T, s: seq<T>, key: T -> real)
    requires SortedBy(s, key) && s != [] && key(x) <= key(s[0])
    ensures SortedBy([x] + s, key)
  {
    var r := [x] + s;
    forall i, j | 0 <= i < j < |r| ensures key(r[i]) <= key(r[j]) {
      assert r[j] == s[j - 1];
      if i > 0 { assert r[i] == s[i - 1]; }
      else { assert key(s[0]) <= key(s[j - 1]); }
    }
  }

  /** The stable sort: inserts the elements one by one, from the first to the last. */
  function SortBy<T(==)>(xs: seq<T>, key: T -> real): (r: seq<T>)
    ensures |r| == |xs| && multiset(r) == multiset(xs)
    ensures SortedBy(r, key)
  {
    if xs == [] then []
    else
      assert xs == xs[..|xs| - 1] + [xs[|xs| - 1]];
      InsertSorted(xs[|xs| - 1], SortBy(xs[..|xs| - 1], key), key);
      Insert(xs[|xs| - 1], SortBy(xs[..|xs| - 1], key), key)
  }

  lemma {:induction false} WithKeyAppend<T>(a: seq<T>, b: seq<T>, key: T -> real, k: real)
    ensures WithKey(a + b, key, k) == WithKey(a, key, k) + WithKey(b, key, k)
  {
    if a != [] {
      assert (a + b)[0] == a[0] && (a + b)[1..] == a[1..] + b;
      WithKeyAppend(a[1..], b, key, k);
    } else {
      assert a + b == b;
    }
  }

  /** In an ordered sequence whose first key exceeds `k`, no element has key `k`. */
  lemma {:induction false} WithKeyAboveIsEmpty<T>(s: seq<T>, key: T -> real, k: real)
    requires SortedBy(s, key) && s != [] && k < key(s[0])
    ensures WithKey(s, key, k) == []
  {
    if |s| > 1 {
      assert key(s[0]) <= key(s[1]);
      assert SortedBy(s[1..], key) by {
        forall i, j | 0 <= i < j < |s[1..]| ensures key(s[1..][i]) <= key(s[1..][j]) {
          assert s[1..][i] == s[i + 1] && s[1..][j] == s[j + 1];
        }
      }
      WithKeyAboveIsEmpty(s[1..], key, k);
    }
  }

  /** Inserting appends `x` to the run of its own key and leaves every other run alone. */
  lemma {:induction false} InsertWithKey<T>(x: T, s: seq<T>, key: T -> real, k: real)
    requires SortedBy(s, key)
    ensures WithKey(Insert(x, s, key), key, k) == WithKey(s, key, k) + WithKey([x], key, k)
  {
    if s == [] {
      WithKeyCons(x, [], key, k);
      assert [x] + [] == [x];
      assert Insert(x, s, key) == [x];
    } else if key(x) < key(s[0]) {
      InsertWithKeyFront(x, s, key, k);
    } else {
      SortedTail(s, key);
      InsertWithKey(x, s[1..], key, k);
      InsertWithKeyStep(x, s, key, k);
    }
  }

  lemma InsertWithKeyFront<T>(x: T, s: seq<T>, key: T -> real, k: real)
    requires SortedBy(s, key) && s != [] && key(x) < key(s[0])
    ensures WithKey(Insert(x, s, key), key, k) == WithKey(s, key, k) + WithKey([x], key, k)
  {
    WithKeyCons(x, [], key, k);
    assert [x] + [] == [x];
    InsertBeforeHead(x, s, key);
    WithKeyCons(x, s, key, k);
    if key(x) == k {
      WithKeyAboveIsEmpty(s, key, k);
    } else {
      assert [] + WithKey(s, key, k) == WithKey(s, key, k) + [];
    }
  }

  lemma InsertWithKeyStep<T>(x: T, s: seq<T>, key: T -> real, k: real)
    requires s != [] && key(s[0]) <= key(x)
    requires WithKey(Insert(x, s[1..], key), key, k) == WithKey(s[1..], key, k) + WithKey([x], key, k)
    ensures WithKey(Insert(x, s, key), key, k) == WithKey(s, key, k) + WithKey([x], key, k)
  {
    InsertAfterHead(x, s, key);
    WithKeyCons(s[0], Insert(x, s[1..], key), key, k);
    WithKeyCons(s[0], s[1..], key, k);
    ConsSplit(s);
    var h, a, b := (if key(s[0]) == k then [s[0]] else []), WithKey(s[1..], key, k), WithKey([x], key, k);
    ConcatAssoc(h, a, b);
  }

  lemma ConcatAssoc<T>(h: seq<T>, a: seq<T>, b: seq<T>)
    ensures h + (a + b) == (h + a) + b
  {
  }

  lemma InsertBeforeHead<T>(x: T, s: seq<T>, key: T -> real)
    requires s != [] && key(x) < key(s[0])
    ensures Insert(x, s, key) == [x] + s
  {
  }

  lemma InsertAfterHead<T>(x: T, s: seq<T>, key: T -> real)
    requires s != [] && key(s[0]) <= key(x)
    ensures Insert(x, s, key) == [s[0]] + Insert(x, s[1..], key)
  {
  }

  lemma WithKeyCons<T>(x: T, s: seq<T>, key: T -> real, k: real)
    ensures WithKey([x] + s, key, k) == (if key(x) == k then [x] else []) + WithKey(s, key, k)
  {
    assert ([x] + s)[0] == x && ([x] + s)[1..] == s;
  }

  /** The first element of the sorted sequence is an element with the smallest key. */
  lemma SortByFirstIsMin<T>(xs: seq<T>, key: T -> real)
    requires xs != []
    ensures SortBy(xs, key) != [] && SortBy(xs, key)[0] in xs
    ensures forall x :: x in xs ==> key(SortBy(xs, key)[0]) <= key(x)
  {
    var sorted := SortBy(xs, key);
    assert sorted[0] in multiset(xs);
    forall x | x in xs ensures key(sorted[0]) <= key(x) {
      assert x in multiset(sorted);
      var j :| 0 <= j < |sorted| && sorted[j] == x;
    }
  }

  /** The first element with key `k` comes no later than any element with that key. */
  lemma {:induction false} WithKeyFirst<T>(xs: seq<T>, key: T -> real, k: real, j: nat)
    requires j < |xs| && key(xs[j]) == k
    ensures WithKey(xs, key, k) != []
    ensures exists m :: 0 <= m <= j && WithKey(xs, key, k)[0] == xs[m]
  {
    if key(xs[0]) != k {
      WithKeyFirst(xs[1..], key, k, j - 1);
      var m :| 0 <= m <= j - 1 && WithKey(xs[1..], key, k)[0] == xs[1..][m];
      assert WithKey(xs, key, k)[0] == xs[m + 1];
    }
  }

  /** Stability: for every key, the elements with that key keep their input order. */
  lemma {:induction false} SortByIsStable<T>(xs: seq<T>, key: T -> real, k: real)
    ensures WithKey(SortBy(xs, key), key, k) == WithKey(xs, key, k)
  {
    if xs != [] {
      var init, last := xs[..|xs| - 1], xs[|xs| - 1];
      SortByIsStable(init, key, k);
      InsertWithKey(last, SortBy(init, key), key, k);
      SortBySnoc(xs, key);
      SnocSplit(xs);
      WithKeyAppend(init, [last], key, k);
    }
  }

  /** Stability at the front: the first element of the sorted sequence comes no later than
      any element with the same key. */
  lemma SortByFirstAmongTies<T>(xs: seq<T>, key: T -> real, j: nat) returns (m: nat)
    requires j < |xs| && key(xs[j]) == key(SortBy(xs, key)[0])
    ensures m <= j && SortBy(xs, key)[0] == xs[m]
  {
    var sorted := SortBy(xs, key);
    var k := key(sorted[0]);
    assert WithKey(sorted, key, k)[0] == sorted[0];
    SortByIsStable(xs, key, k);
    WithKeyFirst(xs, key, k, j);
    m :| m <= j && WithKey(xs, key, k)[0] == xs[m];
  }

  lemma SnocSplit<T>(xs: seq<T>)
    requires xs != []
    ensures xs == xs[..|xs| - 1] + [xs[|xs| - 1]]
  {
  }

  lemma SortBySnoc<T>(xs: seq<T>, key: T -> real)
    requires xs != []
    ensures SortBy(xs, key) == Insert(xs[|xs| - 1], SortBy(xs[..|xs| - 1], key), key)
  {
  }

  /** Sorting an already ordered sequence changes nothing. */
  lemma {:induction false} SortBySorted<T>(xs: seq<T>, key: T -> real)
    requires SortedBy(xs, key)
    ensures SortBy(xs, key) == xs
  {
    if xs != [] {
      var init, last := xs[..|xs| - 1], xs[|xs| - 1];
      assert xs == init + [last];
      SortedSnoc(init, last, key);
      SortBySorted(init, key);
      InsertAtEnd(last, init, key);
      SortBySnoc(xs, key);
    }
  }

  /** Without its last element an ordered sequence stays ordered, and that element has the
      largest key. */
  lemma SortedSnoc<T>(s: seq<T>, x: T, key: T -> real)
    requires SortedBy(s + [x], key)
    ensures SortedBy(s, key)
    ensures forall i :: 0 <= i < |s| ==> key(s[i]) <= key(x)
  {
    var xs := s + [x];
    forall i, j | 0 <= i < j < |s| ensures key(s[i]) <= key(s[j]) {
      assert s[i] == xs[i] && s[j] == xs[j];
    }
    forall i | 0 <= i < |s| ensures key(s[i]) <= key(x) {
      assert s[i] == xs[i] && x == xs[|s|];
    }
  }

  /** Inserting an element whose key is not below any key appends it. */
  lemma {:induction false} InsertAtEnd<T>(x: T, s: seq<T>, key: T -> real)
    requires forall i :: 0 <= i < |s| ==> key(s[i]) <= key(x)
    ensures Insert(x, s, key) == s + [x]
  {
    if s != [] {
      TailBelow(x, s, key);
      InsertAtEnd(x, s[1..], key);
      InsertAfterHead(x, s, key);
      ConcatAssoc([s[0]], s[1..], [x]);
      ConsSplit(s);
    }
  }

  lemma TailBelow<T>(x: T, s: seq<T>, key: T -> real)
    requires s != [] && forall i :: 0 <= i < |s| ==> key(s[i]) <= key(x)
    ensures key(s[0]) <= key(x)
    ensures forall i :: 0 <= i < |s[1..]| ==> key(s[1..][i]) <= key(x)
  {
    forall i | 0 <= i < |s[1..]| ensures key(s[1..][i]) <= key(x) {
      assert s[1..][i] == s[i + 1];
    }
  }

  lemma ConsSplit<T>(xs: seq<T>)
    requires xs != []
    ensures xs == [xs[0]] + xs[1..]
  {
  }
}
