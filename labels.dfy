/** Text operations on labels (setups, sessions, strategies, pairs, tags):
    the default string order of `Array.prototype.sort()`, the sorted
    distinct labels of `Array.from(new Set(xs)).sort()`, lower-casing,
    substring search and `String.prototype.trim`. Strings are sequences
    of Unicode scalar values and are compared by code point. */
module Labels {

  /** Lexicographic order: a proper prefix comes first, otherwise the first differing character decides. */
  predicate LexLess(a: string, b: string)
    ensures a < b ==> LexLess(a, b)
  {
    if b == [] then false
    else if a == [] then true
    else if a[0] != b[0] then a[0] < b[0]
    else LexLess(a[1..], b[1..])
  }

  lemma {:induction false} LexLessIrreflexive(a: string)
    ensures !LexLess(a, a)
  {
    if a != [] {
      LexLessIrreflexive(a[1..]);
    }
  }

  lemma {:induction false} LexLessTransitive(a: string, b: string, c: string)
    requires LexLess(a, b) && LexLess(b, c)
    ensures LexLess(a, c)
  {
    if a != [] && a[0] == b[0] && b[0] == c[0] {
      LexLessTransitive(a[1..], b[1..], c[1..]);
    }
  }

  /** Any two different strings are ordered one way or the other. */
  lemma {:induction false} LexLessTotal(a: string, b: string)
    requires a != b
    ensures LexLess(a, b) || LexLess(b, a)
  {
    if a != [] && b != [] && a[0] == b[0] {
      assert a == [a[0]] + a[1..] && b == [b[0]] + b[1..];
      LexLessTotal(a[1..], b[1..]);
    }
  }

  lemma {:induction false} LexLessAsymmetric(a: string, b: string)
    requires LexLess(a, b)
    ensures !LexLess(b, a)
  {
    if !(a == [] || a[0] != b[0]) {
      LexLessAsymmetric(a[1..], b[1..]);
    }
  }

  /** Strictly increasing: sorted and without duplicates. */
  predicate StrictlySorted(xs: seq<string>)
  {
    forall i, j :: 0 <= i < j < |xs| ==> LexLess(xs[i], xs[j])
  }

  lemma StrictlySortedTail(s: seq<string>)
    requires StrictlySorted(s) && s != []
    ensures StrictlySorted(s[1..])
  {
    forall i, j | 0 <= i < j < |s[1..]| ensures LexLess(s[1..][i], s[1..][j]) {
      assert s[1..][i] == s[i + 1] && s[1..][j] == s[j + 1];
    }
  }

  lemma StrictlySortedCons(x: string, s: seq<string>)
    requires StrictlySorted(s) && (s == [] || LexLess(x, s[0]))
    ensures StrictlySorted([x] + s)
  {
    var r := [x] + s;
    forall i, j | 0 <= i < j < |r| ensures LexLess(r[i], r[j]) {
      assert r[j] == s[j - 1];
      if i > 0 {
        assert r[i] == s[i - 1];
      } else if j > 1 {
        LexLessTransitive(x, s[0], s[j - 1]);
      }
    }
  }

  /** A strictly sorted sequence has no repeated label. */
  lemma StrictlySortedDistinct(s: seq<string>)
    requires StrictlySorted(s)
    ensures forall i, j :: 0 <= i < j < |s| ==> s[i] != s[j]
  {
    forall i, j | 0 <= i < j < |s| ensures s[i] != s[j] {
      if s[i] == s[j] {
        LexLessIrreflexive(s[i]);
      }
    }
  }

  /** Inserts `x` into a strictly sorted sequence unless it is already there. */
  function InsertDistinct(x: string, s: seq<string>): (r: seq<string>)
    requires StrictlySorted(s)
    ensures StrictlySorted(r)
    ensures forall y :: y in r <==> y in s || y == x
    ensures r != [] && (r[0] == x || (s != [] && r[0] == s[0]))
  {
    if s == [] then [x]
    else if x == s[0] then s
    else if LexLess(x, s[0]) then
      StrictlySortedCons(x, s);
      [x] + s
    else
      StrictlySortedTail(s);
      var rest := InsertDistinct(x, s[1..]);
      assert s == [s[0]] + s[1..];
      assert LexLess(s[0], rest[0]) by {
        if rest[0] == x {
          LexLessTotal(x, s[0]);
        }
      }
      StrictlySortedCons(s[0], rest);
      [s[0]] + rest
  }

  /** `Array.from(new Set(xs)).sort()`: the distinct labels of `xs` in ascending order. */
  function SortedDistinct(xs: seq<string>): (r: seq<string>)
    ensures StrictlySorted(r)
    ensures forall y :: y in r <==> y in xs
    ensures |r| <= |xs|
  {
    if xs == [] then []
    else
      var r := InsertDistinct(xs[|xs| - 1], SortedDistinct(xs[..|xs| - 1]));
      assert forall y :: y in xs <==> y in xs[..|xs| - 1] || y == xs[|xs| - 1] by {
        assert xs == xs[..|xs| - 1] + [xs[|xs| - 1]];
      }
      StrictlySortedDistinct(r);
      DistinctSubsetSize(r, xs);
      r
  }

  /** A duplicate-free sequence whose labels all occur in `xs` is no longer than `xs`. */
  lemma DistinctSubsetSize(r: seq<string>, xs: seq<string>)
    requires forall i, j :: 0 <= i < j < |r| ==> r[i] != r[j]
    requires forall y :: y in r ==> y in xs
    ensures |r| <= |xs|
  {
    var rs := set y | y in r;
    var xset := set y | y in xs;
    assert rs <= xset;
    DistinctCard(r);
    SeqSetCard(xs);
    assert |rs| <= |xset| by { SubsetCard(rs, xset); }
  }

  lemma {:induction false} DistinctCard(r: seq<string>)
    requires forall i, j :: 0 <= i < j < |r| ==> r[i] != r[j]
    ensures |set y | y in r| == |r|
  {
    if r != [] {
      DistinctTail(r);
      DistinctCard(r[1..]);
      SetOfCons(r);
    }
  }

  lemma DistinctTail(r: seq<string>)
    requires r != [] && forall i, j :: 0 <= i < j < |r| ==> r[i] != r[j]
    ensures forall i, j :: 0 <= i < j < |r[1..]| ==> r[1..][i] != r[1..][j]
    ensures r[0] !in r[1..]
  {
    var tail := r[1..];
    forall i, j | 0 <= i < j < |tail| ensures tail[i] != tail[j] {
      assert tail[i] == r[i + 1] && tail[j] == r[j + 1];
    }
    forall j | 0 <= j < |tail| ensures tail[j] != r[0] {
      assert tail[j] == r[j + 1];
    }
  }

  lemma SetOfCons(r: seq<string>)
    requires r != []
    ensures (set y | y in r) == (set y | y in r[1..]) + {r[0]}
  {
    assert r == [r[0]] + r[1..];
  }

  lemma {:induction false} SeqSetCard(xs: seq<string>)
    ensures |set y | y in xs| <= |xs|
  {
    if xs != [] {
      SeqSetCard(xs[1..]);
      SetOfCons(xs);
    }
  }

  lemma SubsetCard(a: set<string>, b: set<string>)
    requires a <= b
    ensures |a| <= |b|
  {
    assert b == a + (b - a);
  }

  /** Characters `String.prototype.trim` removes: white space and line terminators. */
  predicate IsTrimmed(c: char)
  {
    var u := c as int;
    (9 <= u <= 13) || u == 0x20 || u == 0xA0 || u == 0x1680 || (0x2000 <= u <= 0x200A)
    || u == 0x2028 || u == 0x2029 || u == 0x202F || u == 0x205F || u == 0x3000 || u == 0xFEFF
  }

  /** `trimStart`: the longest suffix that does not start with white space; everything dropped is white space. */
  function TrimStart(s: string): (r: string)
    ensures r == [] || !IsTrimmed(r[0])
    ensures |r| <= |s| && r == s[|s| - |r|..]
    ensures forall k :: 0 <= k < |s| - |r| ==> IsTrimmed(s[k])
  {
    if s != [] && IsTrimmed(s[0]) then
      var r := TrimStart(s[1..]);
      assert forall k :: 1 <= k < |s| - |r| ==> s[k] == s[1..][k - 1];
      r
    else s
  }

  /** `trimEnd`: the longest prefix that does not end with white space; everything dropped is white space. */
  function TrimEnd(s: string): (r: string)
    ensures r == [] || !IsTrimmed(r[|r| - 1])
    ensures |r| <= |s| && r == s[..|r|]
    ensures forall k :: |r| <= k < |s| ==> IsTrimmed(s[k])
  {
    if s != [] && IsTrimmed(s[|s| - 1]) then
      var r := TrimEnd(s[..|s| - 1]);
      assert forall k :: |r| <= k < |s| - 1 ==> s[k] == s[..|s| - 1][k];
      r
    else s
  }

  /** Every character of `s` before index `i` and from index `j` on is white space. */
  predicate BlankOutside(s: string, i: int, j: int)
  {
    && (forall k :: 0 <= k < i && k < |s| ==> IsTrimmed(s[k]))
    && (forall k :: 0 <= j <= k < |s| ==> IsTrimmed(s[k]))
  }

  /** `s.trim()`: the slice of `s` left once the white space at both ends is removed,
      so it neither starts nor ends with white space. */
  function Trim(s: string): (r: string)
    ensures r == [] || (!IsTrimmed(r[0]) && !IsTrimmed(r[|r| - 1]))
    ensures exists i, j :: 0 <= i <= j <= |s| && r == s[i..j] && BlankOutside(s, i, j)
  {
    var start := TrimStart(s);
    var r := TrimEnd(start);
    assert r != [] ==> r[0] == start[0];
    TrimIsSlice(s, start, r);
    r
  }

  /** A blank-free prefix of a blank-free suffix is a slice with only white space outside it. */
  lemma TrimIsSlice(s: string, start: string, r: string)
    requires |start| <= |s| && start == s[|s| - |start|..]
    requires forall k :: 0 <= k < |s| - |start| ==> IsTrimmed(s[k])
    requires |r| <= |start| && r == start[..|r|]
    requires forall k :: |r| <= k < |start| ==> IsTrimmed(start[k])
    ensures exists i, j :: 0 <= i <= j <= |s| && r == s[i..j] && BlankOutside(s, i, j)
  {
    var i := |s| - |start|;
    var j := i + |r|;
    assert r == s[i..j] by {
      assert start == s[i..];
      assert r == start[..|r|];
    }
    assert BlankOutside(s, i, j) by {
      forall k | j <= k < |s| ensures IsTrimmed(s[k]) {
        assert s[k] == start[k - i];
      }
    }
    assert 0 <= i <= j <= |s| && r == s[i..j] && BlankOutside(s, i, j);
  }

  /** Trimming an already trimmed label changes nothing. */
  lemma TrimIdempotent(s: string)
    ensures Trim(Trim(s)) == Trim(s)
  {
    var r := Trim(s);
    assert TrimStart(r) == r;
    assert TrimEnd(r) == r;
  }

  /** `s.trim()` is empty exactly when `s` is all white space. */
  lemma {:induction false} TrimEmptyIffBlank(s: string)
    ensures Trim(s) == [] <==> forall i :: 0 <= i < |s| ==> IsTrimmed(s[i])
  {
    TrimStartEmptyIffBlank(s);
    var start := TrimStart(s);
    if start != [] {
      assert TrimEnd(start) != [] by {
        assert !IsTrimmed(start[0]);
        TrimEndKeepsFirst(start);
      }
    }
  }

  lemma {:induction false} TrimStartEmptyIffBlank(s: string)
    ensures TrimStart(s) == [] <==> forall i :: 0 <= i < |s| ==> IsTrimmed(s[i])
  {
    if s != [] && IsTrimmed(s[0]) {
      TrimStartEmptyIffBlank(s[1..]);
      assert forall i :: 1 <= i < |s| ==> s[i] == s[1..][i - 1];
    }
  }

  lemma {:induction false} TrimEndKeepsFirst(s: string)
    requires s != [] && !IsTrimmed(s[0])
    ensures TrimEnd(s) != []
  {
    if IsTrimmed(s[|s| - 1]) {
      TrimEndKeepsFirst(s[..|s| - 1]);
    }
  }

  /** `toLowerCase` on the Latin and basic Cyrillic capitals the journal's labels use. */
  function LowerChar(c: char): (d: char)
    ensures !('A' <= d <= 'Z') && !(0x410 <= d as int <= 0x42F) && d as int != 0x401
    ensures d != c ==> 'A' <= c <= 'Z' || 0x401 <= c as int <= 0x42F
  {
    if 'A' <= c <= 'Z' then (c as int + 32) as char
    else if 0x410 <= c as int <= 0x42F then (c as int + 32) as char
    else if c as int == 0x401 then 0x451 as char
    else c
  }

  function Lower(s: string): (r: string)
    ensures |r| == |s| && forall i :: 0 <= i < |s| ==> r[i] == LowerChar(s[i])
  {
    seq(|s|, i requires 0 <= i < |s| => LowerChar(s[i]))
  }

  lemma LowerCharIdempotent(c: char)
    ensures LowerChar(LowerChar(c)) == LowerChar(c)
  {
  }

  /** `s.includes(sub)`: `sub` occurs in `s` at some position. */
  predicate Contains(s: string, sub: string)
    ensures Contains(s, sub) ==> |sub| <= |s|
    ensures |sub| == |s| ==> (Contains(s, sub) <==> sub == s)
    decreases |s|
  {
    sub <= s || (s != [] && Contains(s[1..], sub))
  }

  /** Every string contains the empty string, so an empty search matches everything. */
  lemma ContainsEmpty(s: string)
    ensures Contains(s, [])
  {
  }

  /** `sub` occurs in `s` starting at index `i`. */
  predicate OccursAt(s: string, sub: string, i: int)
  {
    0 <= i <= |s| - |sub| && s[i..i + |sub|] == sub
  }

  /** `Contains` agrees with the positional definition of an occurrence. */
  lemma {:induction false} ContainsIffOccurs(s: string, sub: string)
    ensures Contains(s, sub) <==> exists i :: OccursAt(s, sub, i)
    decreases |s|
  {
    if sub <= s {
      assert OccursAt(s, sub, 0);
    } else if s == [] {
      assert forall i :: !OccursAt(s, sub, i);
    } else {
      ContainsIffOccurs(s[1..], sub);
      if exists i :: OccursAt(s, sub, i) {
        var i :| OccursAt(s, sub, i);
        OccursInTail(s, sub, i);
      }
      if exists i :: OccursAt(s[1..], sub, i) {
        var i :| OccursAt(s[1..], sub, i);
        OccursAfterHead(s, sub, i);
      }
    }
  }

  /** An occurrence that is not a prefix is an occurrence in the tail. */
  lemma OccursInTail(s: string, sub: string, i: int)
    requires OccursAt(s, sub, i) && !(sub <= s)
    ensures s != [] && OccursAt(s[1..], sub, i - 1)
  {
    assert s[1..][i - 1..i - 1 + |sub|] == s[i..i + |sub|];
  }

  /** An occurrence in the tail is an occurrence one position further on. */
  lemma OccursAfterHead(s: string, sub: string, i: int)
    requires s != [] && OccursAt(s[1..], sub, i)
    ensures OccursAt(s, sub, i + 1)
  {
    assert s[1..][i..i + |sub|] == s[i + 1..i + 1 + |sub|];
  }
}
