/** Sequence operations that the explorer's LINQ and JavaScript pipelines are
    built from: an order-preserving filter (`Where`, `Array.filter`) and the
    stable sorts behind `OrderBy` and `Array.sort`. */
module Sequences {
  import opened Text

  // ---------------------------------------------------------------------------
  // Filtering
  // ---------------------------------------------------------------------------

  /** The elements of `s` that satisfy `p`, in their original order. */
  function Filter<T>(s: seq<T>, p: T -> bool): seq<T>
  {
    if s == [] then [] else (if p(s[0]) then [s[0]] else []) + Filter(s[1..], p)
  }

  /** `a` is `b` with some elements left out and the rest in their order. */
  predicate IsSubsequence<T(==)>(a: seq<T>, b: seq<T>)
    decreases |b|
  {
    if a == [] then true
    else if b == [] then false
    else if a[0] == b[0] then IsSubsequence(a[1..], b[1..])
    else IsSubsequence(a, b[1..])
  }

  /** Putting an element in front of the longer sequence keeps a subsequence. */
  lemma {:induction false} SubsequenceCons<T>(a: seq<T>, x: T, b: seq<T>)
    requires IsSubsequence(a, b)
    ensures IsSubsequence(a, [x] + b)
    decreases |b|, 1
  {
    assert ([x] + b)[1..] == b;
    if a != [] && a[0] == x {
      SubsequenceTail(a, b);
    }
  }

  /** Dropping the first element of a subsequence keeps it a subsequence. */
  lemma {:induction false} SubsequenceTail<T>(a: seq<T>, b: seq<T>)
    requires a != [] && IsSubsequence(a, b)
    ensures IsSubsequence(a[1..], b)
    decreases |b|, 0
  {
    if a[0] != b[0] {
      SubsequenceTail(a, b[1..]);
    }
    if a[1..] != [] {
      SubsequenceCons(a[1..], b[0], b[1..]);
      assert [b[0]] + b[1..] == b;
    }
  }

  /** The filter keeps exactly the elements that satisfy the predicate. */
  lemma {:induction false} FilterMembers<T>(s: seq<T>, p: T -> bool)
    ensures forall x :: x in Filter(s, p) ==> x in s && p(x)
    ensures forall x :: x in s && p(x) ==> x in Filter(s, p)
    ensures |Filter(s, p)| <= |s|
  {
    if s != [] {
      FilterMembers(s[1..], p);
      assert forall x :: x in s <==> x == s[0] || x in s[1..];
    }
  }

  /** The filter is an order-preserving selection of its input. */
  lemma {:induction false} FilterIsSubsequence<T>(s: seq<T>, p: T -> bool)
    ensures IsSubsequence(Filter(s, p), s)
  {
    if s != [] {
      FilterIsSubsequence(s[1..], p);
      if p(s[0]) {
        var r := Filter(s, p);
        assert r[0] == s[0] && r[1..] == Filter(s[1..], p);
      } else {
        assert Filter(s, p) == Filter(s[1..], p);
        SubsequenceCons(Filter(s[1..], p), s[0], s[1..]);
        assert [s[0]] + s[1..] == s;
      }
    }
  }

  /** A filter that keeps every element returns its input. */
  lemma {:induction false} FilterKeepsAll<T>(s: seq<T>, p: T -> bool)
    requires forall x :: x in s ==> p(x)
    ensures Filter(s, p) == s
  {
    if s != [] {
      assert forall x :: x in s[1..] ==> x in s;
      FilterKeepsAll(s[1..], p);
      assert [s[0]] + s[1..] == s;
    }
  }

  /** Filtering twice with the same predicate is filtering once. */
  lemma FilterIdempotent<T>(s: seq<T>, p: T -> bool)
    ensures Filter(Filter(s, p), p) == Filter(s, p)
  {
    FilterMembers(s, p);
    FilterKeepsAll(Filter(s, p), p);
  }

  /** Filtering by a predicate and by its complement splits the input:
      every element lands on exactly one side. */
  lemma {:induction false} FilterPartition<T>(s: seq<T>, p: T -> bool, q: T -> bool)
    requires forall x :: x in s ==> q(x) == !p(x)
    ensures multiset(Filter(s, p)) + multiset(Filter(s, q)) == multiset(s)
  {
    if s != [] {
      assert forall x :: x in s[1..] ==> x in s;
      FilterPartition(s[1..], p, q);
      MultisetHeadTail(s);
      FilterConsMultiset(s, p);
      FilterConsMultiset(s, q);
      assert q(s[0]) == !p(s[0]);
    }
  }

  lemma FilterConsMultiset<T>(s: seq<T>, p: T -> bool)
    requires s != []
    ensures multiset(Filter(s, p))
         == (if p(s[0]) then multiset{s[0]} else multiset{}) + multiset(Filter(s[1..], p))
  {
  }

  lemma MultisetHeadTail<T>(s: seq<T>)
    requires s != []
    ensures multiset(s) == multiset{s[0]} + multiset(s[1..])
  {
    assert s == [s[0]] + s[1..];
  }

  /** The filter keeps every copy of an element that satisfies the predicate
      and no copy of any other. */
  lemma {:induction false} FilterCount<T>(s: seq<T>, p: T -> bool, x: T)
    ensures multiset(Filter(s, p))[x] == if p(x) then multiset(s)[x] else 0
  {
    if s != [] {
      FilterCount(s[1..], p, x);
      FilterConsMultiset(s, p);
      MultisetHeadTail(s);
    }
  }

  lemma FilterCounts<T>(s: seq<T>, p: T -> bool)
    ensures forall x :: multiset(Filter(s, p))[x] == if p(x) then multiset(s)[x] else 0
  {
    forall x {
      FilterCount(s, p, x);
    }
  }

  lemma {:induction false} FilterAppend<T>(a: seq<T>, b: seq<T>, p: T -> bool)
    ensures Filter(a + b, p) == Filter(a, p) + Filter(b, p)
  {
    if a != [] {
      assert (a + b)[1..] == a[1..] + b;
      FilterAppend(a[1..], b, p);
    } else {
      assert a + b == b;
    }
  }

  // ---------------------------------------------------------------------------
  // Stable sort by a string key (lexicographic order of the keys)
  // ---------------------------------------------------------------------------

  /** Inserts `x` before the first element whose key is not below its own. */
  function InsertByText<T>(x: T, s: seq<T>, key: T -> string): seq<T>
  {
    if s == [] then [x]
    else if LexLess(key(s[0]), key(x)) then [s[0]] + InsertByText(x, s[1..], key)
    else [x] + s
  }

  /** Stable insertion sort by `key`: elements with equal keys keep their
      input order (LINQ `OrderBy`). */
  function SortByText<T>(s: seq<T>, key: T -> string): seq<T>
  {
    if s == [] then [] else InsertByText(s[0], SortByText(s[1..], key), key)
  }

  ghost predicate SortedByText<T>(s: seq<T>, key: T -> string) {
    forall i, j :: 0 <= i < j < |s| ==> !LexLess(key(s[j]), key(s[i]))
  }

  ghost predicate StrictlySortedByText<T>(s: seq<T>, key: T -> string) {
    forall i, j :: 0 <= i < j < |s| ==> LexLess(key(s[i]), key(s[j]))
  }

  lemma {:induction false} InsertByTextPermutes<T>(x: T, s: seq<T>, key: T -> string)
    ensures multiset(InsertByText(x, s, key)) == multiset(s) + multiset{x}
  {
    if s != [] && LexLess(key(s[0]), key(x)) {
      InsertByTextPermutes(x, s[1..], key);
      assert s == [s[0]] + s[1..];
    }
  }

  lemma {:induction false} InsertByTextSorted<T>(x: T, s: seq<T>, key: T -> string)
    requires SortedByText(s, key)
    ensures SortedByText(InsertByText(x, s, key), key)
  {
    if s != [] {
      if LexLess(key(s[0]), key(x)) {
        var t := InsertByText(x, s[1..], key);
        SortedTailText(s, key);
        InsertByTextSorted(x, s[1..], key);
        InsertByTextPermutes(x, s[1..], key);
        forall j | 0 <= j < |t|
          ensures !LexLess(key(t[j]), key(s[0]))
        {
          assert t[j] in multiset(s[1..]) + multiset{x};
          if t[j] == x {
            LexLessAsymmetric(key(s[0]), key(x));
          } else {
            var k :| 0 <= k < |s[1..]| && s[1..][k] == t[j];
            assert s[k + 1] == t[j];
          }
        }
        SortedConsText(s[0], t, key);
      } else {
        forall j | 0 <= j < |s|
          ensures !LexLess(key(s[j]), key(x))
        {
          if j > 0 && LexLess(key(s[j]), key(x)) {
            LexLessTotal(key(s[j]), key(s[0]));
            if key(s[j]) != key(s[0]) {
              LexLessTransitive(key(s[0]), key(s[j]), key(x));
            }
          }
        }
        SortedConsText(x, s, key);
      }
    }
  }

  lemma SortedTailText<T>(s: seq<T>, key: T -> string)
    requires s != [] && SortedByText(s, key)
    ensures SortedByText(s[1..], key)
  {
    forall i, j | 0 <= i < j < |s| - 1
      ensures !LexLess(key(s[1..][j]), key(s[1..][i]))
    {
      assert s[1..][i] == s[i + 1] && s[1..][j] == s[j + 1];
    }
  }

  /** An element no greater than every element of a sorted sequence can be
      put in front of it. */
  lemma SortedConsText<T>(h: T, t: seq<T>, key: T -> string)
    requires SortedByText(t, key)
    requires forall j :: 0 <= j < |t| ==> !LexLess(key(t[j]), key(h))
    ensures SortedByText([h] + t, key)
  {
    var r := [h] + t;
    forall i, j | 0 <= i < j < |r|
      ensures !LexLess(key(r[j]), key(r[i]))
    {
      assert r[j] == t[j - 1];
      if i > 0 {
        assert r[i] == t[i - 1];
      }
    }
  }

  lemma StrictConsText<T>(h: T, t: seq<T>, key: T -> string)
    requires StrictlySortedByText(t, key)
    requires forall j :: 0 <= j < |t| ==> LexLess(key(h), key(t[j]))
    ensures StrictlySortedByText([h] + t, key)
  {
    var r := [h] + t;
    forall i, j | 0 <= i < j < |r|
      ensures LexLess(key(r[i]), key(r[j]))
    {
      assert r[j] == t[j - 1];
      if i > 0 {
        assert r[i] == t[i - 1];
      }
    }
  }

  lemma StrictTailText<T>(s: seq<T>, key: T -> string)
    requires s != [] && StrictlySortedByText(s, key)
    ensures StrictlySortedByText(s[1..], key)
  {
    forall i, j | 0 <= i < j < |s| - 1
      ensures LexLess(key(s[1..][i]), key(s[1..][j]))
    {
      assert s[1..][i] == s[i + 1] && s[1..][j] == s[j + 1];
    }
  }

  lemma {:induction false} InsertByTextStrict<T>(x: T, s: seq<T>, key: T -> string)
    requires StrictlySortedByText(s, key)
    requires forall y :: y in s ==> key(y) != key(x)
    ensures StrictlySortedByText(InsertByText(x, s, key), key)
  {
    if s != [] {
      assert s[0] in s;
      if LexLess(key(s[0]), key(x)) {
        var t := InsertByText(x, s[1..], key);
        assert forall y :: y in s[1..] ==> y in s;
        StrictTailText(s, key);
        InsertByTextStrict(x, s[1..], key);
        InsertByTextPermutes(x, s[1..], key);
        forall j | 0 <= j < |t|
          ensures LexLess(key(s[0]), key(t[j]))
        {
          assert t[j] in multiset(s[1..]) + multiset{x};
          if t[j] != x {
            var k :| 0 <= k < |s[1..]| && s[1..][k] == t[j];
            assert s[k + 1] == t[j];
          }
        }
        StrictConsText(s[0], t, key);
      } else {
        LexLessTotal(key(s[0]), key(x));
        forall j | 0 <= j < |s|
          ensures LexLess(key(x), key(s[j]))
        {
          if j > 0 {
            LexLessTransitive(key(x), key(s[0]), key(s[j]));
          }
        }
        StrictConsText(x, s, key);
      }
    }
  }

  /** The sort returns a sorted permutation of its input. */
  lemma {:induction false} SortByTextCorrect<T>(s: seq<T>, key: T -> string)
    ensures SortedByText(SortByText(s, key), key)
    ensures multiset(SortByText(s, key)) == multiset(s)
    ensures |SortByText(s, key)| == |s|
  {
    if s != [] {
      SortByTextCorrect(s[1..], key);
      InsertByTextSorted(s[0], SortByText(s[1..], key), key);
      InsertByTextPermutes(s[0], SortByText(s[1..], key), key);
      assert s == [s[0]] + s[1..];
      assert |multiset(SortByText(s, key))| == |multiset(s)|;
    }
  }

  /** With pairwise distinct keys the sorted output is strictly increasing. */
  lemma {:induction false} SortByTextStrict<T>(s: seq<T>, key: T -> string)
    requires forall i, j :: 0 <= i < j < |s| ==> key(s[i]) != key(s[j])
    ensures StrictlySortedByText(SortByText(s, key), key)
  {
    if s != [] {
      SortByTextStrict(s[1..], key);
      SortByTextCorrect(s[1..], key);
      forall y | y in SortByText(s[1..], key)
        ensures key(y) != key(s[0])
      {
        assert y in multiset(s[1..]);
        var k :| 0 <= k < |s[1..]| && s[1..][k] == y;
        assert s[k + 1] == y;
      }
      InsertByTextStrict(s[0], SortByText(s[1..], key), key);
    }
  }

  // ---------------------------------------------------------------------------
  // Stable sort by an integer key
  // ---------------------------------------------------------------------------

  function InsertByNumber<T>(x: T, s: seq<T>, key: T -> int): seq<T>
  {
    if s == [] then [x]
    else if key(s[0]) < key(x) then [s[0]] + InsertByNumber(x, s[1..], key)
    else [x] + s
  }

  /** Stable insertion sort by an integer key; `Array.prototype.sort` with the
      comparator `key(a) - key(b)`. */
  function SortByNumber<T>(s: seq<T>, key: T -> int): seq<T>
  {
    if s == [] then [] else InsertByNumber(s[0], SortByNumber(s[1..], key), key)
  }

  ghost predicate SortedByNumber<T>(s: seq<T>, key: T -> int) {
    forall i, j :: 0 <= i < j < |s| ==> key(s[i]) <= key(s[j])
  }

  ghost predicate StrictlySortedByNumber<T>(s: seq<T>, key: T -> int) {
    forall i, j :: 0 <= i < j < |s| ==> key(s[i]) < key(s[j])
  }

  lemma {:induction false} InsertByNumberPermutes<T>(x: T, s: seq<T>, key: T -> int)
    ensures multiset(InsertByNumber(x, s, key)) == multiset(s) + multiset{x}
  {
    if s != [] && key(s[0]) < key(x) {
      InsertByNumberPermutes(x, s[1..], key);
      assert s == [s[0]] + s[1..];
    }
  }

  lemma {:induction false} InsertByNumberSorted<T>(x: T, s: seq<T>, key: T -> int)
    requires SortedByNumber(s, key)
    ensures SortedByNumber(InsertByNumber(x, s, key), key)
  {
    if s != [] && key(s[0]) < key(x) {
      InsertByNumberSorted(x, s[1..], key);
      InsertByNumberPermutes(x, s[1..], key);
      var r := InsertByNumber(x, s, key);
      forall j | 0 < j < |r|
        ensures key(r[0]) <= key(r[j])
      {
        assert r[j] in multiset(s[1..]) + multiset{x};
        if r[j] != x {
          var k :| 0 <= k < |s[1..]| && s[1..][k] == r[j];
          assert s[k + 1] == r[j];
        }
      }
    }
  }

  /** The integer sort returns a sorted permutation of its input. */
  lemma {:induction false} SortByNumberCorrect<T>(s: seq<T>, key: T -> int)
    ensures SortedByNumber(SortByNumber(s, key), key)
    ensures multiset(SortByNumber(s, key)) == multiset(s)
    ensures |SortByNumber(s, key)| == |s|
  {
    if s != [] {
      SortByNumberCorrect(s[1..], key);
      InsertByNumberSorted(s[0], SortByNumber(s[1..], key), key);
      InsertByNumberPermutes(s[0], SortByNumber(s[1..], key), key);
      assert s == [s[0]] + s[1..];
      assert |multiset(SortByNumber(s, key))| == |multiset(s)|;
    }
  }

  lemma StrictlySortedFirst<T>(s: seq<T>, key: T -> int, k: nat)
    requires StrictlySortedByNumber(s, key) && k < |s|
    ensures key(s[0]) <= key(s[k]) && (k > 0 ==> key(s[0]) < key(s[k]))
  {
  }

  lemma StrictlySortedTail<T>(s: seq<T>, key: T -> int)
    requires StrictlySortedByNumber(s, key) && s != []
    ensures StrictlySortedByNumber(s[1..], key)
  {
    forall i, j | 0 <= i < j < |s| - 1
      ensures key(s[1..][i]) < key(s[1..][j])
    {
      assert s[1..][i] == s[i + 1] && s[1..][j] == s[j + 1];
    }
  }

  /** Two strictly sorted arrangements of the same elements are the same. */
  lemma {:induction false} StrictlySortedUnique<T>(a: seq<T>, b: seq<T>, key: T -> int)
    requires StrictlySortedByNumber(a, key) && StrictlySortedByNumber(b, key)
    requires multiset(a) == multiset(b)
    ensures a == b
  {
    if a != [] {
      assert a[0] in multiset(b);
      assert b != [];
      assert b[0] in multiset(a);
      var i :| 0 <= i < |a| && a[i] == b[0];
      var j :| 0 <= j < |b| && b[j] == a[0];
      StrictlySortedFirst(b, key, j);
      StrictlySortedFirst(a, key, i);
      assert a[0] == b[0];
      MultisetHeadTail(a);
      MultisetHeadTail(b);
      assert multiset(a[1..]) == multiset(a) - multiset{a[0]};
      assert multiset(b[1..]) == multiset(b) - multiset{b[0]};
      StrictlySortedTail(a, key);
      StrictlySortedTail(b, key);
      StrictlySortedUnique(a[1..], b[1..], key);
      HeadTailEqual(a, b);
    } else {
      assert |multiset(b)| == 0;
    }
  }

  lemma HeadTailEqual<T>(a: seq<T>, b: seq<T>)
    requires a != [] && b != [] && a[0] == b[0] && a[1..] == b[1..]
    ensures a == b
  {
    assert a == [a[0]] + a[1..] && b == [b[0]] + b[1..];
  }

  function Reverse<T>(s: seq<T>): (r: seq<T>)
    ensures |r| == |s|
    ensures forall i :: 0 <= i < |s| ==> r[i] == s[|s| - 1 - i]
  {
    seq(|s|, i requires 0 <= i < |s| => s[|s| - 1 - i])
  }

  lemma ReverseMultiset<T>(s: seq<T>)
    ensures multiset(Reverse(s)) == multiset(s)
    decreases |s|
  {
    if s != [] {
      ReverseMultiset(s[1..]);
      assert Reverse(s) == Reverse(s[1..]) + [s[0]];
      assert s == [s[0]] + s[1..];
    }
  }
}
