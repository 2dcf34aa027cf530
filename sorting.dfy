/** Ordering used by the list queries: an index scanned in ascending key order
    (documents with equal keys in insertion order), optionally reversed by
    `.order("desc")`, and `Array.prototype.sort`, which is stable. Both are a
    stable insertion sort under the comparison `le`. */
module Sorting {
  import opened Common

  /** Puts `x` after every element of `s` that is `le` it, scanning from the end. */
  function InsertBy<T>(x: T, s: seq<T>, le: (T, T) -> bool): (r: seq<T>)
    ensures |r| == |s| + 1
    ensures multiset(r) == multiset(s) + multiset{x}
    ensures r[|r| - 1] == x || (s != [] && r[|r| - 1] == s[|s| - 1])
  {
    if s == [] || le(s[|s| - 1], x) then s + [x]
    else
      var s' := s[..|s| - 1];
      assert s == s' + [s[|s| - 1]];
      InsertBy(x, s', le) + [s[|s| - 1]]
  }

  /** A stable sort: each element goes after the earlier ones it is not below. */
  function SortBy<T>(s: seq<T>, le: (T, T) -> bool): (r: seq<T>)
    ensures |r| == |s|
    ensures multiset(r) == multiset(s)
  {
    if s == [] then []
    else
      var s' := s[..|s| - 1];
      assert s == s' + [s[|s| - 1]];
      InsertBy(s[|s| - 1], SortBy(s', le), le)
  }

  ghost predicate AdjacentSorted<T>(s: seq<T>, le: (T, T) -> bool) {
    forall k :: 0 < k < |s| ==> le(s[k - 1], s[k])
  }

  /** `le` compares any two values one way or the other. */
  ghost predicate Total<T(!new)>(le: (T, T) -> bool) {
    forall a: T, b: T :: le(a, b) || le(b, a)
  }

  lemma {:induction false} InsertBySorted<T(!new)>(x: T, s: seq<T>, le: (T, T) -> bool)
    requires AdjacentSorted(s, le) && Total(le)
    ensures AdjacentSorted(InsertBy(x, s, le), le)
    decreases |s|
  {
    if s != [] && !le(s[|s| - 1], x) {
      var s' := s[..|s| - 1];
      var last := s[|s| - 1];
      InsertBySorted(x, s', le);
      var r' := InsertBy(x, s', le);
      assert InsertBy(x, s, le) == r' + [last];
      assert le(x, last);
      assert |s'| > 0 && r'[|r'| - 1] != x ==> le(s'[|s'| - 1], last);
    }
  }

  /** Sorting with a total comparison yields an ordered sequence. */
  lemma {:induction false} SortBySorted<T(!new)>(s: seq<T>, le: (T, T) -> bool)
    requires Total(le)
    ensures AdjacentSorted(SortBy(s, le), le)
  {
    if s != [] {
      SortBySorted(s[..|s| - 1], le);
      InsertBySorted(s[|s| - 1], SortBy(s[..|s| - 1], le), le);
    }
  }

  lemma FilterSingle<T>(y: T, p: T -> bool)
    ensures Filter([y], p) == if p(y) then [y] else []
  {
    assert [y][..0] == [];
  }

  /** Inserting below the last element: the last element stays last. */
  lemma InsertByPasses<T>(x: T, s: seq<T>, le: (T, T) -> bool)
    requires s != [] && !le(s[|s| - 1], x)
    ensures InsertBy(x, s, le) == InsertBy(x, s[..|s| - 1], le) + [s[|s| - 1]]
  {
  }

  lemma SwapEmpty<T>(a: seq<T>, b: seq<T>, c: seq<T>)
    requires b == [] || c == []
    ensures (a + b) + c == (a + c) + b
  {
  }

  /** Inserting `x` after every element of its class keeps the class in order:
      elements outside the class are passed over, those inside stay before `x`. */
  lemma {:induction false} InsertByStable<T>(x: T, s: seq<T>, le: (T, T) -> bool, p: T -> bool)
    requires p(x) ==> forall k :: 0 <= k < |s| && p(s[k]) ==> le(s[k], x)
    ensures Filter(InsertBy(x, s, le), p) == Filter(s, p) + Filter([x], p)
    decreases |s|
  {
    if s == [] || le(s[|s| - 1], x) {
      FilterAppend(s, [x], p);
    } else {
      var s', last := s[..|s| - 1], s[|s| - 1];
      InsertByPasses(x, s, le);
      InsertByStable(x, s', le, p);
      FilterAppend(InsertBy(x, s', le), [last], p);
      assert s' + [last] == s;
      FilterAppend(s', [last], p);
      FilterSingle(last, p);
      FilterSingle(x, p);
      SwapEmpty(Filter(s', p), Filter([x], p), Filter([last], p));
    }
  }

  /** The sort is stable: within any class of mutually `le` elements, the
      sorted sequence keeps the input order. */
  lemma {:induction false} SortByStable<T>(s: seq<T>, le: (T, T) -> bool, p: T -> bool)
    requires forall a, b :: p(a) && p(b) ==> le(a, b)
    ensures Filter(SortBy(s, le), p) == Filter(s, p)
  {
    if s != [] {
      var s', last := s[..|s| - 1], s[|s| - 1];
      var sorted := SortBy(s', le);
      assert SortBy(s, le) == InsertBy(last, sorted, le);
      SortByStable(s', le, p);
      InsertByStable(last, sorted, le, p);
      assert s' + [last] == s;
      FilterAppend(s', [last], p);
    }
  }

  /** Ascending order by an integer key. */
  function KeyLe<T>(key: T -> int): (T, T) -> bool {
    (a: T, b: T) => key(a) <= key(b)
  }

  /** `.withIndex(byKey)`: ascending key, ties in insertion order. */
  function Ascending<T(!new)>(s: seq<T>, key: T -> int): (r: seq<T>)
    ensures |r| == |s|
    ensures multiset(r) == multiset(s)
    ensures forall a, b :: 0 <= a < b < |r| ==> key(r[a]) <= key(r[b])
  {
    var up := SortBy(s, KeyLe(key));
    assert Total(KeyLe(key));
    SortBySorted(s, KeyLe(key));
    AscendingAllPairs(up, key);
    up
  }

  /** `.withIndex(byKey).order("desc")`: descending key, ties newest first. */
  function Descending<T(!new)>(s: seq<T>, key: T -> int): (r: seq<T>)
    ensures |r| == |s|
    ensures multiset(r) == multiset(s)
    ensures forall a, b :: 0 <= a < b < |r| ==> key(r[b]) <= key(r[a])
  {
    var up := Ascending(s, key);
    var r := Reverse(up);
    assert multiset(r) == multiset(up) by { ReverseMultiset(up); }
    r
  }

  lemma {:induction false} AscendingAllPairs<T>(s: seq<T>, key: T -> int)
    requires AdjacentSorted(s, KeyLe(key))
    ensures forall a, b :: 0 <= a < b < |s| ==> key(s[a]) <= key(s[b])
  {
    if s != [] {
      AscendingAllPairs(s[..|s| - 1], key);
      assert forall a :: 0 <= a < |s| - 1 ==> key(s[a]) <= key(s[|s| - 2]);
    }
  }

  lemma {:induction false} ReverseMultiset<T>(s: seq<T>)
    ensures multiset(Reverse(s)) == multiset(s)
  {
    if s != [] {
      var s' := s[..|s| - 1];
      ReverseMultiset(s');
      assert s == s' + [s[|s| - 1]];
      assert Reverse(s) == [s[|s| - 1]] + Reverse(s');
    }
  }

  /** What a prefix leaves out of a sequence is its suffix. */
  lemma PrefixRest<T>(d: seq<T>, m: nat)
    requires m <= |d|
    ensures multiset(d) - multiset(d[..m]) == multiset(d[m..])
  {
    assert d == d[..m] + d[m..];
  }

  /** Of a sequence in descending key order, a prefix leaves out nothing with a larger key. */
  lemma TakeOfDescending<T>(d: seq<T>, key: T -> int, n: nat)
    requires forall a, b :: 0 <= a < b < |d| ==> key(d[b]) <= key(d[a])
    ensures var r := Take(d, n);
      forall x, k :: x in multiset(d) - multiset(r) && 0 <= k < |r| ==> key(x) <= key(r[k])
  {
    var r := Take(d, n);
    var m := |r|;
    PrefixRest(d, m);
    forall x, k | x in multiset(d[m..]) && 0 <= k < m ensures key(x) <= key(r[k]) {
      var j :| 0 <= j < |d| - m && d[m..][j] == x;
      assert d[m + j] == x && r[k] == d[k];
    }
  }

  /** `.order("desc").take(n)` on a key index returns the `n` documents with the
      largest keys: nothing left out has a larger key than anything returned. */
  lemma TopByKey<T(!new)>(s: seq<T>, key: T -> int, n: nat)
    ensures var r := Take(Descending(s, key), n);
      multiset(r) <= multiset(s) &&
      forall x, k :: x in multiset(s) - multiset(r) && 0 <= k < |r| ==> key(x) <= key(r[k])
  {
    var d := Descending(s, key);
    PrefixRest(d, |Take(d, n)|);
    TakeOfDescending(d, key, n);
  }

  /** `.withIndex(byKey).order("desc").take(n)`: the `n` elements with the
      largest keys, largest first. */
  function Top<T(!new)>(s: seq<T>, key: T -> int, n: nat): (r: seq<T>)
    ensures |r| == if n < |s| then n else |s|
    ensures forall a, b :: 0 <= a < b < |r| ==> key(r[b]) <= key(r[a])
    ensures multiset(r) <= multiset(s)
    ensures forall x, k :: x in multiset(s) - multiset(r) && 0 <= k < |r| ==> key(x) <= key(r[k])
  {
    TopByKey(s, key, n);
    Take(Descending(s, key), n)
  }
}
