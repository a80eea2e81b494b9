/** Sequence helpers shared by the table models: list comprehensions with a
    condition, sums, and taking a prefix. Every function is defined on the LAST
    element of its argument, so that a loop over `s[..i]` extends it by one step. */
module Seqs {

  /** `[x for x in s if p(x)]`. */
  function Filter<T>(s: seq<T>, p: T -> bool): (r: seq<T>)
    ensures |r| <= |s|
    ensures forall i :: 0 <= i < |r| ==> r[i] in s && p(r[i])
    ensures forall i :: 0 <= i < |s| && p(s[i]) ==> s[i] in r
    decreases |s|
  {
    if s == [] then []
    else Filter(s[..|s| - 1], p) + (if p(s[|s| - 1]) then [s[|s| - 1]] else [])
  }

  /** Filtering a concatenation filters each part. */
  lemma {:induction false} FilterConcat<T>(a: seq<T>, b: seq<T>, p: T -> bool)
    ensures Filter(a + b, p) == Filter(a, p) + Filter(b, p)
    decreases |b|
  {
    if b == [] {
      assert a + b == a;
    } else {
      var b' := b[..|b| - 1];
      assert (a + b)[..|a + b| - 1] == a + b';
      FilterConcat(a, b', p);
    }
  }

  /** Filtering keeps the multiset of the elements that satisfy p. */
  lemma {:induction false} FilterMultiset<T>(s: seq<T>, p: T -> bool)
    ensures multiset(Filter(s, p)) <= multiset(s)
    decreases |s|
  {
    if s != [] {
      var s' := s[..|s| - 1];
      FilterMultiset(s', p);
      assert s == s' + [s[|s| - 1]];
    }
  }

  /** Filters that agree on the elements of s give the same list. */
  lemma {:induction false} FilterExt<T>(s: seq<T>, p: T -> bool, q: T -> bool)
    requires forall i :: 0 <= i < |s| ==> p(s[i]) == q(s[i])
    ensures Filter(s, p) == Filter(s, q)
    decreases |s|
  {
    if s != [] {
      FilterExt(s[..|s| - 1], p, q);
    }
  }

  /** Filtering twice is filtering once by both conditions. */
  lemma {:induction false} FilterFilter<T>(s: seq<T>, p: T -> bool, q: T -> bool, both: T -> bool)
    requires forall i :: 0 <= i < |s| ==> both(s[i]) == (p(s[i]) && q(s[i]))
    ensures Filter(Filter(s, p), q) == Filter(s, both)
    decreases |s|
  {
    if s != [] {
      var init := s[..|s| - 1];
      var last := s[|s| - 1];
      FilterFilter(init, p, q, both);
      var a := Filter(init, p);
      FilterConcat(a, if p(last) then [last] else [], q);
      if p(last) {
        assert [last][..0] == [];
      }
    }
  }

  /** A condition every element meets keeps the whole list. */
  lemma {:induction false} FilterAll<T>(s: seq<T>, p: T -> bool)
    requires forall i :: 0 <= i < |s| ==> p(s[i])
    ensures Filter(s, p) == s
    decreases |s|
  {
    if s != [] {
      var init := s[..|s| - 1];
      assert forall i :: 0 <= i < |init| ==> p(init[i]) by {
        forall i | 0 <= i < |init| ensures p(init[i]) {
          assert init[i] == s[i];
        }
      }
      FilterAll(init, p);
      assert s == init + [s[|s| - 1]];
    }
  }

  /** Nothing passes: the filter is empty. */
  lemma {:induction false} FilterNone<T>(s: seq<T>, p: T -> bool)
    requires forall i :: 0 <= i < |s| ==> !p(s[i])
    ensures Filter(s, p) == []
    decreases |s|
  {
    if s != [] {
      FilterNone(s[..|s| - 1], p);
    }
  }

  /** No two elements of s agree on f. */
  ghost predicate DistinctBy<T, K>(s: seq<T>, f: T -> K) {
    forall i, j :: 0 <= i < j < |s| ==> f(s[i]) != f(s[j])
  }

  /** Concatenation is associative. */
  lemma AppendAssoc<T>(a: seq<T>, b: seq<T>, c: seq<T>)
    ensures a + b + c == a + (b + c)
  {
  }

  /** Two different elements make a set of two. */
  lemma PairSize<T>(a: T, b: T)
    requires a != b
    ensures |{a, b}| == 2
  {
    assert {a, b} == {a} + {b};
  }

  /** Dropping the last element keeps elements distinct, and the last one
      differs under f from every other. */
  lemma DistinctByInit<T, K>(s: seq<T>, f: T -> K)
    requires s != [] && DistinctBy(s, f)
    ensures DistinctBy(s[..|s| - 1], f)
    ensures forall x :: x in s[..|s| - 1] ==> f(x) != f(s[|s| - 1])
  {
    var init := s[..|s| - 1];
    forall i, j | 0 <= i < j < |init| ensures f(init[i]) != f(init[j]) {
      assert init[i] == s[i] && init[j] == s[j];
    }
    forall x | x in init ensures f(x) != f(s[|s| - 1]) {
      var i :| 0 <= i < |init| && init[i] == x;
      assert s[i] == x;
    }
  }

  /** Filtering keeps elements distinct under f. */
  lemma {:induction false} FilterDistinctBy<T, K>(s: seq<T>, p: T -> bool, f: T -> K)
    requires DistinctBy(s, f)
    ensures DistinctBy(Filter(s, p), f)
    decreases |s|
  {
    if s != [] {
      var init := s[..|s| - 1];
      var last := s[|s| - 1];
      FilterDistinctBy(init, p, f);
      var r := Filter(init, p);
      if p(last) {
        forall i | 0 <= i < |r| ensures f(r[i]) != f(last) {
          var j :| 0 <= j < |init| && init[j] == r[i];
          assert s[j] == r[i];
        }
        forall i, j | 0 <= i < j < |r + [last]| ensures f((r + [last])[i]) != f((r + [last])[j]) {
          if j == |r| { assert (r + [last])[i] == r[i]; }
        }
      }
    }
  }

  /** Number of elements satisfying p. */
  function Count<T>(s: seq<T>, p: T -> bool): (n: nat)
    ensures n == |Filter(s, p)|
    decreases |s|
  {
    if s == [] then 0
    else Count(s[..|s| - 1], p) + (if p(s[|s| - 1]) then 1 else 0)
  }

  /** `sum(s)` over integers. */
  function Sum(s: seq<int>): int
    decreases |s|
  {
    if s == [] then 0 else Sum(s[..|s| - 1]) + s[|s| - 1]
  }

  lemma {:induction false} SumConcat(a: seq<int>, b: seq<int>)
    ensures Sum(a + b) == Sum(a) + Sum(b)
    decreases |b|
  {
    if b == [] {
      assert a + b == a;
    } else {
      var b' := b[..|b| - 1];
      assert (a + b)[..|a + b| - 1] == a + b';
      SumConcat(a, b');
    }
  }

  /** `s[:k]` in Python, which is the whole list when k exceeds its length. */
  function Take<T>(s: seq<T>, k: int): (r: seq<T>)
    ensures |r| == if k <= 0 then 0 else if k < |s| then k else |s|
    ensures forall i :: 0 <= i < |r| ==> r[i] == s[i]
  {
    if k <= 0 then [] else if k < |s| then s[..k] else s
  }

  /** Ascending by key. */
  ghost predicate SortedBy<T>(s: seq<T>, key: T -> int) {
    forall i, j :: 0 <= i < j < |s| ==> key(s[i]) <= key(s[j])
  }

  /** Puts x behind every element whose key is at most key(x). */
  function InsertBy<T>(s: seq<T>, x: T, key: T -> int): (r: seq<T>)
    requires SortedBy(s, key)
    ensures SortedBy(r, key)
    ensures multiset(r) == multiset(s) + multiset{x}
    ensures |r| == |s| + 1
    decreases |s|
  {
    if s == [] then [x]
    else if key(s[|s| - 1]) <= key(x) then
      (assert SortedBy(s + [x], key); s + [x])
    else
      var t := InsertBy(s[..|s| - 1], x, key);
      InsertBehind(s, x, key, t);
      t + [s[|s| - 1]]
  }

  /** Inserting x before the last element of s, which is larger, and then
      appending that element keeps the order. */
  lemma InsertBehind<T>(s: seq<T>, x: T, key: T -> int, t: seq<T>)
    requires s != [] && SortedBy(s, key) && key(x) < key(s[|s| - 1])
    requires SortedBy(t, key) && multiset(t) == multiset(s[..|s| - 1]) + multiset{x}
    ensures SortedBy(t + [s[|s| - 1]], key)
    ensures multiset(t + [s[|s| - 1]]) == multiset(s) + multiset{x}
  {
    var init := s[..|s| - 1];
    var last := s[|s| - 1];
    assert s == init + [last];
    forall k | 0 <= k < |t| ensures key(t[k]) <= key(last) {
      assert t[k] in multiset(t);
      if t[k] != x {
        assert t[k] in multiset(init);
        var j :| 0 <= j < |init| && init[j] == t[k];
        assert s[j] == t[k];
      }
    }
    var r := t + [last];
    forall i, j | 0 <= i < j < |r| ensures key(r[i]) <= key(r[j]) {
      assert r[i] == t[i];
      if j < |t| {
        assert r[j] == t[j];
      }
    }
  }

  /** Python's `s.sort(key=key)` (and SQL `ORDER BY key ASC` taken as stable):
      a permutation of s in ascending key order, equal keys keeping their order
      (SortByStable). */
  function SortBy<T>(s: seq<T>, key: T -> int): (r: seq<T>)
    ensures SortedBy(r, key)
    ensures multiset(r) == multiset(s)
    ensures |r| == |s|
    decreases |s|
  {
    if s == [] then []
    else
      var init := s[..|s| - 1];
      assert s == init + [s[|s| - 1]];
      InsertBy(SortBy(init, key), s[|s| - 1], key)
  }
  /** The elements of s whose key is k, in their order in s. */
  function KeyRun<T>(s: seq<T>, key: T -> int, k: int): seq<T>
    decreases |s|
  {
    if s == [] then []
    else KeyRun(s[..|s| - 1], key, k) + (if key(s[|s| - 1]) == k then [s[|s| - 1]] else [])
  }

  /** Appending x extends the run of its own key only. */
  lemma KeyRunSnoc<T>(s: seq<T>, x: T, key: T -> int, k: int)
    ensures KeyRun(s + [x], key, k) == KeyRun(s, key, k) + (if key(x) == k then [x] else [])
  {
    assert (s + [x])[..|s|] == s;
  }

  /** InsertBy puts x behind every element with its key. */
  lemma {:induction false} InsertByStable<T>(s: seq<T>, x: T, key: T -> int, k: int)
    requires SortedBy(s, key)
    ensures KeyRun(InsertBy(s, x, key), key, k) == KeyRun(s, key, k) + (if key(x) == k then [x] else [])
    decreases |s|
  {
    if s == [] {
      KeyRunSnoc(s, x, key, k);
      assert s + [x] == [x];
    } else if key(s[|s| - 1]) <= key(x) {
      KeyRunSnoc(s, x, key, k);
    } else {
      var init := s[..|s| - 1];
      var last := s[|s| - 1];
      assert SortedBy(init, key);
      InsertByStable(init, x, key, k);
      KeyRunSnoc(InsertBy(init, x, key), last, key, k);
    }
  }

  /** The sort is stable: for every key, the elements with that key come
      out in the order they went in. */
  lemma {:induction false} SortByStable<T>(s: seq<T>, key: T -> int, k: int)
    ensures KeyRun(SortBy(s, key), key, k) == KeyRun(s, key, k)
    decreases |s|
  {
    if s != [] {
      var init := s[..|s| - 1];
      var last := s[|s| - 1];
      SortByStable(init, key, k);
      InsertByStable(SortBy(init, key), last, key, k);
    }
  }


  /** In a sorted list the first k elements have keys no larger than the rest. */
  lemma SortedSplit<T>(s: seq<T>, key: T -> int, k: nat)
    requires SortedBy(s, key) && k <= |s|
    ensures multiset(s[..k]) + multiset(s[k..]) == multiset(s)
    ensures forall a, b :: a in s[..k] && b in s[k..] ==> key(a) <= key(b)
  {
    assert s == s[..k] + s[k..];
    forall a, b | a in s[..k] && b in s[k..] ensures key(a) <= key(b) {
      var x :| 0 <= x < k && s[..k][x] == a;
      var y :| 0 <= y < |s| - k && s[k..][y] == b;
      assert s[x] == a && s[k + y] == b;
    }
  }

  /** t is taken off the front of sorted, an ordering of s: what is taken and
      what is left make up s, nothing left has a smaller key than something
      taken, and everything taken is in s. */
  ghost predicate TakenSmallest<T>(t: seq<T>, sorted: seq<T>, s: seq<T>, key: T -> int) {
    |t| <= |sorted|
    && multiset(t) + multiset(sorted[|t|..]) == multiset(s)
    && (forall a, b :: a in t && b in sorted[|t|..] ==> key(a) <= key(b))
    && (forall a :: a in t ==> a in s)
  }

  /** Taking the first k of a sorted list takes elements with the smallest
      keys. */
  lemma TakeSmallest<T>(s: seq<T>, key: T -> int, k: int)
    ensures TakenSmallest(Take(SortBy(s, key), k), SortBy(s, key), s, key)
  {
    var sorted := SortBy(s, key);
    var t := Take(sorted, k);
    TakePrefix(sorted, k);
    SortedSplit(sorted, key, |t|);
    forall a | a in t ensures a in s {
      assert a in multiset(sorted);
    }
  }

  /** What is taken from the sorted list comes from the list. */
  lemma TakeSortedIn<T>(s: seq<T>, key: T -> int, k: int)
    ensures forall a :: a in Take(SortBy(s, key), k) ==> a in s
  {
    var sorted := SortBy(s, key);
    forall a | a in Take(sorted, k) ensures a in s {
      var i :| 0 <= i < |Take(sorted, k)| && Take(sorted, k)[i] == a;
      assert sorted[i] == a;
      assert a in multiset(sorted);
    }
  }

  lemma TakePrefix<T>(s: seq<T>, k: int)
    ensures Take(s, k) == s[..|Take(s, k)|]
  {
  }
}
