/** A stable sort by an integer key: the behaviour of JavaScript's
    `Array.prototype.sort` (stable since ECMAScript 2019) with a comparator of
    the form `(a, b) => key(a) - key(b)`. */
module Sorting {
  import opened Basics

  predicate SortedBy<T>(s: seq<T>, key: T -> int) {
    forall i, j :: 0 <= i < j < |s| ==> key(s[i]) <= key(s[j])
  }

  /** Inserts `x` before the first element whose key is not smaller, so an
      element inserted from the left stays ahead of its equals. */
  function Insert<T>(x: T, s: seq<T>, key: T -> int): (r: seq<T>)
    requires SortedBy(s, key)
    ensures SortedBy(r, key)
    ensures multiset(r) == multiset(s) + multiset{x}
  {
    if s == [] || key(x) <= key(s[0]) then
      [x] + s
    else
      var rest := Insert(x, s[1..], key);
      assert s == [s[0]] + s[1..];
      LowerBound(x, s, rest, key);
      SortedCons(s[0], rest, key);
      assert multiset([s[0]] + rest) == multiset{s[0]} + multiset(rest);
      [s[0]] + rest
  }

  /** A head whose key is at most every key of a sorted tail keeps the list
      sorted. */
  lemma SortedCons<T>(h: T, t: seq<T>, key: T -> int)
    requires SortedBy(t, key)
    requires forall j :: 0 <= j < |t| ==> key(h) <= key(t[j])
    ensures SortedBy([h] + t, key)
  {
    var r := [h] + t;
    forall i, j | 0 <= i < j < |r|
      ensures key(r[i]) <= key(r[j])
    {
      assert r[j] == t[j - 1];
      if i > 0 {
        assert r[i] == t[i - 1];
      }
    }
  }

  /** Everything after the head of a sorted list, plus an `x` that sorts
      after the head, has a key no smaller than the head's. */
  lemma LowerBound<T>(x: T, s: seq<T>, rest: seq<T>, key: T -> int)
    requires SortedBy(s, key) && |s| > 0 && key(s[0]) < key(x)
    requires multiset(rest) == multiset(s[1..]) + multiset{x}
    ensures forall j :: 0 <= j < |rest| ==> key(s[0]) <= key(rest[j])
  {
    forall j | 0 <= j < |rest|
      ensures key(s[0]) <= key(rest[j])
    {
      assert rest[j] in multiset(rest);
      if rest[j] != x {
        assert rest[j] in multiset(s[1..]);
        var k :| 0 <= k < |s[1..]| && s[1..][k] == rest[j];
        assert s[k + 1] == rest[j];
      }
    }
  }

  lemma {:induction false} DistinctCountOne<T>(s: seq<T>, y: T)
    requires NoDuplicates(s)
    ensures multiset(s)[y] <= 1
  {
    if s != [] {
      assert s == [s[0]] + s[1..];
      DistinctCountOne(s[1..], y);
      if y == s[0] {
        assert y !in s[1..];
        assert y !in multiset(s[1..]);
      }
    }
  }

  function SortBy<T>(s: seq<T>, key: T -> int): (r: seq<T>)
    ensures SortedBy(r, key)
    ensures multiset(r) == multiset(s)
    ensures |r| == |s|
  {
    if s == [] then []
    else
      var rest := SortBy(s[1..], key);
      assert s == [s[0]] + s[1..];
      Insert(s[0], rest, key)
  }

  lemma MultisetSameElements<T>(a: seq<T>, b: seq<T>)
    requires multiset(a) == multiset(b)
    ensures forall x :: x in a <==> x in b
  {
    forall x
      ensures x in a <==> x in b
    {
      assert x in a <==> x in multiset(a);
      assert x in b <==> x in multiset(b);
    }
  }

  /** Sorting a duplicate-free list yields a duplicate-free list. */
  lemma SortNoDuplicates<T>(s: seq<T>, key: T -> int)
    requires NoDuplicates(s)
    ensures NoDuplicates(SortBy(s, key))
  {
    var r := SortBy(s, key);
    forall y
      ensures multiset(r)[y] <= 1
    {
      DistinctCountOne(s, y);
    }
    DistinctFromCounts(r);
  }

  lemma DistinctFromCounts<T>(r: seq<T>)
    requires forall y :: multiset(r)[y] <= 1
    ensures NoDuplicates(r)
  {
    forall i, j | 0 <= i < j < |r|
      ensures r[i] != r[j]
    {
      assert r == r[..j] + r[j..];
      assert r[..j][i] == r[i];
      assert multiset(r)[r[i]] == multiset(r[..j])[r[i]] + multiset(r[j..])[r[i]];
      assert multiset(r[..j])[r[i]] >= 1;
      assert r[j..][0] == r[j];
      assert r[j] in multiset(r[j..]);
    }
  }
}
