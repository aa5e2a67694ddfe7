/** Sequence and string helpers shared by every part of the model: the
    JavaScript array idioms the source leans on (`filter`, `slice(-n)`,
    `includes`-guarded push, `[...new Set(xs)]`) stated once, with the facts
    about them that the rest of the model needs. */
module Basics {

  datatype Option<T> = None | Some(value: T)

  function Min(a: int, b: int): int { if a <= b then a else b }

  function Max(a: int, b: int): int { if a >= b then a else b }

  predicate NoDuplicates<T(==)>(s: seq<T>) {
    forall i, j :: 0 <= i < j < |s| ==> s[i] != s[j]
  }

  /** A head absent from a duplicate-free tail keeps the list free of
      duplicates. */
  lemma NoDuplicatesCons<T>(h: T, t: seq<T>)
    requires NoDuplicates(t) && h !in t
    ensures NoDuplicates([h] + t)
  {
    var r := [h] + t;
    forall i, j | 0 <= i < j < |r|
      ensures r[i] != r[j]
    {
      assert r[j] == t[j - 1];
      if i > 0 {
        assert r[i] == t[i - 1];
      }
    }
  }

  /** A map holding some of another's entries, unchanged, is the other with
      the missing keys taken out. */
  lemma SubMapIsMinus<K, V>(big: map<K, V>, small: map<K, V>)
    requires forall k :: k in small ==> k in big && small[k] == big[k]
    ensures big - (big.Keys - small.Keys) == small
  {
    var d := big - (big.Keys - small.Keys);
    assert d.Keys == small.Keys;
  }

  /** The set of a list's elements. */
  function Elements<T(!new)>(xs: seq<T>): (r: set<T>)
    ensures forall x :: x in r <==> x in xs
  {
    set x | x in xs
  }

  lemma ElementsStep<T(!new)>(xs: seq<T>, j: nat)
    requires j < |xs|
    ensures Elements(xs[..j + 1]) == Elements(xs[..j]) + {xs[j]}
  {
    assert xs[..j + 1] == xs[..j] + [xs[j]];
  }

  /** Taking out a set and then one more key is taking out both. */
  lemma MinusStep<K, V>(m: map<K, V>, a: set<K>, x: K)
    ensures (m - a) - {x} == m - (a + {x})
  {
  }

  /** `s.startsWith(prefix)` */
  predicate StartsWith(s: string, prefix: string) {
    |prefix| <= |s| && s[..|prefix|] == prefix
  }

  /** `s.slice(-n)` for a positive `n`: the last `n` elements, or all of `s`
      when it is shorter. */
  function Last<T>(s: seq<T>, n: nat): (r: seq<T>)
    ensures |r| == Min(|s|, n)
    ensures s == s[..|s| - |r|] + r
  {
    if |s| <= n then s else s[|s| - n..]
  }

  /** `s.filter(p)`: the elements satisfying `p`, in their original order. */
  function Filter<T(!new)>(s: seq<T>, p: T -> bool): (r: seq<T>)
    ensures |r| <= |s|
    ensures forall x :: x in r <==> x in s && p(x)
    ensures forall i :: 0 <= i < |r| ==> p(r[i])
  {
    if s == [] then []
    else (if p(s[0]) then [s[0]] else []) + Filter(s[1..], p)
  }

  lemma {:induction false} FilterAppend<T(!new)>(a: seq<T>, b: seq<T>, p: T -> bool)
    ensures Filter(a + b, p) == Filter(a, p) + Filter(b, p)
  {
    if a == [] {
      assert a + b == b;
    } else {
      assert (a + b)[1..] == a[1..] + b;
      FilterAppend(a[1..], b, p);
    }
  }

  lemma {:induction false} FilterKeepsAll<T(!new)>(s: seq<T>, p: T -> bool)
    requires forall i :: 0 <= i < |s| ==> p(s[i])
    ensures Filter(s, p) == s
  {
    if s != [] {
      FilterKeepsAll(s[1..], p);
    }
  }

  /** An element the predicate rejects leaves no trace, wherever it
      stands. */
  lemma {:induction false} FilterSkip<T(!new)>(a: seq<T>, x: T, b: seq<T>, p: T -> bool)
    requires !p(x)
    ensures Filter(a + [x] + b, p) == Filter(a + b, p)
  {
    FilterAppend(a + [x], b, p);
    FilterAppend(a, [x], p);
    FilterAppend(a, b, p);
    assert Filter([x], p) == [] by {
      assert [x][1..] == [];
    }
    assert Filter(a + [x], p) == Filter(a, p);
  }

  lemma {:induction false} FilterNone<T(!new)>(s: seq<T>, p: T -> bool)
    requires forall i :: 0 <= i < |s| ==> !p(s[i])
    ensures Filter(s, p) == []
  {
    if s != [] {
      FilterNone(s[1..], p);
    }
  }

  lemma {:induction false} FilterNoDuplicates<T(!new)>(s: seq<T>, p: T -> bool)
    ensures NoDuplicates(s) ==> NoDuplicates(Filter(s, p))
  {
    if s != [] && NoDuplicates(s) {
      FilterNoDuplicates(s[1..], p);
      assert s[0] !in s[1..];
    }
  }

  /** The presence-list update `prev.includes(x) ? prev : [...prev, x]`. */
  function AddIfAbsent<T(==,!new)>(xs: seq<T>, x: T): (r: seq<T>)
    ensures x in r
    ensures forall y :: y in r <==> y in xs || y == x
    ensures xs <= r && |r| <= |xs| + 1
    ensures x in xs ==> r == xs
    ensures NoDuplicates(xs) ==> NoDuplicates(r)
  {
    if x in xs then xs else xs + [x]
  }

  /** Adding `x` behind a different head is adding it to the tail. */
  lemma AddIfAbsentCons<T(!new)>(h: T, t: seq<T>, x: T)
    requires h != x
    ensures AddIfAbsent([h] + t, x) == [h] + AddIfAbsent(t, x)
  {
    assert x in [h] + t <==> x in t;
    if x !in t {
      assert ([h] + t) + [x] == [h] + (t + [x]);
    }
  }

  /** The presence-list update `prev.filter(id => id !== x)`. */
  function Without<T(==,!new)>(xs: seq<T>, x: T): (r: seq<T>)
    ensures x !in r
    ensures forall y :: y != x ==> (y in r <==> y in xs)
    ensures |r| <= |xs|
    ensures NoDuplicates(xs) ==> NoDuplicates(r)
  {
    FilterNoDuplicates(xs, y => y != x);
    Filter(xs, y => y != x)
  }

  /** Removing `x` keeps everyone else in their order: it distributes over
      concatenation. */
  lemma WithoutAppend<T(!new)>(a: seq<T>, b: seq<T>, x: T)
    ensures Without(a + b, x) == Without(a, x) + Without(b, x)
  {
    FilterAppend(a, b, y => y != x);
  }

  /** Removing `x` from a list that never held it changes nothing. */
  lemma WithoutAbsent<T(!new)>(xs: seq<T>, x: T)
    requires x !in xs
    ensures Without(xs, x) == xs
  {
    FilterKeepsAll(xs, y => y != x);
  }

  /** A join followed by a leave of the same id gives the list the leave
      alone would have given: joining leaves no trace once undone. */
  lemma JoinThenLeave<T(!new)>(xs: seq<T>, x: T)
    ensures Without(AddIfAbsent(xs, x), x) == Without(xs, x)
  {
    if x !in xs {
      WithoutAppend(xs, [x], x);
      assert Without([x], x) == [];
    }
  }

  /** `[...new Set(xs)]`: the distinct elements of `xs` in order of first
      occurrence. */
  function Dedup<T(==,!new)>(xs: seq<T>): (r: seq<T>)
    ensures NoDuplicates(r)
    ensures forall y :: y in r <==> y in xs
    ensures |r| <= |xs|
  {
    if xs == [] then [] else AddIfAbsent(Dedup(xs[..|xs| - 1]), xs[|xs| - 1])
  }

  /** First-occurrence order: what is seen first stays first whatever comes
      after it. */
  lemma {:induction false} DedupPrefix<T(!new)>(xs: seq<T>, ys: seq<T>)
    ensures Dedup(xs) <= Dedup(xs + ys)
    decreases |ys|
  {
    if ys == [] {
      assert xs + ys == xs;
    } else {
      var init := ys[..|ys| - 1];
      assert (xs + ys)[..|xs + ys| - 1] == xs + init;
      DedupPrefix(xs, init);
    }
  }

  lemma {:induction false} DistinctCardinality<T>(s: seq<T>)
    requires NoDuplicates(s)
    ensures |set x | x in s| == |s|
  {
    if s != [] {
      DistinctCardinality(s[1..]);
      var rest := set x | x in s[1..];
      assert (set x | x in s) == {s[0]} + rest;
      assert s[0] !in rest;
    }
  }

  /** Two duplicate-free lists of the same length where one's elements all
      occur in the other hold the same elements. */
  lemma SameLengthSubsetIsSameSet<T>(a: seq<T>, b: seq<T>)
    requires NoDuplicates(a) && NoDuplicates(b)
    requires |a| == |b|
    requires forall x :: x in a ==> x in b
    ensures forall x :: x in b ==> x in a
  {
    var sa := set x | x in a;
    var sb := set x | x in b;
    DistinctCardinality(a);
    DistinctCardinality(b);
    var d := sb - sa;
    assert sb == sa + d && sa !! d;
    assert |d| == 0;
    assert sb == sa;
    forall x | x in b
      ensures x in a
    {
      assert x in sb;
    }
  }
}
