/**
 A stable sort by a numeric key, standing in for JavaScript's `Array.prototype.sort` with a
 comparator `(a, b) => key(a) - key(b)` (the language requires that sort to be stable), and
 the sequence folds the engine uses over its results.
 */
module Sorting {

  ghost predicate SortedBy<T>(xs: seq<T>, key: T -> real) {
    forall i, j :: 0 <= i < j < |xs| ==> key(xs[i]) <= key(xs[j])
  }

  ghost predicate Distinct<T>(xs: seq<T>) {
    forall i, j :: 0 <= i < j < |xs| ==> xs[i] != xs[j]
  }

  /** Places `x` before the first element whose key is not smaller, so that `x` stays ahead
      of the equal-keyed elements that followed it in the input. */
  function Insert<T>(x: T, ys: seq<T>, key: T -> real): (r: seq<T>)
    ensures multiset(r) == multiset{x} + multiset(ys)
  {
    if |ys| == 0 || key(x) <= key(ys[0]) then [x] + ys
    else
      assert ys == [ys[0]] + ys[1..];
      [ys[0]] + Insert(x, ys[1..], key)
  }

  lemma {:induction false} InsertSorted<T>(x: T, ys: seq<T>, key: T -> real)
    requires SortedBy(ys, key)
    ensures SortedBy(Insert(x, ys, key), key)
  {
    if |ys| == 0 || key(x) <= key(ys[0]) {
      var r := [x] + ys;
      forall i, j | 0 <= i < j < |r| ensures key(r[i]) <= key(r[j]) {
        if i == 0 { assert r[j] == ys[j - 1]; }
      }
    } else {
      var rest := Insert(x, ys[1..], key);
      InsertSorted(x, ys[1..], key);
      var r := [ys[0]] + rest;
      forall i, j | 0 <= i < j < |r| ensures key(r[i]) <= key(r[j]) {
        if i == 0 {
          assert r[j] == rest[j - 1];
          assert r[j] in multiset(rest);
          assert r[j] == x || r[j] in multiset(ys[1..]);
          if r[j] != x {
            var k :| 0 <= k < |ys[1..]| && ys[1..][k] == r[j];
            assert ys[k + 1] == r[j];
          }
        } else {
          assert r[i] == rest[i - 1] && r[j] == rest[j - 1];
        }
      }
    }
  }

  /** Insertion sort: a stable sort by `key`. */
  function SortBy<T>(xs: seq<T>, key: T -> real): (r: seq<T>)
    ensures multiset(r) == multiset(xs)
    ensures SortedBy(r, key)
    ensures |r| == |xs|
  {
    if |xs| == 0 then []
    else
      assert xs == [xs[0]] + xs[1..];
      InsertSorted(xs[0], SortBy(xs[1..], key), key);
      var r := Insert(xs[0], SortBy(xs[1..], key), key);
      assert |r| == |multiset(r)| == |multiset(xs)| == |xs|;
      r
  }

  /** The elements of `xs` whose key is `k`, in their order. */
  function KeyClass<T>(xs: seq<T>, key: T -> real, k: real): seq<T> {
    if |xs| == 0 then []
    else (if key(xs[0]) == k then [xs[0]] else []) + KeyClass(xs[1..], key, k)
  }

  lemma {:induction false} InsertKeyClass<T>(x: T, ys: seq<T>, key: T -> real, k: real)
    ensures KeyClass(Insert(x, ys, key), key, k)
         == (if key(x) == k then [x] else []) + KeyClass(ys, key, k)
  {
    if |ys| == 0 || key(x) <= key(ys[0]) {
      assert ([x] + ys)[1..] == ys;
    } else {
      var rest := Insert(x, ys[1..], key);
      assert ([ys[0]] + rest)[1..] == rest;
      InsertKeyClass(x, ys[1..], key, k);
    }
  }

  /** Stability: sorting keeps equal-keyed elements in their input order. */
  lemma {:induction false} SortIsStable<T>(xs: seq<T>, key: T -> real, k: real)
    ensures KeyClass(SortBy(xs, key), key, k) == KeyClass(xs, key, k)
  {
    if |xs| > 0 {
      SortIsStable(xs[1..], key, k);
      InsertKeyClass(xs[0], SortBy(xs[1..], key), key, k);
    }
  }

  lemma {:induction false} InsertKeepsDistinct<T>(x: T, ys: seq<T>, key: T -> real)
    requires Distinct(ys) && x !in ys
    ensures Distinct(Insert(x, ys, key))
  {
    if |ys| == 0 || key(x) <= key(ys[0]) {
    } else {
      var rest := Insert(x, ys[1..], key);
      InsertKeepsDistinct(x, ys[1..], key);
      assert ys[0] !in ys[1..];
      assert ys[0] !in multiset(rest);
      var r := [ys[0]] + rest;
      forall i, j | 0 <= i < j < |r| ensures r[i] != r[j] {
        if i == 0 {
          assert r[j] == rest[j - 1];
        }
      }
    }
  }

  lemma {:induction false} SortKeepsDistinct<T>(xs: seq<T>, key: T -> real)
    requires Distinct(xs)
    ensures Distinct(SortBy(xs, key))
  {
    if |xs| > 0 {
      SortKeepsDistinct(xs[1..], key);
      assert xs[0] !in xs[1..];
      assert xs[0] !in multiset(SortBy(xs[1..], key));
      InsertKeepsDistinct(xs[0], SortBy(xs[1..], key), key);
    }
  }

  /** Number of elements satisfying `p`. */
  function Count<T>(xs: seq<T>, p: T -> bool): nat {
    if |xs| == 0 then 0 else (if p(xs[0]) then 1 else 0) + Count(xs[1..], p)
  }

  /** Concatenation of `f` over `xs`. */
  function FlatMap<T, U>(xs: seq<T>, f: T -> seq<U>): seq<U> {
    if |xs| == 0 then [] else f(xs[0]) + FlatMap(xs[1..], f)
  }

  /** Sum of an integer measure over `xs`. */
  function SumOf<T>(xs: seq<T>, f: T -> int): int {
    if |xs| == 0 then 0 else f(xs[0]) + SumOf(xs[1..], f)
  }

  lemma {:induction false} CountAppend<T>(a: seq<T>, b: seq<T>, p: T -> bool)
    ensures Count(a + b, p) == Count(a, p) + Count(b, p)
  {
    if |a| == 0 {
      assert a + b == b;
    } else {
      assert (a + b)[0] == a[0];
      assert (a + b)[1..] == a[1..] + b;
      CountAppend(a[1..], b, p);
    }
  }

  lemma {:induction false} FlatMapAppend<T, U>(a: seq<T>, b: seq<T>, f: T -> seq<U>)
    ensures FlatMap(a + b, f) == FlatMap(a, f) + FlatMap(b, f)
  {
    if |a| == 0 {
      assert a + b == b;
    } else {
      assert (a + b)[0] == a[0];
      assert (a + b)[1..] == a[1..] + b;
      FlatMapAppend(a[1..], b, f);
    }
  }

  lemma {:induction false} SumAppend<T>(a: seq<T>, b: seq<T>, f: T -> int)
    ensures SumOf(a + b, f) == SumOf(a, f) + SumOf(b, f)
  {
    if |a| == 0 {
      assert a + b == b;
    } else {
      assert (a + b)[0] == a[0];
      assert (a + b)[1..] == a[1..] + b;
      SumAppend(a[1..], b, f);
    }
  }

  /** Removing the first element of `xs` from the permutation `ys`. */
  lemma {:induction false} PermutationSplit<T>(xs: seq<T>, ys: seq<T>) returns (i: nat)
    requires |xs| > 0 && multiset(xs) == multiset(ys)
    ensures i < |ys| && ys[i] == xs[0]
    ensures ys == ys[..i] + [xs[0]] + ys[i + 1..]
    ensures multiset(xs[1..]) == multiset(ys[..i] + ys[i + 1..])
  {
    assert xs == [xs[0]] + xs[1..];
    assert xs[0] in multiset(ys);
    i :| 0 <= i < |ys| && ys[i] == xs[0];
    assert ys == ys[..i] + [ys[i]] + ys[i + 1..];
    assert multiset(ys) == multiset(ys[..i]) + multiset{xs[0]} + multiset(ys[i + 1..]);
    assert multiset(ys[..i] + ys[i + 1..]) == multiset(ys[..i]) + multiset(ys[i + 1..]);
    assert multiset(xs) == multiset{xs[0]} + multiset(xs[1..]);
    assert multiset(xs[1..]) == multiset(xs) - multiset{xs[0]};
    assert multiset(ys[..i] + ys[i + 1..]) == multiset(ys) - multiset{xs[0]};
  }

  lemma {:induction false} CountPermutation<T>(xs: seq<T>, ys: seq<T>, p: T -> bool)
    requires multiset(xs) == multiset(ys)
    ensures Count(xs, p) == Count(ys, p)
    decreases |xs|
  {
    if |xs| == 0 {
      assert |ys| == |multiset(ys)| == 0;
    } else {
      var i := PermutationSplit(xs, ys);
      CountPermutation(xs[1..], ys[..i] + ys[i + 1..], p);
      CountAppend(ys[..i], ys[i + 1..], p);
      CountAppend(ys[..i] + [xs[0]], ys[i + 1..], p);
      CountAppend(ys[..i], [xs[0]], p);
    }
  }

  lemma {:induction false} FlatMapPermutation<T, U>(xs: seq<T>, ys: seq<T>, f: T -> seq<U>)
    requires multiset(xs) == multiset(ys)
    ensures multiset(FlatMap(xs, f)) == multiset(FlatMap(ys, f))
    decreases |xs|
  {
    if |xs| == 0 {
      assert |ys| == |multiset(ys)| == 0;
    } else {
      var i := PermutationSplit(xs, ys);
      FlatMapPermutation(xs[1..], ys[..i] + ys[i + 1..], f);
      FlatMapAppend(ys[..i], ys[i + 1..], f);
      FlatMapAppend(ys[..i] + [xs[0]], ys[i + 1..], f);
      FlatMapAppend(ys[..i], [xs[0]], f);
      assert FlatMap([xs[0]], f) == f(xs[0]);
    }
  }

  lemma {:induction false} SumPermutation<T>(xs: seq<T>, ys: seq<T>, f: T -> int)
    requires multiset(xs) == multiset(ys)
    ensures SumOf(xs, f) == SumOf(ys, f)
    decreases |xs|
  {
    if |xs| == 0 {
      assert |ys| == |multiset(ys)| == 0;
    } else {
      var i := PermutationSplit(xs, ys);
      SumPermutation(xs[1..], ys[..i] + ys[i + 1..], f);
      SumAppend(ys[..i], ys[i + 1..], f);
      SumAppend(ys[..i] + [xs[0]], ys[i + 1..], f);
      SumAppend(ys[..i], [xs[0]], f);
    }
  }

  /** Every element of a `FlatMap` comes from some element of the input. */
  lemma {:induction false} FlatMapMember<T, U>(xs: seq<T>, f: T -> seq<U>, u: U)
    requires u in FlatMap(xs, f)
    ensures exists x :: x in xs && u in f(x)
  {
    if u !in f(xs[0]) {
      FlatMapMember(xs[1..], f, u);
      var x :| x in xs[1..] && u in f(x);
      assert x in xs;
    }
  }

  lemma {:induction false} CountNone<T>(xs: seq<T>, p: T -> bool)
    requires forall x :: x in xs ==> !p(x)
    ensures Count(xs, p) == 0
  {
    if |xs| > 0 {
      assert xs[0] in xs;
      assert forall x :: x in xs[1..] ==> x in xs;
      CountNone(xs[1..], p);
    }
  }

  lemma {:induction false} CountAll<T>(xs: seq<T>, p: T -> bool)
    requires forall x :: x in xs ==> p(x)
    ensures Count(xs, p) == |xs|
  {
    if |xs| > 0 {
      assert xs[0] in xs;
      assert forall x :: x in xs[1..] ==> x in xs;
      CountAll(xs[1..], p);
    }
  }

  /** `xs.filter(p)`: the elements satisfying `p`, in their order. */
  function Filter<T(!new)>(xs: seq<T>, p: T -> bool): (r: seq<T>)
    ensures |r| == Count(xs, p)
    ensures forall x :: x in r <==> x in xs && p(x)
  {
    if |xs| == 0 then []
    else
      var rest := Filter(xs[1..], p);
      assert forall x :: x in xs <==> x == xs[0] || x in xs[1..];
      if p(xs[0]) then [xs[0]] + rest else rest
  }

  lemma {:induction false} FilterAll<T(!new)>(xs: seq<T>, p: T -> bool)
    requires forall x :: x in xs ==> p(x)
    ensures Filter(xs, p) == xs
  {
    if |xs| > 0 {
      assert xs[0] in xs;
      assert forall x :: x in xs[1..] ==> x in xs;
      FilterAll(xs[1..], p);
    }
  }
}
