/** Sums and maps over sequences, and sums over finite sets of keys. */
module Sums {

  ghost function Sum<T>(s: seq<T>, f: T -> int): int {
    if s == [] then 0 else Sum(s[..|s| - 1], f) + f(s[|s| - 1])
  }

  /** The sum of `f` over a finite set, independent of the order in which the keys are taken. */
  ghost function SumOver<K>(keys: set<K>, f: K -> int): int {
    if keys == {} then 0 else
      var k :| k in keys;
      f(k) + SumOver(keys - {k}, f)
  }

  lemma SomeElement<T>(s: set<T>) returns (x: T)
    requires s != {}
    ensures x in s
  {
    x :| x in s;
  }

  lemma SubsetSize<T>(a: set<T>, b: set<T>)
    requires a <= b
    ensures |a| <= |b|
  {
    assert b == a + (b - a);
  }

  lemma {:induction false} SumOverTake<K>(keys: set<K>, f: K -> int, k: K)
    requires k in keys
    ensures SumOver(keys, f) == f(k) + SumOver(keys - {k}, f)
    decreases |keys|
  {
    var first :| first in keys && SumOver(keys, f) == f(first) + SumOver(keys - {first}, f);
    if first == k {
    } else {
      SumOverTake(keys - {first}, f, k);
      SumOverTake(keys - {k}, f, first);
      assert keys - {first} - {k} == keys - {k} - {first};
    }
  }

  lemma {:induction false} SumOverSame<K(!new)>(keys: set<K>, f: K -> int, g: K -> int)
    requires forall k | k in keys :: f(k) == g(k)
    ensures SumOver(keys, f) == SumOver(keys, g)
    decreases |keys|
  {
    if keys == {} {
    } else {
      var k :| k in keys;
      SumOverTake(keys, f, k);
      SumOverTake(keys, g, k);
      SumOverSame(keys - {k}, f, g);
    }
  }

  lemma SumAppend<T>(a: seq<T>, x: T, f: T -> int)
    ensures Sum(a + [x], f) == Sum(a, f) + f(x)
  {
    assert (a + [x])[..|a|] == a;
  }

  lemma {:induction false} SumConcat<T>(a: seq<T>, b: seq<T>, f: T -> int)
    ensures Sum(a + b, f) == Sum(a, f) + Sum(b, f)
  {
    if b == [] {
      assert a + b == a;
    } else {
      assert (a + b)[..|a + b| - 1] == a + b[..|b| - 1];
      SumConcat(a, b[..|b| - 1], f);
    }
  }

  /** Removing one element removes its share of the sum. */
  lemma SumRemove<T>(s: seq<T>, f: T -> int, i: nat)
    requires i < |s|
    ensures Sum(s, f) == Sum(s[..i] + s[i + 1..], f) + f(s[i])
  {
    SplitAt(s, i);
    SumMiddle(s[..i], s[i], s[i + 1..], f);
  }

  lemma SumMiddle<T>(a: seq<T>, x: T, b: seq<T>, f: T -> int)
    ensures Sum(a + [x] + b, f) == Sum(a + b, f) + f(x)
  {
    SumConcat(a + [x], b, f);
    SumAppend(a, x, f);
    SumConcat(a, b, f);
  }

  /** The last element of `a` occurs in a permutation of it; without the two, a permutation is left. */
  lemma WhereLastIs<T>(a: seq<T>, b: seq<T>) returns (i: nat)
    requires a != [] && multiset(a) == multiset(b)
    ensures i < |b| && b[i] == a[|a| - 1] && multiset(a[..|a| - 1]) == multiset(b[..i] + b[i + 1..])
  {
    var n := |a| - 1;
    assert a[n] in multiset(b);
    i :| 0 <= i < |b| && b[i] == a[n];
    MultisetOfRest(b, i);
    assert a == a[..n] + [a[n]];
    assert multiset(a[..n]) == multiset(a) - multiset{a[n]};
  }

  /** A sum depends on which elements there are, not on their order. */
  lemma {:induction false} SumOfPermutation<T>(a: seq<T>, b: seq<T>, f: T -> int)
    requires multiset(a) == multiset(b)
    ensures Sum(a, f) == Sum(b, f)
  {
    if a == [] {
      assert multiset(b) == multiset{};
      assert |b| == 0;
    } else {
      var n := |a| - 1;
      var i := WhereLastIs(a, b);
      var rest := b[..i] + b[i + 1..];
      SumRemove(b, f, i);
      SumOfPermutation(a[..n], rest, f);
    }
  }

  ghost function ApplyAll<T, U>(s: seq<T>, f: T -> U): (r: seq<U>)
    ensures |r| == |s|
  {
    if s == [] then [] else ApplyAll(s[..|s| - 1], f) + [f(s[|s| - 1])]
  }

  lemma {:induction false} ApplyAllAt<T, U>(s: seq<T>, f: T -> U, i: nat)
    requires i < |s|
    ensures ApplyAll(s, f)[i] == f(s[i])
  {
    if i == |s| - 1 {
    } else {
      ApplyAllAt(s[..|s| - 1], f, i);
    }
  }

  lemma {:induction false} ApplyAllConcat<T, U>(a: seq<T>, b: seq<T>, f: T -> U)
    ensures ApplyAll(a + b, f) == ApplyAll(a, f) + ApplyAll(b, f)
  {
    if b == [] {
      assert a + b == a;
    } else {
      assert (a + b)[..|a + b| - 1] == a + b[..|b| - 1];
      ApplyAllConcat(a, b[..|b| - 1], f);
    }
  }

  lemma {:induction false} ApplyAllPermutation<T, U>(a: seq<T>, b: seq<T>, f: T -> U)
    requires multiset(a) == multiset(b)
    ensures multiset(ApplyAll(a, f)) == multiset(ApplyAll(b, f))
  {
    if a == [] {
      assert multiset(b) == multiset{};
      assert |b| == 0;
    } else {
      var n := |a| - 1;
      var i := WhereLastIs(a, b);
      var rest := b[..i] + b[i + 1..];
      ApplyAllPermutation(a[..n], rest, f);
      ApplyAllRemove(b, f, i);
    }
  }

  lemma ApplyAllAppend<T, U>(a: seq<T>, x: T, f: T -> U)
    ensures ApplyAll(a + [x], f) == ApplyAll(a, f) + [f(x)]
  {
    assert (a + [x])[..|a|] == a;
  }

  lemma SplitAt<T>(s: seq<T>, i: nat)
    requires i < |s|
    ensures s == s[..i] + [s[i]] + s[i + 1..]
  {
  }

  lemma ApplyAllSplit<T, U>(s: seq<T>, f: T -> U, i: nat)
    requires i < |s|
    ensures ApplyAll(s, f) == ApplyAll(s[..i], f) + [f(s[i])] + ApplyAll(s[i + 1..], f)
  {
    var front, after := s[..i] + [s[i]], s[i + 1..];
    SplitAt(s, i);
    ApplyAllConcat(front, after, f);
    ApplyAllAppend(s[..i], s[i], f);
    assert ApplyAll(s, f) == ApplyAll(front, f) + ApplyAll(after, f);
  }

  lemma ApplyAllRemove<T, U>(s: seq<T>, f: T -> U, i: nat)
    requires i < |s|
    ensures multiset(ApplyAll(s, f)) == multiset(ApplyAll(s[..i] + s[i + 1..], f)) + multiset{f(s[i])}
  {
    ApplyAllSplit(s, f, i);
    ApplyAllConcat(s[..i], s[i + 1..], f);
    MultisetOfMiddle(ApplyAll(s[..i], f), f(s[i]), ApplyAll(s[i + 1..], f));
  }

  lemma MultisetOfRest<T>(s: seq<T>, i: nat)
    requires i < |s|
    ensures multiset(s) == multiset(s[..i] + s[i + 1..]) + multiset{s[i]}
  {
    SplitAt(s, i);
    MultisetOfMiddle(s[..i], s[i], s[i + 1..]);
  }

  lemma MultisetOfMiddle<T>(a: seq<T>, x: T, b: seq<T>)
    ensures multiset(a + [x] + b) == multiset(a + b) + multiset{x}
  {
  }
}
