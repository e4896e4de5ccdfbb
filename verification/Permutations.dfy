/** Permutations of the index range 0..n, used for sort orders and for name bijections. */
module Permutations {

  ghost predicate Distinct<T(!new)>(s: seq<T>) {
    forall i, j :: 0 <= i < j < |s| ==> s[i] != s[j]
  }

  predicate InRange(s: seq<nat>, n: nat) {
    forall i :: 0 <= i < |s| ==> s[i] < n
  }

  ghost predicate IsPermutation(s: seq<nat>, n: nat) {
    |s| == n && InRange(s, n) && Distinct(s)
  }

  ghost function Indices(n: nat): (r: set<nat>)
    ensures forall i: nat :: i in r <==> i < n
  {
    if n == 0 then {} else Indices(n - 1) + {n - 1}
  }

  lemma {:induction false} IndicesSize(n: nat)
    ensures |Indices(n)| == n
  {
    if n > 0 {
      IndicesSize(n - 1);
    }
  }

  ghost predicate Within(s: set<nat>, n: nat) {
    forall i :: i in s ==> i < n
  }

  ghost function Elements<T(!new)>(s: seq<T>): set<T> {
    set x | x in s
  }

  lemma {:induction false} DistinctSize<T(!new)>(s: seq<T>)
    requires Distinct(s)
    ensures |Elements(s)| == |s|
  {
    if s == [] {
      assert Elements(s) == {};
    } else {
      var n := |s| - 1;
      DistinctSize(s[..n]);
      assert s == s[..n] + [s[n]];
      assert Elements(s) == Elements(s[..n]) + {s[n]};
      assert s[n] !in s[..n];
    }
  }

  lemma SubsetSameSize<T>(a: set<T>, b: set<T>)
    requires a <= b && |a| == |b|
    ensures a == b
  {
    assert b == a + (b - a);
    assert |b - a| == 0;
  }

  lemma SubsetSize<T>(a: set<T>, b: set<T>)
    requires a <= b
    ensures |a| <= |b|
  {
    assert b == a + (b - a);
  }

  /** An injection of 0..n into itself reaches every index. */
  lemma Surjective(s: seq<nat>, n: nat)
    requires IsPermutation(s, n)
    ensures forall i :: 0 <= i < n ==> i in s
  {
    DistinctSize(s);
    IndicesSize(n);
    SubsetSameSize(Elements(s), Indices(n));
    forall i | 0 <= i < n ensures i in s {
      assert i in Indices(n);
      assert i in Elements(s);
    }
  }

  /** Having no repeated element is a property of the multiset of elements. */
  lemma DistinctTransfers<T(!new)>(s: seq<T>, t: seq<T>)
    requires multiset(s) == multiset(t)
    requires Distinct(s)
    ensures Distinct(t)
  {
    forall i, j | 0 <= i < j < |t| ensures t[i] != t[j] {
      if t[i] == t[j] {
        var x := t[j];
        assert t == t[..j] + ([x] + t[j + 1..]);
        assert t[..j][i] == x;
        assert multiset(t)[x] >= 2;
        DistinctCountsOnce(s, x);
      }
    }
  }

  lemma {:induction false} DistinctCountsOnce<T(!new)>(s: seq<T>, x: T)
    requires Distinct(s)
    ensures multiset(s)[x] <= 1
  {
    if s != [] {
      var n := |s| - 1;
      DistinctCountsOnce(s[..n], x);
      assert s == s[..n] + [s[n]];
      if s[n] == x {
        assert x !in s[..n];
      }
    }
  }

  lemma MultisetWithout<T>(s: seq<T>, i: nat)
    requires i < |s|
    ensures multiset(s) == multiset(s[..i] + s[i + 1..]) + multiset{s[i]}
  {
    assert s == s[..i] + [s[i]] + s[i + 1..];
  }

  lemma CancelOne<T>(a: multiset<T>, b: multiset<T>, x: T)
    requires a + multiset{x} == b + multiset{x}
    ensures a == b
  {
    assert a == (a + multiset{x}) - multiset{x};
    assert b == (b + multiset{x}) - multiset{x};
  }

  /** Two sequences with the same elements stay so when one shared element is taken out of each. */
  lemma RemoveShared<T>(a: seq<T>, b: seq<T>) returns (i: nat)
    requires a != [] && multiset(a) == multiset(b)
    ensures i < |b| && b[i] == a[|a| - 1]
    ensures multiset(a[..|a| - 1]) == multiset(b[..i] + b[i + 1..])
  {
    var n := |a| - 1;
    assert a == a[..n] + [a[n]];
    assert a[n] in multiset(b);
    i :| 0 <= i < |b| && b[i] == a[n];
    MultisetWithout(b, i);
    MultisetWithout(a, n);
    assert a[..n] + a[n + 1..] == a[..n];
    CancelOne(multiset(a[..n]), multiset(b[..i] + b[i + 1..]), a[n]);
  }
}
