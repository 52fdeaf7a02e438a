/** Sequence helpers: duplicate-free sequences and first-occurrence order (Python dict keys). */
module Seqs {

  predicate NoDuplicates<T(==)>(s: seq<T>) {
    forall i, j :: 0 <= i < j < |s| ==> s[i] != s[j]
  }

  /** The elements of `s` in order of first occurrence: the keys of `{x: ... for x in s}`. */
  function Distinct<T(==)>(s: seq<T>): (r: seq<T>)
    ensures NoDuplicates(r)
    ensures |r| <= |s|
  {
    if |s| == 0 then []
    else
      var r0 := Distinct(s[..|s| - 1]);
      var x := s[|s| - 1];
      if x in r0 then r0 else r0 + [x]
  }

  /** Number of occurrences of `x` in `s`. */
  function Count<T(==)>(s: seq<T>, x: T): nat {
    if |s| == 0 then 0 else Count(s[..|s| - 1], x) + (if s[|s| - 1] == x then 1 else 0)
  }

  lemma {:induction false} CountAppend<T>(a: seq<T>, b: seq<T>, x: T)
    ensures Count(a + b, x) == Count(a, x) + Count(b, x)
    decreases |b|
  {
    if |b| > 0 {
      assert (a + b)[..|a + b| - 1] == a + b[..|b| - 1];
      CountAppend(a, b[..|b| - 1], x);
    } else {
      assert a + b == a;
    }
  }

  lemma {:induction false} CountZeroIffAbsent<T>(s: seq<T>, x: T)
    ensures Count(s, x) == 0 <==> x !in s
  {
    if |s| > 0 {
      CountZeroIffAbsent(s[..|s| - 1], x);
      assert s == s[..|s| - 1] + [s[|s| - 1]];
    }
  }

  /** A duplicate-free sequence holds each of its elements exactly once. */
  lemma {:induction false} NoDuplicatesCount<T>(s: seq<T>, x: T)
    requires NoDuplicates(s) && x in s
    ensures Count(s, x) == 1
  {
    var k := |s| - 1;
    if s[k] == x {
      assert x !in s[..k];
      CountZeroIffAbsent(s[..k], x);
    } else {
      assert x in s[..k];
      NoDuplicatesCount(s[..k], x);
    }
  }

  /** `Distinct(s)` has exactly the elements of `s`. */
  lemma {:induction false} DistinctSameElements<T>(s: seq<T>)
    ensures forall x :: x in Distinct(s) <==> x in s
  {
    if |s| > 0 {
      var k := |s| - 1;
      DistinctSameElements(s[..k]);
      assert s == s[..k] + [s[k]];
    }
  }

  /** Each element of a duplicate-free sequence occurs once in its multiset. */
  lemma {:induction false} NoDuplicatesMultiset<T>(s: seq<T>, x: T)
    requires NoDuplicates(s)
    ensures multiset(s)[x] <= 1
  {
    if |s| > 0 {
      var t := s[1..];
      NoDuplicatesMultiset(t, x);
      assert s == [s[0]] + t;
      if s[0] == x {
        assert x !in t;
      }
    }
  }

  /** A permutation of a duplicate-free sequence is duplicate-free. */
  lemma PermutationNoDuplicates<T>(a: seq<T>, b: seq<T>)
    requires NoDuplicates(a) && multiset(a) == multiset(b)
    ensures NoDuplicates(b)
  {
    forall i, j | 0 <= i < j < |b| ensures b[i] != b[j] {
      if b[i] == b[j] {
        var x := b[i];
        assert b == b[..j] + [b[j]] + b[j + 1..];
        assert x in b[..j];
        assert multiset(b)[x] >= 2;
        NoDuplicatesMultiset(a, x);
      }
    }
  }
}
