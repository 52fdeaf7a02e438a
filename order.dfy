/**
 * Python's ordering of `str` values (code point by code point, a proper prefix
 * first) and `sorted` on lists of strings.
 */
module Order {

  /** `a < b` on Python strings. */
  predicate Lt(a: string, b: string)
    decreases |a|
  {
    if |a| == 0 then |b| > 0
    else if |b| == 0 then false
    else a[0] < b[0] || (a[0] == b[0] && Lt(a[1..], b[1..]))
  }

  predicate Le(a: string, b: string) {
    a == b || Lt(a, b)
  }

  lemma {:induction false} LtIrreflexive(a: string)
    ensures !Lt(a, a)
    decreases |a|
  {
    if |a| > 0 {
      LtIrreflexive(a[1..]);
    }
  }

  lemma {:induction false} LtTransitive(a: string, b: string, c: string)
    requires Lt(a, b) && Lt(b, c)
    ensures Lt(a, c)
    decreases |a|
  {
    if |a| > 0 && a[0] == b[0] && b[0] == c[0] {
      LtTransitive(a[1..], b[1..], c[1..]);
    }
  }

  /** Two different strings are ordered one way or the other. */
  lemma {:induction false} LtTotal(a: string, b: string)
    requires a != b
    ensures Lt(a, b) || Lt(b, a)
    decreases |a|
  {
    if |a| > 0 && |b| > 0 && a[0] == b[0] {
      assert a == [a[0]] + a[1..] && b == [b[0]] + b[1..];
      LtTotal(a[1..], b[1..]);
    }
  }

  lemma LtAsymmetric(a: string, b: string)
    requires Lt(a, b)
    ensures !Lt(b, a)
  {
    if Lt(b, a) {
      LtTransitive(a, b, a);
      LtIrreflexive(a);
    }
  }

  lemma LeTransitive(a: string, b: string, c: string)
    requires Le(a, b) && Le(b, c)
    ensures Le(a, c)
  {
    if a != b && b != c {
      LtTransitive(a, b, c);
    }
  }

  predicate Sorted(s: seq<string>) {
    forall i, j :: 0 <= i < j < |s| ==> Le(s[i], s[j])
  }

  predicate StrictlySorted(s: seq<string>) {
    forall i, j :: 0 <= i < j < |s| ==> Lt(s[i], s[j])
  }

  /** Insert `x` into a sorted list before the first element greater than it. */
  function Insert(x: string, s: seq<string>): seq<string> {
    if |s| == 0 then [x]
    else if Le(x, s[0]) then [x] + s
    else [s[0]] + Insert(x, s[1..])
  }

  /** `sorted(s)`: insertion sort (as Python's sort, stable; for strings stability is invisible). */
  function Sort(s: seq<string>): seq<string> {
    if |s| == 0 then [] else Insert(s[0], Sort(s[1..]))
  }

  lemma {:induction false} InsertPermutes(x: string, s: seq<string>)
    ensures multiset(Insert(x, s)) == multiset(s) + multiset{x}
    ensures |Insert(x, s)| == |s| + 1
    decreases |s|
  {
    if |s| > 0 && !Le(x, s[0]) {
      InsertPermutes(x, s[1..]);
      assert s == [s[0]] + s[1..];
    }
  }

  lemma {:induction false} InsertSorted(x: string, s: seq<string>)
    requires Sorted(s)
    ensures Sorted(Insert(x, s))
    decreases |s|
  {
    if |s| > 0 && !Le(x, s[0]) {
      var t := s[1..];
      InsertSorted(x, t);
      InsertPermutes(x, t);
      var r := Insert(x, t);
      LtTotal(x, s[0]);
      forall j | 0 <= j < |r| ensures Le(s[0], r[j]) {
        assert r[j] in multiset(r);
        if r[j] != x {
          assert r[j] in multiset(t);
          var i :| 0 <= i < |t| && t[i] == r[j];
          assert s[i + 1] == r[j];
        }
      }
    } else if |s| > 0 {
      forall j | 0 < j < |s| + 1 ensures Le(x, ([x] + s)[j]) {
        LeTransitive(x, s[0], s[j - 1]);
      }
    }
  }

  lemma InsertProperties(x: string, s: seq<string>)
    requires Sorted(s)
    ensures Sorted(Insert(x, s))
    ensures multiset(Insert(x, s)) == multiset(s) + multiset{x}
    ensures |Insert(x, s)| == |s| + 1
  {
    InsertSorted(x, s);
    InsertPermutes(x, s);
  }

  /** `sorted(s)` is sorted and a permutation of `s`. */
  lemma {:induction false} SortProperties(s: seq<string>)
    ensures Sorted(Sort(s)) && multiset(Sort(s)) == multiset(s) && |Sort(s)| == |s|
  {
    if |s| > 0 {
      SortProperties(s[1..]);
      InsertProperties(s[0], Sort(s[1..]));
      assert s == [s[0]] + s[1..];
    }
  }

  /** A sorted list without duplicates is strictly sorted. */
  lemma SortedDistinctIsStrict(s: seq<string>)
    requires Sorted(s) && forall i, j :: 0 <= i < j < |s| ==> s[i] != s[j]
    ensures StrictlySorted(s)
  {
  }

  lemma LeAntisymmetric(a: string, b: string)
    requires Le(a, b) && Le(b, a)
    ensures a == b
  {
    if a != b {
      LtAsymmetric(a, b);
    }
  }

  /** The head of a strictly sorted list is its least element. */
  lemma HeadIsLeast(s: seq<string>, x: string)
    requires StrictlySorted(s) && x in s
    ensures Le(s[0], x)
  {
    var i :| 0 <= i < |s| && s[i] == x;
  }

  /** A strictly sorted list is determined by its elements: `sorted(set(...))` is unique. */
  lemma {:induction false} StrictlySortedUnique(a: seq<string>, b: seq<string>)
    requires StrictlySorted(a) && StrictlySorted(b)
    requires forall x :: x in a <==> x in b
    ensures a == b
    decreases |a|
  {
    assert |a| > 0 ==> a[0] in b;
    assert |b| > 0 ==> b[0] in a;
    if |a| > 0 && |b| > 0 {
      HeadIsLeast(a, b[0]);
      HeadIsLeast(b, a[0]);
      LeAntisymmetric(a[0], b[0]);
      var a', b' := a[1..], b[1..];
      LtIrreflexive(a[0]);
      forall x ensures x in a' <==> x in b' {
        if x in a' {
          var i :| 0 <= i < |a'| && a'[i] == x;
          assert a[i + 1] == x && x in b;
        }
        if x in b' {
          var i :| 0 <= i < |b'| && b'[i] == x;
          assert b[i + 1] == x && x in a;
        }
      }
      StrictlySortedUnique(a', b');
      assert a == [a[0]] + a' && b == [b[0]] + b';
    }
  }

  // ---------------------------------------------------------------------------
  // `sorted(s, key=...)` with a string key

  predicate SortedBy<T>(s: seq<T>, key: T -> string) {
    forall i, j :: 0 <= i < j < |s| ==> Le(key(s[i]), key(s[j]))
  }

  /** Insert `x` before the first element whose key is not less than its own. */
  function InsertBy<T>(x: T, s: seq<T>, key: T -> string): seq<T> {
    if |s| == 0 then [x]
    else if Le(key(x), key(s[0])) then [x] + s
    else [s[0]] + InsertBy(x, s[1..], key)
  }

  /** `sorted(s, key=key)`: insertion sort, stable like Python's. */
  function SortBy<T>(s: seq<T>, key: T -> string): seq<T> {
    if |s| == 0 then [] else InsertBy(s[0], SortBy(s[1..], key), key)
  }

  /** The elements of `s` whose key is `k`, in order. */
  function WithKey<T>(s: seq<T>, key: T -> string, k: string): seq<T> {
    if |s| == 0 then []
    else (if key(s[0]) == k then [s[0]] else []) + WithKey(s[1..], key, k)
  }

  lemma {:induction false} InsertByPermutes<T>(x: T, s: seq<T>, key: T -> string)
    ensures multiset(InsertBy(x, s, key)) == multiset(s) + multiset{x}
    ensures |InsertBy(x, s, key)| == |s| + 1
    decreases |s|
  {
    if |s| > 0 && !Le(key(x), key(s[0])) {
      InsertByPermutes(x, s[1..], key);
      assert s == [s[0]] + s[1..];
    }
  }

  lemma {:induction false} InsertBySorted<T>(x: T, s: seq<T>, key: T -> string)
    requires SortedBy(s, key)
    ensures SortedBy(InsertBy(x, s, key), key)
    decreases |s|
  {
    if |s| > 0 && !Le(key(x), key(s[0])) {
      var t := s[1..];
      InsertBySorted(x, t, key);
      InsertByPermutes(x, t, key);
      var r := InsertBy(x, t, key);
      LtTotal(key(x), key(s[0]));
      forall j | 0 <= j < |r| ensures Le(key(s[0]), key(r[j])) {
        assert r[j] in multiset(r);
        if r[j] != x {
          assert r[j] in multiset(t);
          var i :| 0 <= i < |t| && t[i] == r[j];
          assert s[i + 1] == r[j];
        }
      }
    } else if |s| > 0 {
      forall j | 0 < j < |s| + 1 ensures Le(key(x), key(([x] + s)[j])) {
        LeTransitive(key(x), key(s[0]), key(s[j - 1]));
      }
    }
  }

  /** Inserting `x` puts it in front of the other elements with its key. */
  lemma {:induction false} InsertByStable<T>(x: T, s: seq<T>, key: T -> string, k: string)
    requires SortedBy(s, key)
    ensures WithKey(InsertBy(x, s, key), key, k) == (if key(x) == k then [x] else []) + WithKey(s, key, k)
    decreases |s|
  {
    if |s| > 0 && !Le(key(x), key(s[0])) {
      InsertByStable(x, s[1..], key, k);
      if key(x) == k {
        assert key(s[0]) != k;
      }
    }
  }

  /** `sorted(s, key=key)` is sorted by key and a permutation of `s`. */
  lemma {:induction false} SortByProperties<T>(s: seq<T>, key: T -> string)
    ensures SortedBy(SortBy(s, key), key)
    ensures multiset(SortBy(s, key)) == multiset(s) && |SortBy(s, key)| == |s|
  {
    if |s| > 0 {
      SortByProperties(s[1..], key);
      InsertBySorted(s[0], SortBy(s[1..], key), key);
      InsertByPermutes(s[0], SortBy(s[1..], key), key);
      assert s == [s[0]] + s[1..];
    }
  }

  /** The sort is stable: the elements sharing a key keep their input order. */
  lemma {:induction false} SortByStable<T>(s: seq<T>, key: T -> string, k: string)
    ensures WithKey(SortBy(s, key), key, k) == WithKey(s, key, k)
  {
    if |s| > 0 {
      SortByStable(s[1..], key, k);
      SortByProperties(s[1..], key);
      InsertByStable(s[0], SortBy(s[1..], key), key, k);
    }
  }
}
