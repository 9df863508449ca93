/**
 * Stable sorting by a key, the model of Kotlin's `sortedBy`, `sortBy` and
 * `sortedWith(compareBy(...))`, all of which are stable. Keys are integer
 * sequences compared lexicographically: a date is `[year, month, day]`, a
 * (year, month) pair is `[year, month]`, a string is its character codes
 * (Kotlin's `String.compareTo`, a shorter prefix first).
 */
module Sorting {

  // ---------------------------------------------------------------- lexicographic order

  predicate LexLe(a: seq<int>, b: seq<int>)
  {
    if a == [] then true
    else if b == [] then false
    else if a[0] != b[0] then a[0] < b[0]
    else LexLe(a[1..], b[1..])
  }

  lemma {:induction false} LexLeReflexive(a: seq<int>)
    ensures LexLe(a, a)
  {
    if a != [] { LexLeReflexive(a[1..]); }
  }

  lemma {:induction false} LexLeTotal(a: seq<int>, b: seq<int>)
    ensures LexLe(a, b) || LexLe(b, a)
  {
    if a != [] && b != [] && a[0] == b[0] { LexLeTotal(a[1..], b[1..]); }
  }

  lemma {:induction false} LexLeAntisymmetric(a: seq<int>, b: seq<int>)
    requires LexLe(a, b) && LexLe(b, a)
    ensures a == b
  {
    if a != [] && b != [] {
      LexLeAntisymmetric(a[1..], b[1..]);
      assert a == [a[0]] + a[1..] && b == [b[0]] + b[1..];
    }
  }

  lemma {:induction false} LexLeTransitive(a: seq<int>, b: seq<int>, c: seq<int>)
    requires LexLe(a, b) && LexLe(b, c)
    ensures LexLe(a, c)
  {
    if a != [] && b != [] && c != [] && a[0] == b[0] && b[0] == c[0] {
      LexLeTransitive(a[1..], b[1..], c[1..]);
    }
  }

  /** The key of a string: its character codes. */
  function StringKey(s: string): (k: seq<int>)
    ensures |k| == |s| && forall i :: 0 <= i < |s| ==> k[i] == s[i] as int
  {
    if s == [] then [] else [s[0] as int] + StringKey(s[1..])
  }

  // ---------------------------------------------------------------- sortedness, stability

  ghost predicate SortedBy<T>(s: seq<T>, key: T -> seq<int>)
  {
    forall i, j :: 0 <= i < j < |s| ==> LexLe(key(s[i]), key(s[j]))
  }

  /** The elements with key `k`, in their order in `s`. */
  function WithKey<T>(s: seq<T>, key: T -> seq<int>, k: seq<int>): seq<T>
  {
    if s == [] then [] else (if key(s[0]) == k then [s[0]] else []) + WithKey(s[1..], key, k)
  }

  /**
   * `r` keeps the relative order of every group of equal-key elements of `s`; together
   * with the same length this also makes `r` a permutation of `s`.
   */
  ghost predicate StableFor<T>(s: seq<T>, r: seq<T>, key: T -> seq<int>)
  {
    forall k :: WithKey(r, key, k) == WithKey(s, key, k)
  }

  // ---------------------------------------------------------------- insertion sort

  /** Insert `x` before the first element whose key is not smaller than its own. */
  function Insert<T>(x: T, s: seq<T>, key: T -> seq<int>): (r: seq<T>)
    ensures multiset(r) == multiset(s) + multiset{x} && |r| == |s| + 1
  {
    if s == [] || LexLe(key(x), key(s[0])) then [x] + s
    else
      assert s == [s[0]] + s[1..];
      [s[0]] + Insert(x, s[1..], key)
  }

  lemma {:induction false} InsertSorted<T>(x: T, s: seq<T>, key: T -> seq<int>)
    requires SortedBy(s, key)
    ensures SortedBy(Insert(x, s, key), key)
  {
    var r := Insert(x, s, key);
    if s == [] || LexLe(key(x), key(s[0])) {
      forall i, j | 0 <= i < j < |r| ensures LexLe(key(r[i]), key(r[j])) {
        if i == 0 && j > 1 { LexLeTransitive(key(x), key(s[0]), key(s[j - 1])); }
      }
    } else {
      var t := Insert(x, s[1..], key);
      assert SortedBy(s[1..], key);
      InsertSorted(x, s[1..], key);
      LexLeTotal(key(x), key(s[0]));
      forall i, j | 0 <= i < j < |r| ensures LexLe(key(r[i]), key(r[j])) {
        if i == 0 {
          assert r[j] == t[j - 1];
          assert t[j - 1] in multiset(s[1..]) + multiset{x};
          if t[j - 1] != x {
            var m :| 0 <= m < |s[1..]| && s[1..][m] == t[j - 1];
            assert s[m + 1] == r[j];
          }
        } else {
          assert r[i] == t[i - 1] && r[j] == t[j - 1];
        }
      }
    }
  }

  lemma {:induction false} InsertWithKey<T>(x: T, s: seq<T>, key: T -> seq<int>, k: seq<int>)
    ensures WithKey(Insert(x, s, key), key, k) == (if key(x) == k then [x] else []) + WithKey(s, key, k)
  {
    var r := Insert(x, s, key);
    if s == [] || LexLe(key(x), key(s[0])) {
      assert r[1..] == s;
    } else {
      InsertWithKey(x, s[1..], key, k);
      LexLeReflexive(key(x));
      assert key(s[0]) != key(x);
      assert r[1..] == Insert(x, s[1..], key);
    }
  }

  /**
   * A stable sort of `s` by `key`: the result is ordered by key, is a permutation of `s`,
   * and keeps the input order among elements with equal keys.
   */
  function SortBy<T>(s: seq<T>, key: T -> seq<int>): (r: seq<T>)
    ensures |r| == |s| && multiset(r) == multiset(s)
    ensures SortedBy(r, key)
    ensures StableFor(s, r, key)
  {
    if s == [] then []
    else
      var t := SortBy(s[1..], key);
      assert s == [s[0]] + s[1..];
      InsertSorted(s[0], t, key);
      assert StableFor(s, Insert(s[0], t, key), key) by {
        forall k ensures WithKey(Insert(s[0], t, key), key, k) == WithKey(s, key, k) {
          InsertWithKey(s[0], t, key, k);
        }
      }
      Insert(s[0], t, key)
  }

  // ---------------------------------------------------------------- consequences

  lemma InSorted<T>(s: seq<T>, key: T -> seq<int>, x: T)
    ensures x in SortBy(s, key) <==> x in s
  {
    assert x in multiset(SortBy(s, key)) <==> x in multiset(s);
  }

  /** Two distinct positions with the same key both show up in `WithKey`. */
  lemma {:induction false} TwoWithKey<T>(s: seq<T>, key: T -> seq<int>, i: int, j: int)
    requires 0 <= i < j < |s|
    ensures key(s[i]) == key(s[j]) ==> |WithKey(s, key, key(s[i]))| >= 2
  {
    if i == 0 {
      OneWithKey(s[1..], key, j - 1);
    } else {
      TwoWithKey(s[1..], key, i - 1, j - 1);
    }
  }

  lemma {:induction false} OneWithKey<T>(s: seq<T>, key: T -> seq<int>, i: int)
    requires 0 <= i < |s|
    ensures |WithKey(s, key, key(s[i]))| >= 1
  {
    if i > 0 { OneWithKey(s[1..], key, i - 1); }
  }

  lemma {:induction false} NoneWithKey<T>(s: seq<T>, key: T -> seq<int>, k: seq<int>)
    requires forall i :: 0 <= i < |s| ==> key(s[i]) != k
    ensures WithKey(s, key, k) == []
  {
    if s != [] { NoneWithKey(s[1..], key, k); }
  }

  lemma {:induction false} AtMostOneWithKey<T>(s: seq<T>, key: T -> seq<int>, k: seq<int>)
    requires forall i, j :: 0 <= i < j < |s| ==> key(s[i]) != key(s[j])
    ensures |WithKey(s, key, k)| <= 1
  {
    if s != [] {
      if key(s[0]) == k {
        NoneWithKey(s[1..], key, k);
      } else {
        AtMostOneWithKey(s[1..], key, k);
      }
    }
  }

  /** Sorting a sequence whose keys are pairwise different gives strictly increasing keys. */
  lemma SortDistinctKeys<T>(s: seq<T>, key: T -> seq<int>)
    requires forall i, j :: 0 <= i < j < |s| ==> key(s[i]) != key(s[j])
    ensures var r := SortBy(s, key);
      forall i, j :: 0 <= i < j < |r| ==> key(r[i]) != key(r[j]) && LexLe(key(r[i]), key(r[j]))
  {
    var r := SortBy(s, key);
    forall i, j | 0 <= i < j < |r| ensures key(r[i]) != key(r[j]) {
      TwoWithKey(r, key, i, j);
      AtMostOneWithKey(s, key, key(r[i]));
      assert WithKey(r, key, key(r[i])) == WithKey(s, key, key(r[i]));
    }
  }

  /** A sorted sequence is its own stable sort. */
  lemma {:induction false} SortSorted<T>(s: seq<T>, key: T -> seq<int>)
    requires SortedBy(s, key)
    ensures SortBy(s, key) == s
  {
    if s != [] {
      assert SortedBy(s[1..], key);
      SortSorted(s[1..], key);
      assert s[1..] == [] || LexLe(key(s[0]), key(s[1..][0]));
    }
  }
}
