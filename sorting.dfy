/**
 * Python's `sorted(xs, reverse=True, key=key)` over sequences: a stable sort into
 * descending key order. Both engines rank their matches with it.
 */
module Sorting {

  /** Puts `x` in front of the first element of `s` whose key is not above the key of `x`. */
  function InsertDesc<T>(x: T, s: seq<T>, key: T -> real): (r: seq<T>)
    ensures multiset(r) == multiset(s) + multiset{x}
    ensures |r| == |s| + 1
  {
    if s == [] || key(x) >= key(s[0]) then [x] + s
    else
      assert s == [s[0]] + s[1..];
      [s[0]] + InsertDesc(x, s[1..], key)
  }

  /**
   * Descending by `key`; elements with equal keys keep their relative order (Python's
   * sort is stable, and `reverse=True` keeps that stability).
   */
  function SortDesc<T>(xs: seq<T>, key: T -> real): (r: seq<T>)
    ensures multiset(r) == multiset(xs)
    ensures |r| == |xs|
  {
    if xs == [] then []
    else
      assert xs == [xs[0]] + xs[1..];
      InsertDesc(xs[0], SortDesc(xs[1..], key), key)
  }

  predicate SortedDesc<T>(s: seq<T>, key: T -> real) {
    forall i, j | 0 <= i < j < |s| :: key(s[i]) >= key(s[j])
  }

  /** `a` ranks no lower than `b` by `major` descending, then `minor` descending. */
  predicate AtLeastLex<T>(a: T, b: T, major: T -> real, minor: T -> real) {
    major(a) > major(b) || (major(a) == major(b) && minor(a) >= minor(b))
  }

  predicate SortedLex<T>(s: seq<T>, major: T -> real, minor: T -> real) {
    forall i, j | 0 <= i < j < |s| :: AtLeastLex(s[i], s[j], major, minor)
  }

  /** The elements of `s` whose key is `k`, in their order in `s`. */
  function KeyClass<T>(s: seq<T>, key: T -> real, k: real): seq<T> {
    if s == [] then []
    else (if key(s[0]) == k then [s[0]] else []) + KeyClass(s[1..], key, k)
  }

  lemma InSeqInMultiset<T>(s: seq<T>, j: int)
    requires 0 <= j < |s|
    ensures s[j] in multiset(s)
  {
  }

  lemma {:induction false} InsertDescSorted<T>(x: T, s: seq<T>, key: T -> real)
    requires SortedDesc(s, key)
    ensures SortedDesc(InsertDesc(x, s, key), key)
  {
    var r := InsertDesc(x, s, key);
    if s == [] || key(x) >= key(s[0]) {
    } else {
      var t := InsertDesc(x, s[1..], key);
      InsertDescSorted(x, s[1..], key);
      forall j | 0 <= j < |t| ensures key(s[0]) >= key(t[j]) {
        InSeqInMultiset(t, j);
        assert t[j] in multiset(s[1..]) + multiset{x};
        if t[j] in multiset(s[1..]) {
          var m :| 0 <= m < |s[1..]| && s[1..][m] == t[j];
          assert s[m + 1] == t[j];
        }
      }
      assert r == [s[0]] + t;
    }
  }

  /** The result of `SortDesc` is in descending key order. */
  lemma {:induction false} SortDescSorted<T>(xs: seq<T>, key: T -> real)
    ensures SortedDesc(SortDesc(xs, key), key)
  {
    if xs != [] {
      SortDescSorted(xs[1..], key);
      InsertDescSorted(xs[0], SortDesc(xs[1..], key), key);
    }
  }

  lemma {:induction false} InsertDescLex<T>(x: T, s: seq<T>, major: T -> real, minor: T -> real)
    requires SortedLex(s, major, minor)
    requires forall y | y in s :: minor(x) >= minor(y)
    ensures SortedLex(InsertDesc(x, s, major), major, minor)
  {
    if s == [] || major(x) >= major(s[0]) {
      var r := [x] + s;
      assert s != [] ==> minor(x) >= minor(s[0]) by { if s != [] { assert s[0] in s; } }
      forall j | 0 < j < |r| ensures AtLeastLex(r[0], r[j], major, minor) {
        assert r[j] in s;
        if j > 1 { assert AtLeastLex(s[0], s[j - 1], major, minor); }
      }
    } else {
      var t := InsertDesc(x, s[1..], major);
      forall y | y in s[1..] ensures minor(x) >= minor(y) { assert y in s; }
      InsertDescLex(x, s[1..], major, minor);
      var r := [s[0]] + t;
      forall j | 0 <= j < |t| ensures AtLeastLex(s[0], t[j], major, minor) {
        InSeqInMultiset(t, j);
        if t[j] in multiset(s[1..]) {
          var m :| 0 <= m < |s[1..]| && s[1..][m] == t[j];
          assert s[m + 1] == t[j];
        }
      }
      assert InsertDesc(x, s, major) == r;
    }
  }

  /**
   * Sorting, by `major`, a sequence already sorted by `minor` gives order by `major`
   * descending with ties broken by `minor` descending: the reason two stable sorts
   * in a row rank by a pair of keys.
   */
  lemma {:induction false} SortDescLex<T>(xs: seq<T>, major: T -> real, minor: T -> real)
    requires SortedDesc(xs, minor)
    ensures SortedLex(SortDesc(xs, major), major, minor)
  {
    if xs != [] {
      var rest := SortDesc(xs[1..], major);
      SortDescLex(xs[1..], major, minor);
      forall y | y in rest ensures minor(xs[0]) >= minor(y) {
        assert y in multiset(xs[1..]);
        var m :| 0 <= m < |xs[1..]| && xs[1..][m] == y;
        assert xs[m + 1] == y;
      }
      InsertDescLex(xs[0], rest, major, minor);
    }
  }

  lemma KeyClassCons<T>(y: T, r: seq<T>, key: T -> real, k: real)
    ensures KeyClass([y] + r, key, k) == (if key(y) == k then [y] else []) + KeyClass(r, key, k)
  {
    assert ([y] + r)[0] == y && ([y] + r)[1..] == r;
  }

  lemma {:induction false} InsertDescKeyClass<T>(x: T, s: seq<T>, key: T -> real, k: real)
    ensures KeyClass(InsertDesc(x, s, key), key, k)
         == (if key(x) == k then [x] else []) + KeyClass(s, key, k)
  {
    if s == [] || key(x) >= key(s[0]) {
      KeyClassCons(x, s, key, k);
    } else {
      var hx := if key(x) == k then [x] else [];
      var h0 := if key(s[0]) == k then [s[0]] else [];
      InsertDescKeyClass(x, s[1..], key, k);
      KeyClassCons(s[0], InsertDesc(x, s[1..], key), key, k);
      assert KeyClass(s, key, k) == h0 + KeyClass(s[1..], key, k);
      assert hx == [] || h0 == [];
    }
  }

  /** Stability: the elements with any one key come out in the order they went in. */
  lemma {:induction false} SortDescStable<T>(xs: seq<T>, key: T -> real, k: real)
    ensures KeyClass(SortDesc(xs, key), key, k) == KeyClass(xs, key, k)
  {
    if xs != [] {
      SortDescStable(xs[1..], key, k);
      InsertDescKeyClass(xs[0], SortDesc(xs[1..], key), key, k);
    }
  }
}
