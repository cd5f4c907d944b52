/**
 * The two list operations the catalog query is built from: a boolean mask
 * that keeps the selected rows in their order (pandas' `df[mask]`), and a
 * sort by a string key in Python's code-point order (`sorted`,
 * `sort_values`).
 */
module Sequences {
  import opened Text

  /** The elements of `xs` for which `m` holds, in their original order. */
  function Keep<T>(xs: seq<T>, m: T -> bool): (r: seq<T>)
    ensures |r| <= |xs|
    ensures forall k :: 0 <= k < |r| ==> m(r[k])
  {
    if xs == [] then []
    else if m(xs[0]) then [xs[0]] + Keep(xs[1..], m)
    else Keep(xs[1..], m)
  }

  /** `Keep` keeps every occurrence of a selected value and none of the others. */
  lemma {:induction false} KeepCount<T>(xs: seq<T>, m: T -> bool, x: T)
    ensures multiset(Keep(xs, m))[x] == if m(x) then multiset(xs)[x] else 0
  {
    if xs != [] {
      KeepCount(xs[1..], m, x);
      assert xs == [xs[0]] + xs[1..];
    }
  }

  /** Two masks that agree on every element of `xs` keep the same elements. */
  lemma {:induction false} KeepAgreeing<T>(xs: seq<T>, m1: T -> bool, m2: T -> bool)
    requires forall k :: 0 <= k < |xs| ==> m1(xs[k]) == m2(xs[k])
    ensures Keep(xs, m1) == Keep(xs, m2)
  {
    if xs != [] {
      KeepAgreeing(xs[1..], m1, m2);
    }
  }

  /** Keeping the elements that already satisfy the mask changes nothing. */
  lemma {:induction false} KeepAll<T>(xs: seq<T>, m: T -> bool)
    requires forall k :: 0 <= k < |xs| ==> m(xs[k])
    ensures Keep(xs, m) == xs
  {
    if xs != [] {
      KeepAll(xs[1..], m);
    }
  }

  /** `xs` is in ascending order of `key` (Python's string order). */
  predicate SortedBy<T>(xs: seq<T>, key: T -> string) {
    forall i, j :: 0 <= i < j < |xs| ==> LexLe(key(xs[i]), key(xs[j]))
  }

  /** Puts `x` in front of the first element whose key is not below its own. */
  function Insert<T>(x: T, xs: seq<T>, key: T -> string): seq<T> {
    if xs == [] then [x]
    else if LexLe(key(x), key(xs[0])) then [x] + xs
    else [xs[0]] + Insert(x, xs[1..], key)
  }

  /** Insertion sort of `xs` by `key`. */
  function SortBy<T>(xs: seq<T>, key: T -> string): seq<T> {
    if xs == [] then [] else Insert(xs[0], SortBy(xs[1..], key), key)
  }

  lemma {:induction false} InsertPermutes<T>(x: T, xs: seq<T>, key: T -> string)
    ensures multiset(Insert(x, xs, key)) == multiset(xs) + multiset{x}
  {
    if xs != [] && !LexLe(key(x), key(xs[0])) {
      InsertPermutes(x, xs[1..], key);
      assert xs == [xs[0]] + xs[1..];
    }
  }

  /** A sorted sequence stays sorted when an element no greater than all of it goes in front. */
  lemma ConsSorted<T>(y: T, ys: seq<T>, key: T -> string)
    requires SortedBy(ys, key)
    requires forall k :: 0 <= k < |ys| ==> LexLe(key(y), key(ys[k]))
    ensures SortedBy([y] + ys, key)
  {
    var r := [y] + ys;
    forall i, j | 0 <= i < j < |r|
      ensures LexLe(key(r[i]), key(r[j]))
    {
      assert r[j] == ys[j - 1];
      if i > 0 {
        assert r[i] == ys[i - 1];
      }
    }
  }

  /** When `x` goes after the head of a sorted `xs`, everything placed after the head is above it. */
  lemma InsertAboveHead<T>(x: T, xs: seq<T>, key: T -> string)
    requires SortedBy(xs, key) && xs != [] && !LexLe(key(x), key(xs[0]))
    ensures forall k :: 0 <= k < |Insert(x, xs[1..], key)| ==> LexLe(key(xs[0]), key(Insert(x, xs[1..], key)[k]))
  {
    var rest := Insert(x, xs[1..], key);
    InsertPermutes(x, xs[1..], key);
    LexLeTotal(key(x), key(xs[0]));
    forall k | 0 <= k < |rest|
      ensures LexLe(key(xs[0]), key(rest[k]))
    {
      var y := rest[k];
      assert y in multiset(rest);
      if y != x {
        assert y in multiset(xs[1..]);
        var m :| 0 <= m < |xs[1..]| && xs[1..][m] == y;
        assert xs[m + 1] == y;
      }
    }
  }

  lemma {:induction false} InsertSorted<T>(x: T, xs: seq<T>, key: T -> string)
    requires SortedBy(xs, key)
    ensures SortedBy(Insert(x, xs, key), key)
  {
    if xs == [] {
    } else if LexLe(key(x), key(xs[0])) {
      forall k | 0 <= k < |xs|
        ensures LexLe(key(x), key(xs[k]))
      {
        if k > 0 {
          LexLeTransitive(key(x), key(xs[0]), key(xs[k]));
        }
      }
      ConsSorted(x, xs, key);
    } else {
      assert SortedBy(xs[1..], key) by {
        forall i, j | 0 <= i < j < |xs[1..]|
          ensures LexLe(key(xs[1..][i]), key(xs[1..][j]))
        {
          assert xs[1..][i] == xs[i + 1] && xs[1..][j] == xs[j + 1];
        }
      }
      InsertSorted(x, xs[1..], key);
      InsertAboveHead(x, xs, key);
      ConsSorted(xs[0], Insert(x, xs[1..], key), key);
    }
  }

  /** `SortBy` returns the elements of `xs`, each as often, in ascending key order. */
  lemma {:induction false} SortByCorrect<T>(xs: seq<T>, key: T -> string)
    ensures SortedBy(SortBy(xs, key), key)
    ensures multiset(SortBy(xs, key)) == multiset(xs)
  {
    if xs != [] {
      SortByCorrect(xs[1..], key);
      InsertSorted(xs[0], SortBy(xs[1..], key), key);
      InsertPermutes(xs[0], SortBy(xs[1..], key), key);
      assert xs == [xs[0]] + xs[1..];
    }
  }

  /** Sorting keeps the length. */
  lemma SortByLength<T>(xs: seq<T>, key: T -> string)
    ensures |SortBy(xs, key)| == |xs|
  {
    SortByCorrect(xs, key);
    assert |multiset(SortBy(xs, key))| == |multiset(xs)|;
  }
}
