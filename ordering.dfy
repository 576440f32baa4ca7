/**
 * Ordering of strings as Rust's `String: Ord` compares them (lexicographic
 * by code point, which is the same order as UTF-8 bytes), and the sort
 * that `sort_by` performs with a key comparator.
 */
module Ordering {

  /** `a <= b` in lexicographic order. */
  predicate StrLe(a: string, b: string)
    decreases |a|
  {
    a == [] || (b != [] && (a[0] < b[0] || (a[0] == b[0] && StrLe(a[1..], b[1..]))))
  }

  lemma {:induction false} StrLeTotal(a: string, b: string)
    ensures StrLe(a, b) || StrLe(b, a)
    decreases |a|
  {
    if a != [] && b != [] && a[0] == b[0] {
      StrLeTotal(a[1..], b[1..]);
    }
  }

  lemma {:induction false} StrLeAntisymmetric(a: string, b: string)
    requires StrLe(a, b) && StrLe(b, a)
    ensures a == b
    decreases |a|
  {
    if a != [] {
      StrLeAntisymmetric(a[1..], b[1..]);
      assert a == [a[0]] + a[1..] && b == [b[0]] + b[1..];
    }
  }

  lemma {:induction false} StrLeTransitive(a: string, b: string, c: string)
    requires StrLe(a, b) && StrLe(b, c)
    ensures StrLe(a, c)
    decreases |a|
  {
    if a != [] && a[0] == b[0] && b[0] == c[0] {
      StrLeTransitive(a[1..], b[1..], c[1..]);
    }
  }

  /** `x` may come before `y`: ascending, or descending when asked. */
  predicate InOrder(x: string, y: string, descending: bool) {
    if descending then StrLe(y, x) else StrLe(x, y)
  }

  lemma InOrderTotal(x: string, y: string, descending: bool)
    ensures InOrder(x, y, descending) || InOrder(y, x, descending)
  {
    StrLeTotal(x, y);
  }

  lemma InOrderTransitive(x: string, y: string, z: string, descending: bool)
    requires InOrder(x, y, descending) && InOrder(y, z, descending)
    ensures InOrder(x, z, descending)
  {
    if descending { StrLeTransitive(z, y, x); } else { StrLeTransitive(x, y, z); }
  }

  lemma InOrderAntisymmetric(x: string, y: string, descending: bool)
    requires InOrder(x, y, descending) && InOrder(y, x, descending)
    ensures x == y
  {
    StrLeAntisymmetric(x, y);
  }

  ghost predicate SortedBy<T>(xs: seq<T>, key: T -> string, descending: bool) {
    forall i, j :: 0 <= i < j < |xs| ==> InOrder(key(xs[i]), key(xs[j]), descending)
  }

  /** Sorted with no two equal keys. */
  ghost predicate StrictlySortedBy<T>(xs: seq<T>, key: T -> string, descending: bool) {
    forall i, j :: 0 <= i < j < |xs| ==> InOrder(key(xs[i]), key(xs[j]), descending) && key(xs[i]) != key(xs[j])
  }

  /**
   * `x` placed into the sorted `xs` after every key that precedes it or
   * equals it, so that among equal keys the one inserted last comes last.
   */
  function Insert<T(==)>(x: T, xs: seq<T>, key: T -> string, descending: bool): (r: seq<T>)
    requires SortedBy(xs, key, descending)
    ensures SortedBy(r, key, descending)
    ensures multiset(r) == multiset(xs) + multiset{x}
    decreases |xs|
  {
    if xs == [] then [x]
    else if !InOrder(key(xs[0]), key(x), descending) then
      InOrderTotal(key(x), key(xs[0]), descending);
      assert forall j :: 1 <= j < |xs| ==> InOrder(key(xs[0]), key(xs[j]), descending);
      InOrderFirst(x, xs, key, descending);
      [x] + xs
    else
      var rest := Insert(x, xs[1..], key, descending);
      assert xs == [xs[0]] + xs[1..];
      HeadBeforeAll(xs[0], rest, x, xs[1..], key, descending);
      [xs[0]] + rest
  }

  lemma InOrderFirst<T>(x: T, xs: seq<T>, key: T -> string, descending: bool)
    requires xs != [] && SortedBy(xs, key, descending)
    requires InOrder(key(x), key(xs[0]), descending)
    ensures SortedBy([x] + xs, key, descending)
  {
    var r := [x] + xs;
    forall i, j | 0 <= i < j < |r|
      ensures InOrder(key(r[i]), key(r[j]), descending)
    {
      if i == 0 && j > 1 {
        InOrderTransitive(key(x), key(xs[0]), key(xs[j - 1]), descending);
      }
    }
  }

  lemma HeadBeforeAll<T>(h: T, rest: seq<T>, x: T, tail: seq<T>, key: T -> string, descending: bool)
    requires SortedBy(rest, key, descending)
    requires multiset(rest) == multiset(tail) + multiset{x}
    requires InOrder(key(h), key(x), descending)
    requires forall j :: 0 <= j < |tail| ==> InOrder(key(h), key(tail[j]), descending)
    ensures SortedBy([h] + rest, key, descending)
  {
    var r := [h] + rest;
    forall i, j | 0 <= i < j < |r|
      ensures InOrder(key(r[i]), key(r[j]), descending)
    {
      if i == 0 {
        var e := rest[j - 1];
        assert e in multiset(rest);
        if e != x {
          assert e in multiset(tail);
          var k :| 0 <= k < |tail| && tail[k] == e;
        }
      }
    }
  }

  /** `xs.sort_by(|a, b| key(a).cmp(key(b)))`, or the reverse for `descending`. */
  function SortBy<T(==)>(xs: seq<T>, key: T -> string, descending: bool): (r: seq<T>)
    ensures SortedBy(r, key, descending)
    ensures multiset(r) == multiset(xs)
    decreases |xs|
  {
    if xs == [] then []
    else
      assert xs == xs[..|xs| - 1] + [xs[|xs| - 1]];
      Insert(xs[|xs| - 1], SortBy(xs[..|xs| - 1], key, descending), key, descending)
  }

  /** Inserting after a run of equal keys: an element whose key equals every key of `xs` goes last. */
  lemma {:induction false} InsertAfterEqual<T>(x: T, xs: seq<T>, key: T -> string, descending: bool)
    requires forall j :: 0 <= j < |xs| ==> key(xs[j]) == key(x)
    requires SortedBy(xs, key, descending)
    ensures Insert(x, xs, key, descending) == xs + [x]
    decreases |xs|
  {
    if xs != [] {
      InOrderTotal(key(x), key(x), descending);
      assert SortedBy(xs[1..], key, descending);
      InsertAfterEqual(x, xs[1..], key, descending);
      assert [xs[0]] + (xs[1..] + [x]) == xs + [x];
    }
  }

  /**
   * The sort is stable: elements whose keys are all equal come out in the
   * order they went in.
   */
  lemma {:induction false} SortByStableOnEqualKeys<T>(xs: seq<T>, key: T -> string, descending: bool, k: string)
    requires forall i :: 0 <= i < |xs| ==> key(xs[i]) == k
    ensures SortBy(xs, key, descending) == xs
    decreases |xs|
  {
    if xs != [] {
      var init, last := xs[..|xs| - 1], xs[|xs| - 1];
      assert forall i :: 0 <= i < |init| ==> init[i] == xs[i];
      SortByStableOnEqualKeys(init, key, descending, k);
      InsertAfterEqual(last, init, key, descending);
      assert init + [last] == xs;
    }
  }

  /** Sorting keys that are pairwise distinct leaves no two equal neighbours. */
  lemma SortedDistinctIsStrict<T>(xs: seq<T>, key: T -> string, descending: bool)
    requires SortedBy(xs, key, descending)
    requires forall i, j :: 0 <= i < j < |xs| ==> key(xs[i]) != key(xs[j])
    ensures StrictlySortedBy(xs, key, descending)
  {
  }
}
