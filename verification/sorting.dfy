/** Python's `sorted` with a key: stable, here by insertion from the right. */
module Sorting {

  /** Keys are compared left to right. */
  datatype Rank = Rank(first: int, second: int, third: int)

  predicate Less(a: Rank, b: Rank) {
    a.first < b.first
    || (a.first == b.first && a.second < b.second)
    || (a.first == b.first && a.second == b.second && a.third < b.third)
  }

  /** Before the first element that is not smaller. */
  function Insert<T>(x: T, xs: seq<T>, key: T -> Rank): seq<T> {
    if xs == [] || !Less(key(xs[0]), key(x)) then [x] + xs else [xs[0]] + Insert(x, xs[1..], key)
  }

  function Sorted<T>(xs: seq<T>, key: T -> Rank): seq<T> {
    if xs == [] then [] else Insert(xs[0], Sorted(xs[1..], key), key)
  }

  ghost predicate Ordered<T>(xs: seq<T>, key: T -> Rank) {
    forall i, j :: 0 <= i < j < |xs| ==> !Less(key(xs[j]), key(xs[i]))
  }

  lemma {:induction false} InsertOrdered<T>(x: T, xs: seq<T>, key: T -> Rank)
    requires Ordered(xs, key)
    ensures Ordered(Insert(x, xs, key), key) && multiset(Insert(x, xs, key)) == multiset(xs) + multiset{x}
  {
    if xs == [] || !Less(key(xs[0]), key(x)) {
      assert multiset([x] + xs) == multiset{x} + multiset(xs);
    } else {
      InsertOrdered(x, xs[1..], key);
      var rest := Insert(x, xs[1..], key);
      assert xs == [xs[0]] + xs[1..];
      assert multiset([xs[0]] + rest) == multiset{xs[0]} + multiset(rest);
      forall j | 0 <= j < |rest|
        ensures !Less(key(rest[j]), key(xs[0]))
      {
        assert rest[j] in multiset(rest);
        assert rest[j] == x || rest[j] in xs[1..];
      }
    }
  }

  /** Sorting orders by the key and keeps every element. */
  lemma {:induction false} SortedIsOrdered<T>(xs: seq<T>, key: T -> Rank)
    ensures Ordered(Sorted(xs, key), key) && multiset(Sorted(xs, key)) == multiset(xs)
  {
    if xs != [] {
      SortedIsOrdered(xs[1..], key);
      InsertOrdered(xs[0], Sorted(xs[1..], key), key);
      assert xs == [xs[0]] + xs[1..];
    }
  }

  function WithKey<T>(xs: seq<T>, key: T -> Rank, k: Rank): seq<T> {
    if xs == [] then [] else (if key(xs[0]) == k then [xs[0]] else []) + WithKey(xs[1..], key, k)
  }

  lemma {:induction false} InsertStable<T>(x: T, xs: seq<T>, key: T -> Rank, k: Rank)
    ensures WithKey(Insert(x, xs, key), key, k) == (if key(x) == k then [x] else []) + WithKey(xs, key, k)
  {
    if xs == [] || !Less(key(xs[0]), key(x)) {
      assert ([x] + xs)[1..] == xs;
    } else {
      InsertStable(x, xs[1..], key, k);
      var rest := Insert(x, xs[1..], key);
      assert ([xs[0]] + rest)[1..] == rest;
    }
  }

  /** Elements with equal keys keep their order. */
  lemma {:induction false} SortedIsStable<T>(xs: seq<T>, key: T -> Rank, k: Rank)
    ensures WithKey(Sorted(xs, key), key, k) == WithKey(xs, key, k)
  {
    if xs != [] {
      SortedIsStable(xs[1..], key, k);
      InsertStable(xs[0], Sorted(xs[1..], key), key, k);
    }
  }
}
