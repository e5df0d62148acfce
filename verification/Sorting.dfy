/** Python's `sorted(items, key=key, reverse=True)`: descending, equal keys in their original order. */
module Sorting {

  function InsertDescending<T>(x: T, s: seq<T>, key: T -> int): (r: seq<T>)
    ensures |r| == |s| + 1
  {
    if s == [] || key(x) >= key(s[0]) then [x] + s else [s[0]] + InsertDescending(x, s[1..], key)
  }

  function SortDescending<T>(s: seq<T>, key: T -> int): (r: seq<T>)
    ensures |r| == |s|
  {
    if s == [] then [] else InsertDescending(s[0], SortDescending(s[1..], key), key)
  }

  ghost predicate Descending<T>(s: seq<T>, key: T -> int) {
    forall i, j :: 0 <= i < j < |s| ==> key(s[i]) >= key(s[j])
  }

  lemma {:induction false} InsertMembers<T>(x: T, s: seq<T>, key: T -> int, y: T)
    ensures y in InsertDescending(x, s, key) <==> y == x || y in s
  {
    if s != [] && key(x) < key(s[0]) {
      InsertMembers(x, s[1..], key, y);
    }
  }

  lemma {:induction false} SortMembers<T>(s: seq<T>, key: T -> int, y: T)
    ensures y in SortDescending(s, key) <==> y in s
  {
    if s != [] {
      SortMembers(s[1..], key, y);
      InsertMembers(s[0], SortDescending(s[1..], key), key, y);
    }
  }

  lemma {:induction false} InsertKeepsDescending<T>(x: T, s: seq<T>, key: T -> int)
    requires Descending(s, key)
    ensures Descending(InsertDescending(x, s, key), key)
  {
    if s != [] && key(x) < key(s[0]) {
      var rest := InsertDescending(x, s[1..], key);
      InsertKeepsDescending(x, s[1..], key);
      forall j | 0 <= j < |rest|
        ensures key(s[0]) >= key(rest[j])
      {
        InsertMembers(x, s[1..], key, rest[j]);
      }
    }
  }

  lemma {:induction false} SortDescends<T>(s: seq<T>, key: T -> int)
    ensures Descending(SortDescending(s, key), key)
  {
    if s != [] {
      SortDescends(s[1..], key);
      InsertKeepsDescending(s[0], SortDescending(s[1..], key), key);
    }
  }

  /** The items with a given key, in order. */
  function WithKey<T>(s: seq<T>, key: T -> int, k: int): (r: seq<T>) {
    if s == [] then [] else (if key(s[0]) == k then [s[0]] else []) + WithKey(s[1..], key, k)
  }

  lemma {:induction false} InsertStable<T>(x: T, s: seq<T>, key: T -> int, k: int)
    ensures WithKey(InsertDescending(x, s, key), key, k) == WithKey([x] + s, key, k)
  {
    assert ([x] + s)[1..] == s;
    if s != [] && key(x) < key(s[0]) {
      InsertStable(x, s[1..], key, k);
      assert ([x] + s[1..])[1..] == s[1..];
    }
  }

  /** Sorting is stable: items of equal key keep their order, and none is lost or added. */
  lemma {:induction false} SortStable<T>(s: seq<T>, key: T -> int, k: int)
    ensures WithKey(SortDescending(s, key), key, k) == WithKey(s, key, k)
  {
    if s != [] {
      SortStable(s[1..], key, k);
      var rest := SortDescending(s[1..], key);
      InsertStable(s[0], rest, key, k);
      assert ([s[0]] + rest)[1..] == rest;
    }
  }

  /** Falling by key, and among equal keys rising by rank. */
  ghost predicate Ranked<T>(s: seq<T>, key: T -> int, rank: T -> int) {
    forall i, j :: 0 <= i < j < |s| ==> key(s[i]) > key(s[j]) || (key(s[i]) == key(s[j]) && rank(s[i]) < rank(s[j]))
  }

  lemma {:induction false} InsertKeepsRanked<T>(x: T, s: seq<T>, key: T -> int, rank: T -> int)
    requires Ranked(s, key, rank) && forall y :: y in s ==> rank(x) < rank(y)
    ensures Ranked(InsertDescending(x, s, key), key, rank)
  {
    if s != [] && key(x) < key(s[0]) {
      var rest := InsertDescending(x, s[1..], key);
      InsertKeepsRanked(x, s[1..], key, rank);
      forall j | 0 <= j < |rest|
        ensures key(s[0]) > key(rest[j]) || (key(s[0]) == key(rest[j]) && rank(s[0]) < rank(rest[j]))
      {
        InsertMembers(x, s[1..], key, rest[j]);
      }
    }
  }

  /** Items of rising rank are sorted by key and then by rank. */
  lemma {:induction false} SortRanks<T>(s: seq<T>, key: T -> int, rank: T -> int)
    requires forall i, j :: 0 <= i < j < |s| ==> rank(s[i]) < rank(s[j])
    ensures Ranked(SortDescending(s, key), key, rank)
  {
    if s != [] {
      SortRanks(s[1..], key, rank);
      forall y | y in SortDescending(s[1..], key)
        ensures rank(s[0]) < rank(y)
      {
        SortMembers(s[1..], key, y);
      }
      InsertKeepsRanked(s[0], SortDescending(s[1..], key), key, rank);
    }
  }
}
