/** Shared result types and a few facts about sequences and sets. */
module Prelude {

  datatype Option<+T> = None | Some(value: T)

  /** The outcome of an operation that may throw or bail. */
  datatype Result<+T, +E> = Ok(value: T) | Err(error: E) {
    predicate IsFailure() {
      Err?
    }

    function PropagateFailure<U>(): Result<U, E>
      requires Err?
    {
      Err(error)
    }

    function Extract(): T
      requires Ok?
    {
      value
    }
  }

  /** The set of elements of a sequence. */
  function Elements<T>(s: seq<T>): set<T> {
    set x | x in s
  }

  ghost predicate NoDuplicates<T>(s: seq<T>) {
    forall i, j :: 0 <= i < j < |s| ==> s[i] != s[j]
  }

  /** A duplicate-free sequence has as many elements as its set. */
  lemma {:induction false} NoDuplicatesCardinality<T>(s: seq<T>)
    requires NoDuplicates(s)
    ensures |Elements(s)| == |s|
  {
    if s == [] {
      assert Elements(s) == {};
    } else {
      var init, last := s[..|s| - 1], s[|s| - 1];
      NoDuplicatesCardinality(init);
      assert Elements(s) == Elements(init) + {last};
      assert last !in init;
    }
  }

  /** Duplicate-free sequences with the same elements have the same length. */
  lemma SameElementsSameLength<T>(a: seq<T>, b: seq<T>)
    requires NoDuplicates(a) && NoDuplicates(b) && forall x :: x in a <==> x in b
    ensures |a| == |b|
  {
    NoDuplicatesCardinality(a);
    NoDuplicatesCardinality(b);
    assert Elements(a) == Elements(b);
  }

  /** A subset of a finite set is no larger, and equal when it is as large. */
  lemma {:induction false} SubsetCardinality<T>(a: set<T>, b: set<T>)
    requires a <= b
    ensures |a| <= |b|
    ensures |a| == |b| ==> a == b
  {
    assert b == a + (b - a);
  }

  /** The concatenation of `f` over the elements. */
  function FlatMap<T, U>(xs: seq<T>, f: T -> seq<U>): (r: seq<U>) {
    if xs == [] then [] else f(xs[0]) + FlatMap(xs[1..], f)
  }

  lemma {:induction false} FlatMapConcat<T, U>(xs: seq<T>, ys: seq<T>, f: T -> seq<U>)
    ensures FlatMap(xs + ys, f) == FlatMap(xs, f) + FlatMap(ys, f)
  {
    if xs == [] {
      assert xs + ys == ys;
    } else {
      FlatMapConcat(xs[1..], ys, f);
      assert (xs + ys)[0] == xs[0] && (xs + ys)[1..] == xs[1..] + ys;
      var head, rest, last := f(xs[0]), FlatMap(xs[1..], f), FlatMap(ys, f);
      assert head + (rest + last) == (head + rest) + last;
    }
  }

  lemma {:induction false} FlatMapAppend<T, U>(xs: seq<T>, x: T, f: T -> seq<U>)
    ensures FlatMap(xs + [x], f) == FlatMap(xs, f) + f(x)
  {
    if xs == [] {
      assert FlatMap([x], f) == f(x) + [];
    } else {
      FlatMapAppend(xs[1..], x, f);
      assert (xs + [x])[1..] == xs[1..] + [x];
    }
  }
}
