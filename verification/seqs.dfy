/** Order-preserving list and insertion-ordered set operations, as Kotlin's
    `List.filter`, `List.map`, `toSet()` and the `+` / `-` operators on a
    `LinkedHashSet` compute them. */
module Seqs {

  /** No element occurs twice: the shape of a Kotlin set listed in iteration order. */
  predicate NoDuplicates<T(==)>(xs: seq<T>) {
    forall i, j :: 0 <= i < j < |xs| ==> xs[i] != xs[j]
  }

  /** Kotlin's `filter`: the elements satisfying `p`, in their original order. */
  function Filter<T(!new)>(xs: seq<T>, p: T -> bool): (r: seq<T>)
    ensures |r| <= |xs|
    ensures forall x :: x in r <==> x in xs && p(x)
  {
    if |xs| == 0 then []
    else if p(xs[0]) then [xs[0]] + Filter(xs[1..], p)
    else Filter(xs[1..], p)
  }

  /** Filtering distributes over concatenation, so relative order is kept. */
  lemma {:induction false} FilterAppend<T(!new)>(xs: seq<T>, ys: seq<T>, p: T -> bool)
    ensures Filter(xs + ys, p) == Filter(xs, p) + Filter(ys, p)
  {
    if |xs| == 0 {
      assert xs + ys == ys;
    } else {
      assert (xs + ys)[1..] == xs[1..] + ys;
      FilterAppend(xs[1..], ys, p);
    }
  }

  /** A filter that rejects nothing returns its input unchanged. */
  lemma {:induction false} FilterAll<T(!new)>(xs: seq<T>, p: T -> bool)
    requires forall x :: x in xs ==> p(x)
    ensures Filter(xs, p) == xs
  {
    if |xs| > 0 {
      FilterAll(xs[1..], p);
    }
  }

  /** Kotlin's `toSet()` listed in iteration order: the first occurrence of
      each element, in order. */
  function Distinct<T(==,!new)>(xs: seq<T>): (r: seq<T>)
    ensures NoDuplicates(r)
    ensures forall x :: x in r <==> x in xs
  {
    if |xs| == 0 then []
    else
      var prefix := Distinct(xs[..|xs| - 1]);
      var last := xs[|xs| - 1];
      assert forall x :: x in xs <==> x in xs[..|xs| - 1] || x == last;
      if last in prefix then prefix else prefix + [last]
  }

  /** `toSet()` of a list that has no duplicates keeps the list as it is. */
  lemma {:induction false} DistinctOfDistinct<T(!new)>(xs: seq<T>)
    requires NoDuplicates(xs)
    ensures Distinct(xs) == xs
  {
    if |xs| > 0 {
      var init := xs[..|xs| - 1];
      DistinctOfDistinct(init);
      assert xs[|xs| - 1] !in init;
      assert init + [xs[|xs| - 1]] == xs;
    }
  }

  /** Appending elements that are all present already leaves `toSet()` of a
      duplicate-free list unchanged. */
  lemma {:induction false} DistinctAbsorbs<T(!new)>(xs: seq<T>, ys: seq<T>)
    requires NoDuplicates(xs)
    requires forall y :: y in ys ==> y in xs
    ensures Distinct(xs + ys) == xs
  {
    if |ys| == 0 {
      assert xs + ys == xs;
      DistinctOfDistinct(xs);
    } else {
      var init := ys[..|ys| - 1];
      assert forall y :: y in init ==> y in ys;
      DistinctAbsorbs(xs, init);
      assert (xs + ys)[..|xs + ys| - 1] == xs + init;
      assert (xs + ys)[|xs + ys| - 1] == ys[|ys| - 1];
    }
  }

  /** `set + x` on an insertion-ordered set: appended when new, otherwise no change. */
  function Plus<T(==,!new)>(xs: seq<T>, x: T): (r: seq<T>)
    ensures NoDuplicates(xs) ==> NoDuplicates(r)
    ensures forall y :: y in r <==> y in xs || y == x
    ensures x in xs ==> r == xs
  {
    if x in xs then xs else xs + [x]
  }

  /** `set - x` on an insertion-ordered set: every occurrence of `x` dropped,
      the order of the others kept. */
  function Minus<T(==,!new)>(xs: seq<T>, x: T): (r: seq<T>)
    ensures NoDuplicates(xs) ==> NoDuplicates(r)
    ensures forall y :: y in r <==> y in xs && y != x
    ensures x !in xs ==> r == xs
  {
    var p := (y: T) => y != x;
    FilterKeepsNoDuplicates(xs, p);
    if x in xs then Filter(xs, p)
    else
      FilterAll(xs, p);
      Filter(xs, p)
  }

  lemma {:induction false} FilterKeepsNoDuplicates<T(!new)>(xs: seq<T>, p: T -> bool)
    ensures NoDuplicates(xs) ==> NoDuplicates(Filter(xs, p))
  {
    if |xs| > 0 && NoDuplicates(xs) {
      FilterKeepsNoDuplicates(xs[1..], p);
      assert xs[0] !in xs[1..];
    }
  }

  /** Kotlin's `map` applied to every element, order and length kept. */
  function Map<T, U>(xs: seq<T>, f: T -> U): (r: seq<U>)
    ensures |r| == |xs|
    ensures forall i :: 0 <= i < |xs| ==> r[i] == f(xs[i])
  {
    seq(|xs|, i requires 0 <= i < |xs| => f(xs[i]))
  }
}
