/** Mapping and filtering of sequences, and what permutations do to them. */
module Sequences {

  function Map<T, U>(f: T -> U, xs: seq<T>): (r: seq<U>)
    ensures |r| == |xs|
    ensures forall i :: 0 <= i < |xs| ==> r[i] == f(xs[i])
  {
    if xs == [] then [] else Map(f, xs[..|xs| - 1]) + [f(xs[|xs| - 1])]
  }

  function Filter<T(!new)>(keep: T -> bool, xs: seq<T>): (r: seq<T>)
    ensures forall x :: x in r <==> x in xs && keep(x)
  {
    if xs == [] then []
    else Filter(keep, xs[..|xs| - 1]) + if keep(xs[|xs| - 1]) then [xs[|xs| - 1]] else []
  }

  lemma LastSplit<T>(xs: seq<T>)
    requires xs != []
    ensures xs == xs[..|xs| - 1] + [xs[|xs| - 1]]
    ensures multiset(xs) == multiset(xs[..|xs| - 1]) + multiset{xs[|xs| - 1]}
  {
    assert xs == xs[..|xs| - 1] + [xs[|xs| - 1]];
  }

  lemma MapEmpty<T, U>(f: T -> U)
    ensures Map(f, []) == []
  {
  }

  lemma FilterEmpty<T(!new)>(keep: T -> bool)
    ensures Filter(keep, []) == []
  {
  }

  lemma MapMember<T, U>(f: T -> U, xs: seq<T>, x: T)
    requires x in xs
    ensures f(x) in Map(f, xs)
  {
    var i :| 0 <= i < |xs| && xs[i] == x;
    assert Map(f, xs)[i] == f(x);
  }

  lemma MapAppend<T, U>(f: T -> U, xs: seq<T>, x: T)
    ensures Map(f, xs + [x]) == Map(f, xs) + [f(x)]
  {
    assert (xs + [x])[..|xs|] == xs;
  }

  lemma FilterAppend<T(!new)>(keep: T -> bool, xs: seq<T>, x: T)
    ensures Filter(keep, xs + [x]) == Filter(keep, xs) + if keep(x) then [x] else []
  {
    assert (xs + [x])[..|xs|] == xs;
  }

  lemma {:induction false} MapConcat<T, U>(f: T -> U, xs: seq<T>, ys: seq<T>)
    ensures Map(f, xs + ys) == Map(f, xs) + Map(f, ys)
  {
    assert |Map(f, xs + ys)| == |Map(f, xs) + Map(f, ys)|;
  }

  lemma {:induction false} FilterConcat<T(!new)>(keep: T -> bool, xs: seq<T>, ys: seq<T>)
    ensures Filter(keep, xs + ys) == Filter(keep, xs) + Filter(keep, ys)
  {
    if ys == [] {
      assert xs + ys == xs;
    } else {
      var init, last := ys[..|ys| - 1], ys[|ys| - 1];
      assert (xs + ys)[..|xs + ys| - 1] == xs + init && (xs + ys)[|xs + ys| - 1] == last;
      FilterConcat(keep, xs, init);
    }
  }

  /** How often a value occurs among the filtered elements. */
  lemma {:induction false} FilterBag<T(!new)>(keep: T -> bool, xs: seq<T>, x: T)
    ensures multiset(Filter(keep, xs))[x] == if keep(x) then multiset(xs)[x] else 0
  {
    if xs != [] {
      FilterBag(keep, xs[..|xs| - 1], x);
      LastSplit(xs);
    }
  }

  /** Filtering by a test and by its complement loses nothing. */
  lemma {:induction false} FilterPartition<T(!new)>(keep: T -> bool, drop: T -> bool, xs: seq<T>)
    requires forall x :: x in xs ==> drop(x) == !keep(x)
    ensures multiset(Filter(keep, xs)) + multiset(Filter(drop, xs)) == multiset(xs)
  {
    if xs != [] {
      var init, last := xs[..|xs| - 1], xs[|xs| - 1];
      assert last in xs && forall x :: x in init ==> x in xs;
      FilterPartition(keep, drop, init);
      LastSplit(xs);
    }
  }

  lemma FilterPermutation<T(!new)>(keep: T -> bool, xs: seq<T>, ys: seq<T>)
    requires multiset(xs) == multiset(ys)
    ensures multiset(Filter(keep, xs)) == multiset(Filter(keep, ys))
  {
    forall x ensures multiset(Filter(keep, xs))[x] == multiset(Filter(keep, ys))[x] {
      FilterBag(keep, xs, x);
      FilterBag(keep, ys, x);
    }
  }

  lemma RemoveAt<T>(ys: seq<T>, i: nat)
    requires i < |ys|
    ensures multiset(ys) == multiset(ys[..i] + ys[i + 1..]) + multiset{ys[i]}
  {
    assert ys == ys[..i] + [ys[i]] + ys[i + 1..];
  }

  lemma {:induction false} MapPermutation<T, U>(f: T -> U, xs: seq<T>, ys: seq<T>)
    requires multiset(xs) == multiset(ys)
    ensures multiset(Map(f, xs)) == multiset(Map(f, ys))
  {
    if xs == [] {
      assert |multiset(ys)| == |ys|;
    } else {
      var init, last := xs[..|xs| - 1], xs[|xs| - 1];
      LastSplit(xs);
      assert last in multiset(ys);
      var i :| 0 <= i < |ys| && ys[i] == last;
      RemoveAt(ys, i);
      assert multiset(init) == multiset(xs) - multiset{last};
      assert multiset(ys[..i] + ys[i + 1..]) == multiset(ys) - multiset{last};
      MapPermutation(f, init, ys[..i] + ys[i + 1..]);
      MapConcat(f, ys[..i], ys[i + 1..]);
      MapDropped(f, ys, i);
    }
  }

  lemma {:induction false} MapDropped<T, U>(f: T -> U, ys: seq<T>, i: nat)
    requires i < |ys|
    ensures multiset(Map(f, ys)) == multiset(Map(f, ys[..i] + ys[i + 1..])) + multiset{f(ys[i])}
  {
    var m := Map(f, ys);
    RemoveAt(m, i);
    assert m[..i] + m[i + 1..] == Map(f, ys[..i] + ys[i + 1..]);
  }

  lemma BagConcat<T>(xs: seq<T>, ys: seq<T>)
    ensures multiset(xs + ys) == multiset(xs) + multiset(ys)
  {
  }

  /** First occurrences, in order. */
  function Unique<T(==,!new)>(xs: seq<T>): (r: seq<T>)
    ensures forall x :: x in r <==> x in xs
    ensures r == [] <==> xs == []
    ensures forall i, j :: 0 <= i < j < |r| ==> r[i] != r[j]
  {
    if xs == [] then []
    else
      var u, last := Unique(xs[..|xs| - 1]), xs[|xs| - 1];
      assert xs == xs[..|xs| - 1] + [last];
      if last in u then u else u + [last]
  }

  lemma UniqueAppend<T(!new)>(xs: seq<T>, x: T)
    ensures Unique(xs + [x]) == if x in xs then Unique(xs) else Unique(xs) + [x]
  {
    assert (xs + [x])[..|xs|] == xs;
  }

  method FirstOccurrences<T(==,!new)>(xs: seq<T>) returns (r: seq<T>)
    ensures r == Unique(xs)
  {
    r := [];
    for i := 0 to |xs|
      invariant r == Unique(xs[..i])
    {
      assert xs[..i + 1][..i] == xs[..i];
      if xs[i] !in r {
        r := r + [xs[i]];
      }
    }
    assert xs[..|xs|] == xs;
  }
}
