/** Stable sorting by a key order, and the orders the control plane sorts with. */
module Sorting {
  import opened Sequences

  ghost predicate TotalPreorder<T(!new)>(le: (T, T) -> bool) {
    && (forall a, b :: le(a, b) || le(b, a))
    && (forall a, b, c :: le(a, b) && le(b, c) ==> le(a, c))
  }

  ghost predicate Sorted<T>(le: (T, T) -> bool, xs: seq<T>) {
    forall i, j :: 0 <= i < j < |xs| ==> le(xs[i], xs[j])
  }

  /** No two different elements of `xs` compare equal. */
  ghost predicate Antisymmetric<T>(le: (T, T) -> bool, xs: seq<T>) {
    forall a, b :: a in xs && b in xs && le(a, b) && le(b, a) ==> a == b
  }

  function Insert<T>(le: (T, T) -> bool, x: T, xs: seq<T>): (r: seq<T>)
    ensures multiset(r) == multiset([x] + xs)
  {
    if xs == [] then [x]
    else if le(x, xs[0]) then [x] + xs
    else
      assert multiset([x] + xs) == multiset([x]) + multiset([xs[0]])
          + multiset(xs[1..]) by { assert xs == [xs[0]] + xs[1..]; }
      [xs[0]] + Insert(le, x, xs[1..])
  }

  /** Stable sort: an element is placed before the first element it may precede. */
  function SortBy<T>(le: (T, T) -> bool, xs: seq<T>): (r: seq<T>)
    ensures multiset(r) == multiset(xs)
  {
    if xs == [] then []
    else
      assert xs == [xs[0]] + xs[1..];
      Insert(le, xs[0], SortBy(le, xs[1..]))
  }

  lemma SamePermutation<T>(xs: seq<T>, ys: seq<T>)
    requires multiset(xs) == multiset(ys)
    ensures |xs| == |ys|
    ensures forall x :: x in xs <==> x in ys
  {
    assert |multiset(xs)| == |xs| && |multiset(ys)| == |ys|;
    forall x ensures x in xs <==> x in ys {
      assert x in xs <==> x in multiset(xs);
      assert x in ys <==> x in multiset(ys);
    }
  }

  lemma {:induction false} InsertSorted<T(!new)>(le: (T, T) -> bool, x: T, xs: seq<T>)
    requires TotalPreorder(le) && Sorted(le, xs)
    ensures Sorted(le, Insert(le, x, xs))
  {
    if xs != [] && !le(x, xs[0]) {
      InsertSorted(le, x, xs[1..]);
      var rest := Insert(le, x, xs[1..]);
      SamePermutation(rest, [x] + xs[1..]);
      forall j | 0 <= j < |rest| ensures le(xs[0], rest[j]) {
        assert rest[j] in [x] + xs[1..];
        assert le(xs[0], x);
      }
    } else if xs != [] {
      forall j | 0 <= j < |xs| ensures le(x, xs[j]) {
        assert j == 0 || le(xs[0], xs[j]);
      }
    }
  }

  lemma {:induction false} SortBySorted<T(!new)>(le: (T, T) -> bool, xs: seq<T>)
    requires TotalPreorder(le)
    ensures Sorted(le, SortBy(le, xs))
  {
    if xs != [] {
      SortBySorted(le, xs[1..]);
      InsertSorted(le, xs[0], SortBy(le, xs[1..]));
    }
  }

  lemma SameHead<T>(le: (T, T) -> bool, xs: seq<T>, ys: seq<T>)
    requires xs != [] && ys != []
    requires Sorted(le, xs) && Sorted(le, ys)
    requires xs[0] in ys && ys[0] in xs
    requires Antisymmetric(le, xs)
    requires forall a :: a in xs ==> le(a, a)
    ensures xs[0] == ys[0]
  {
    var i :| 0 <= i < |ys| && ys[i] == xs[0];
    var j :| 0 <= j < |xs| && xs[j] == ys[0];
    assert le(ys[0], ys[i]) && le(xs[0], xs[j]);
  }

  lemma TailBag<T>(xs: seq<T>)
    requires xs != []
    ensures multiset(xs[1..]) == multiset(xs) - multiset{xs[0]}
  {
    assert xs == [xs[0]] + xs[1..];
  }

  lemma TailSorted<T>(le: (T, T) -> bool, xs: seq<T>)
    requires xs != [] && Sorted(le, xs)
    ensures Sorted(le, xs[1..])
    ensures Antisymmetric(le, xs) ==> Antisymmetric(le, xs[1..])
  {
    assert forall a :: a in xs[1..] ==> a in xs;
  }

  /** A sorted sequence without ties is determined by its elements. */
  lemma {:induction false} SortedUnique<T>(le: (T, T) -> bool, xs: seq<T>, ys: seq<T>)
    requires Sorted(le, xs) && Sorted(le, ys)
    requires multiset(xs) == multiset(ys)
    requires Antisymmetric(le, xs)
    requires forall a :: a in xs ==> le(a, a)
    ensures xs == ys
  {
    SamePermutation(xs, ys);
    if xs != [] {
      assert xs[0] in xs && ys[0] in ys;
      SameHead(le, xs, ys);
      TailBag(xs);
      TailBag(ys);
      TailSorted(le, xs);
      TailSorted(le, ys);
      hide Sorted, Antisymmetric;
      assert forall a :: a in xs[1..] ==> a in xs;
      SortedUnique(le, xs[1..], ys[1..]);
      assert xs == [xs[0]] + xs[1..] && ys == [ys[0]] + ys[1..];
    }
  }

  /** Sorting forgets the order of its input whenever the key has no ties. */
  lemma SortForgetsOrder<T(!new)>(le: (T, T) -> bool, xs: seq<T>, ys: seq<T>)
    requires TotalPreorder(le)
    requires multiset(xs) == multiset(ys)
    requires Antisymmetric(le, xs)
    ensures SortBy(le, xs) == SortBy(le, ys)
  {
    SortBySorted(le, xs);
    SortBySorted(le, ys);
    SamePermutation(xs, SortBy(le, xs));
    SortedUnique(le, SortBy(le, xs), SortBy(le, ys));
  }

  lemma {:induction false} FilterSorted<T(!new)>(le: (T, T) -> bool, keep: T -> bool, xs: seq<T>)
    requires Sorted(le, xs)
    ensures Sorted(le, Filter(keep, xs))
  {
    if xs != [] {
      var init, last := xs[..|xs| - 1], xs[|xs| - 1];
      FilterSorted(le, keep, init);
      forall x | x in init ensures le(x, last) {
        var i :| 0 <= i < |init| && init[i] == x;
        assert le(xs[i], xs[|xs| - 1]);
      }
      var kept := Filter(keep, init);
      assert forall i :: 0 <= i < |kept| ==> kept[i] in init;
    }
  }

  // ---- text order: code point by code point, a proper prefix first ----

  predicate TextLe(a: string, b: string) {
    a == "" || (b != "" && (a[0] < b[0] || (a[0] == b[0] && TextLe(a[1..], b[1..]))))
  }

  lemma {:induction false} TextLeTotal(a: string, b: string)
    ensures TextLe(a, b) || TextLe(b, a)
    ensures TextLe(a, b) && TextLe(b, a) ==> a == b
  {
    if a != "" && b != "" {
      TextLeTotal(a[1..], b[1..]);
      assert a == [a[0]] + a[1..] && b == [b[0]] + b[1..];
    }
  }

  lemma {:induction false} TextLeTransitive(a: string, b: string, c: string)
    requires TextLe(a, b) && TextLe(b, c)
    ensures TextLe(a, c)
  {
    if a != "" && a[0] == b[0] == c[0] {
      TextLeTransitive(a[1..], b[1..], c[1..]);
    }
  }

  lemma TextPreorder()
    ensures TotalPreorder(TextLe)
  {
    forall a: string, b: string ensures TextLe(a, b) || TextLe(b, a) { TextLeTotal(a, b); }
    forall a, b, c | TextLe(a, b) && TextLe(b, c) ensures TextLe(a, c) { TextLeTransitive(a, b, c); }
  }

  lemma TextAntisymmetric(xs: seq<string>)
    ensures Antisymmetric(TextLe, xs)
    ensures forall x :: x in xs ==> TextLe(x, x)
  {
    forall a: string, b: string | a in xs && b in xs && TextLe(a, b) && TextLe(b, a)
      ensures a == b { TextLeTotal(a, b); }
    forall x | x in xs ensures TextLe(x, x) { TextLeTotal(x, x); }
  }

  lemma TextSort(xs: seq<string>)
    ensures Sorted(TextLe, SortBy(TextLe, xs))
    ensures Sorted(TextLe, xs) ==> SortBy(TextLe, xs) == xs
  {
    TextPreorder();
    SortBySorted(TextLe, xs);
    TextAntisymmetric(xs);
    if Sorted(TextLe, xs) { SortedUnique(TextLe, xs, SortBy(TextLe, xs)); }
  }

  lemma TextSortForgetsOrder(xs: seq<string>, ys: seq<string>)
    requires multiset(xs) == multiset(ys)
    ensures SortBy(TextLe, xs) == SortBy(TextLe, ys)
  {
    TextPreorder();
    TextAntisymmetric(xs);
    SortForgetsOrder(TextLe, xs, ys);
  }
}
