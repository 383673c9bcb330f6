/** List helpers the components share: `findIndex`, duplicate-free lists,
    filtering one value out, the set of a list's elements, and counting a duplicate-free list inside
    another. */
module Seqs {
  import opened Wrappers

  /** `findIndex` by equality: the first position holding `x`. */
  function FirstIndex<T(==)>(xs: seq<T>, x: T): (r: Option<nat>)
    ensures r.None? <==> x !in xs
    ensures r.Some? ==> r.value < |xs| && xs[r.value] == x
    ensures r.Some? ==> forall i :: 0 <= i < r.value ==> xs[i] != x
  {
    if |xs| == 0 then None
    else if xs[0] == x then Some(0)
    else match FirstIndex(xs[1..], x)
      case None => None
      case Some(i) => Some(i + 1)
  }

  /** `findIndex` as JavaScript returns it: -1 when nothing matches. */
  function IndexOrMinusOne<T(==)>(xs: seq<T>, x: T): (r: int)
    ensures -1 <= r < |xs|
    ensures r == -1 <==> x !in xs
    ensures r >= 0 ==> xs[r] == x
  {
    match FirstIndex(xs, x)
    case None => -1
    case Some(i) => i
  }

  predicate Distinct<T(==)>(xs: seq<T>) {
    forall i, j :: 0 <= i < j < |xs| ==> xs[i] != xs[j]
  }

  lemma FirstIndexOfDistinct<T>(xs: seq<T>, i: nat)
    requires i < |xs| && Distinct(xs)
    ensures FirstIndex(xs, xs[i]) == Some(i)
  {
  }

  /** `filter(y => y !== x)`: every occurrence of `x` dropped, the rest in
      order. */
  function Without<T(==)>(xs: seq<T>, x: T): (r: seq<T>)
    ensures x !in r
    ensures forall i :: 0 <= i < |r| ==> r[i] in xs
    ensures forall i :: 0 <= i < |xs| && xs[i] != x ==> xs[i] in r
    ensures x !in xs ==> r == xs
    ensures |r| <= |xs|
  {
    if |xs| == 0 then []
    else if xs[0] == x then Without(xs[1..], x)
    else [xs[0]] + Without(xs[1..], x)
  }

  lemma {:induction false} WithoutKeepsDistinct<T>(xs: seq<T>, x: T)
    requires Distinct(xs)
    ensures Distinct(Without(xs, x))
  {
    if |xs| > 0 {
      WithoutKeepsDistinct(xs[1..], x);
      if xs[0] != x {
        var rest := Without(xs[1..], x);
        assert xs[0] !in xs[1..];
        assert xs[0] !in rest;
        assert ([xs[0]] + rest)[1..] == rest;
      }
    }
  }

  /** Filtering an appended element away restores the list. */
  lemma {:induction false} WithoutLast<T>(xs: seq<T>, x: T)
    requires x !in xs
    ensures Without(xs + [x], x) == xs
  {
    if |xs| == 0 {
      assert [x][1..] == [];
    } else {
      assert (xs + [x])[1..] == xs[1..] + [x];
      WithoutLast(xs[1..], x);
      assert xs == [xs[0]] + xs[1..];
    }
  }

  /** Appending a new element keeps a list duplicate-free. */
  lemma AppendKeepsDistinct<T>(xs: seq<T>, x: T)
    requires Distinct(xs) && x !in xs
    ensures Distinct(xs + [x])
  {
    var ys := xs + [x];
    forall i, j | 0 <= i < j < |ys|
      ensures ys[i] != ys[j]
    {
      if j == |xs| {
        assert ys[i] == xs[i];
      }
    }
  }

  function Elems<T(==,!new)>(xs: seq<T>): (r: set<T>)
    ensures forall x :: x in r <==> x in xs
  {
    set x | x in xs
  }

  /** A duplicate-free list has as many elements as its set. */
  lemma {:induction false} DistinctCard<T(!new)>(xs: seq<T>)
    requires Distinct(xs)
    ensures |Elems(xs)| == |xs|
  {
    if |xs| > 0 {
      var init := xs[..|xs| - 1];
      var last := xs[|xs| - 1];
      DistinctCard(init);
      assert Elems(xs) == Elems(init) + {last};
      assert last !in Elems(init);
    }
  }

  /** A set drawn from a duplicate-free list is no larger than the list, and
      as large only when it is the list's whole set. */
  lemma {:induction false} SubsetOfElems<T(!new)>(a: set<T>, ys: seq<T>)
    requires Distinct(ys) && a <= Elems(ys)
    ensures |a| <= |ys|
    ensures |a| == |ys| ==> a == Elems(ys)
  {
    if |ys| == 0 {
      assert a == {};
    } else {
      var init := ys[..|ys| - 1];
      var last := ys[|ys| - 1];
      assert Elems(ys) == Elems(init) + {last};
      var rest := a - {last};
      SubsetOfElems(rest, init);
      if last in a {
        assert a == rest + {last};
      } else {
        assert a == rest;
      }
    }
  }

  /** A duplicate-free list whose elements all occur in another
      duplicate-free list is no longer than it, and is exactly as long when
      it holds every element of the other. */
  lemma Covers<T(!new)>(xs: seq<T>, ys: seq<T>)
    requires Distinct(xs) && Distinct(ys)
    requires forall i :: 0 <= i < |xs| ==> xs[i] in ys
    ensures |xs| <= |ys|
    ensures |xs| == |ys| <==> forall j :: 0 <= j < |ys| ==> ys[j] in xs
  {
    DistinctCard(xs);
    DistinctCard(ys);
    SubsetOfElems(Elems(xs), ys);
    if forall j :: 0 <= j < |ys| ==> ys[j] in xs {
      SubsetOfElems(Elems(ys), xs);
    }
  }
}
