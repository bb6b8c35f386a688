/** Lists as Python handles them: mapping, distinct elements, and totals that no order changes. */
module Sequences {
  function Map<T, U>(f: T -> U, xs: seq<T>): (ys: seq<U>)
    ensures |ys| == |xs| && forall i :: 0 <= i < |xs| ==> ys[i] == f(xs[i])
  {
    if xs == [] then [] else [f(xs[0])] + Map(f, xs[1..])
  }

  lemma {:induction false} MapConcat<T, U>(f: T -> U, xs: seq<T>, ys: seq<T>)
    ensures Map(f, xs + ys) == Map(f, xs) + Map(f, ys)
  {
    if xs == [] {
      assert xs + ys == ys;
    } else {
      assert (xs + ys)[1..] == xs[1..] + ys;
      MapConcat(f, xs[1..], ys);
    }
  }

  lemma WithoutHead<T>(xs: seq<T>)
    requires xs != []
    ensures multiset(xs[1..]) == multiset(xs) - multiset{xs[0]}
  {
    assert xs == [xs[0]] + xs[1..];
  }

  ghost predicate NoDuplicates<T>(xs: seq<T>) {
    forall i, j :: 0 <= i < j < |xs| ==> xs[i] != xs[j]
  }

  lemma {:induction false} DuplicateFreeMultiset<T>(xs: seq<T>)
    requires NoDuplicates(xs)
    ensures forall x :: multiset(xs)[x] == if x in xs then 1 else 0
  {
    if xs != [] {
      DuplicateFreeMultiset(xs[1..]);
      WithoutHead(xs);
      assert xs == [xs[0]] + xs[1..];
    }
  }

  lemma {:induction false} AtMostOnceMeansNoDuplicates<T>(xs: seq<T>)
    requires forall x :: multiset(xs)[x] <= 1
    ensures NoDuplicates(xs)
  {
    if xs != [] {
      WithoutHead(xs);
      AtMostOnceMeansNoDuplicates(xs[1..]);
      assert xs[0] !in multiset(xs[1..]);
    }
  }

  // ----- rearranging -----

  function Around<T>(xs: seq<T>, e: T, zs: seq<T>): seq<T> {
    xs + [e] + zs
  }

  lemma WithoutMiddle<T>(xs: seq<T>, e: T, zs: seq<T>)
    ensures multiset(xs + zs) == multiset(Around(xs, e, zs)) - multiset{e}
  {
  }

  /** `total` may take any one element first. */
  ghost predicate TakesAnyFirst<T(!new), M>(total: seq<T> -> M, put: (T, M) -> M) {
    forall xs: seq<T>, e: T, zs: seq<T> {:trigger Around(xs, e, zs)} ::
        total(Around(xs, e, zs)) == put(e, total(xs + zs))
  }

  lemma TakesFirst<T(!new), M>(total: seq<T> -> M, put: (T, M) -> M, xs: seq<T>, e: T, zs: seq<T>)
    requires TakesAnyFirst(total, put)
    ensures total(Around(xs, e, zs)) == put(e, total(xs + zs))
  {
  }

  /** Such a total is the same for every arrangement of the same elements. */
  lemma {:induction false} Rearranged<T(!new), M>(total: seq<T> -> M, put: (T, M) -> M, xs: seq<T>, ys: seq<T>)
    requires TakesAnyFirst(total, put) && multiset(xs) == multiset(ys)
    ensures total(xs) == total(ys)
    decreases |xs|
  {
    if xs == [] {
      assert |ys| == |multiset(ys)| == 0;
      assert ys == xs;
    } else {
      var before, after := SplitAt(ys, xs[0]);
      WithoutHead(xs);
      WithoutMiddle(before, xs[0], after);
      Rearranged(total, put, xs[1..], before + after);
      TakesFirst(total, put, before, xs[0], after);
      TakesFirst(total, put, [], xs[0], xs[1..]);
      assert xs == Around([], xs[0], xs[1..]) && xs[1..] == [] + xs[1..];
    }
  }

  /** A list around one of its elements. */
  lemma SplitAt<T>(ys: seq<T>, e: T) returns (before: seq<T>, after: seq<T>)
    requires e in multiset(ys)
    ensures ys == Around(before, e, after)
  {
    var i :| 0 <= i < |ys| && ys[i] == e;
    before, after := ys[..i], ys[i + 1..];
  }

  function MapTotal<T, U>(f: T -> U): seq<T> -> multiset<U> {
    (xs: seq<T>) => multiset(Map(f, xs))
  }

  function PutImage<T, U>(f: T -> U): (T, multiset<U>) -> multiset<U> {
    (e: T, m: multiset<U>) => m + multiset{f(e)}
  }

  lemma MapAround<T, U>(f: T -> U, xs: seq<T>, e: T, zs: seq<T>)
    ensures multiset(Map(f, xs + [e] + zs)) == multiset(Map(f, xs + zs)) + multiset{f(e)}
  {
    MapConcat(f, xs + [e], zs);
    MapConcat(f, xs, [e]);
    MapConcat(f, xs, zs);
    assert [e][1..] == [];
  }

  /** Mapping an arrangement of the same elements gives an arrangement of the same images. */
  lemma MapPermutes<T(!new), U>(f: T -> U, xs: seq<T>, ys: seq<T>)
    requires multiset(xs) == multiset(ys)
    ensures multiset(Map(f, xs)) == multiset(Map(f, ys))
  {
    forall a: seq<T>, e: T, c: seq<T> ensures MapTotal(f)(Around(a, e, c)) == PutImage(f)(e, MapTotal(f)(a + c)) {
      MapAround(f, a, e, c);
    }
    Rearranged(MapTotal(f), PutImage(f), xs, ys);
  }

  /** A sum over a list. */
  function Sum<T>(f: T -> int, xs: seq<T>): int {
    if xs == [] then 0 else Sum(f, xs[..|xs| - 1]) + f(xs[|xs| - 1])
  }

  lemma SumNext<T>(f: T -> int, xs: seq<T>, e: T)
    ensures Sum(f, xs + [e]) == Sum(f, xs) + f(e)
  {
    var more := xs + [e];
    assert more[..|more| - 1] == xs && more[|more| - 1] == e;
  }

  lemma {:induction false} SumConcat<T>(f: T -> int, xs: seq<T>, ys: seq<T>)
    ensures Sum(f, xs + ys) == Sum(f, xs) + Sum(f, ys)
    decreases |ys|
  {
    if ys == [] {
      assert xs + ys == xs;
    } else {
      var n := |ys| - 1;
      var most := xs + ys[..n];
      SumConcat(f, xs, ys[..n]);
      SumNext(f, most, ys[n]);
      assert xs + ys == most + [ys[n]];
      assert Sum(f, ys) == Sum(f, ys[..n]) + f(ys[n]);
    }
  }

  /** Summing over images is summing the composed terms. */
  lemma {:induction false} SumOfMap<T, U>(f: U -> int, g: T -> U, h: T -> int, xs: seq<T>)
    requires forall x :: x in xs ==> h(x) == f(g(x))
    ensures Sum(f, Map(g, xs)) == Sum(h, xs)
    decreases |xs|
  {
    if xs != [] {
      var n := |xs| - 1;
      var front, last := xs[..n], xs[n];
      SumOfMap(f, g, h, front);
      assert xs == front + [last];
      MapConcat(g, front, [last]);
      assert Map(g, [last]) == [g(last)];
      SumNext(f, Map(g, front), g(last));
    }
  }

  function SumTotal<T>(f: T -> int): seq<T> -> int {
    (xs: seq<T>) => Sum(f, xs)
  }

  function PutTerm<T>(f: T -> int): (T, int) -> int {
    (e: T, total: int) => total + f(e)
  }

  /** A sum does not depend on the order of its terms. */
  lemma SumPermutes<T(!new)>(f: T -> int, xs: seq<T>, ys: seq<T>)
    requires multiset(xs) == multiset(ys)
    ensures Sum(f, xs) == Sum(f, ys)
  {
    forall a: seq<T>, e: T, c: seq<T> ensures SumTotal(f)(Around(a, e, c)) == PutTerm(f)(e, SumTotal(f)(a + c)) {
      SumConcat(f, a + [e], c);
      SumNext(f, a, e);
      SumConcat(f, a, c);
    }
    Rearranged(SumTotal(f), PutTerm(f), xs, ys);
  }

  lemma {:induction false} SumMonotone<T>(f: T -> int, g: T -> int, xs: seq<T>)
    requires forall x :: x in xs ==> f(x) <= g(x)
    ensures Sum(f, xs) <= Sum(g, xs)
    decreases |xs|
  {
    if xs != [] {
      SumMonotone(f, g, xs[..|xs| - 1]);
    }
  }

  lemma SumsAgree<T>(f: T -> int, g: T -> int, xs: seq<T>)
    requires forall x :: x in xs ==> f(x) == g(x)
    ensures Sum(f, xs) == Sum(g, xs)
  {
    SumMonotone(f, g, xs);
    SumMonotone(g, f, xs);
  }

  /** Terms that are not negative are below their sum. */
  lemma {:induction false} SumOfNaturals<T>(f: T -> int, xs: seq<T>)
    requires forall x :: x in xs ==> 0 <= f(x)
    ensures 0 <= Sum(f, xs) && forall x :: x in xs ==> f(x) <= Sum(f, xs)
    decreases |xs|
  {
    if xs != [] {
      var n := |xs| - 1;
      assert xs == xs[..n] + [xs[n]];
      SumOfNaturals(f, xs[..n]);
    }
  }

  lemma {:induction false} NoTerms<T>(f: T -> int, xs: seq<T>)
    requires forall x :: x in xs ==> f(x) == 0
    ensures Sum(f, xs) == 0
    decreases |xs|
  {
    if xs != [] {
      NoTerms(f, xs[..|xs| - 1]);
    }
  }

  /** Raising one element's term by one raises a sum over distinct elements by one if it is there. */
  lemma {:induction false} SumRaisedAt<T>(f: T -> int, g: T -> int, xs: seq<T>, e: T)
    requires NoDuplicates(xs)
    requires forall x :: x in xs ==> g(x) == f(x) + if x == e then 1 else 0
    ensures Sum(g, xs) == Sum(f, xs) + if e in xs then 1 else 0
    decreases |xs|
  {
    if xs != [] {
      var n := |xs| - 1;
      assert xs == xs[..n] + [xs[n]];
      assert xs[n] !in xs[..n];
      SumRaisedAt(f, g, xs[..n], e);
    }
  }

  // ----- distinct elements -----

  /** The distinct elements in order of first appearance, as the keys of a Python `dict` come. */
  function Distinct<T(==)>(xs: seq<T>): seq<T> {
    if xs == [] then []
    else
      var seen, x := Distinct(xs[..|xs| - 1]), xs[|xs| - 1];
      if x in seen then seen else seen + [x]
  }

  lemma DistinctNext<T>(xs: seq<T>, x: T)
    ensures Distinct(xs + [x]) == if x in Distinct(xs) then Distinct(xs) else Distinct(xs) + [x]
  {
    var more := xs + [x];
    assert more[..|more| - 1] == xs && more[|more| - 1] == x;
  }

  lemma {:induction false} DistinctHolds<T>(xs: seq<T>)
    ensures NoDuplicates(Distinct(xs))
    ensures forall x :: x in Distinct(xs) <==> x in xs
  {
    if xs != [] {
      var n := |xs| - 1;
      DistinctHolds(xs[..n]);
      assert xs == xs[..n] + [xs[n]];
    }
  }

  lemma InDistinct<T>(xs: seq<T>, x: T)
    ensures x in Distinct(xs) <==> x in xs
  {
    DistinctHolds(xs);
  }

  // ----- the largest of some ids -----

  lemma {:induction false} HasMaximum(s: set<nat>)
    requires s != {}
    ensures exists m :: m in s && forall x :: x in s ==> x <= m
    decreases |s|
  {
    var e :| e in s;
    var rest := s - {e};
    if rest == {} {
      assert s == {e};
    } else {
      HasMaximum(rest);
      var m :| m in rest && forall x :: x in rest ==> x <= m;
      var top := if m < e then e else m;
      forall x | x in s ensures x <= top {
        assert x == e || x in rest;
      }
      assert top in s;
    }
  }

  /** The largest id, or 0 where there is none. */
  function MaxId(ids: set<nat>): (m: nat)
    ensures forall x :: x in ids ==> x <= m
    ensures ids != {} ==> m in ids
  {
    if ids == {} then 0
    else
      HasMaximum(ids);
      var m :| m in ids && forall x :: x in ids ==> x <= m;
      m
  }
}
