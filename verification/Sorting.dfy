/** Python's `sorted`: a stable sort by a key order, and the string order it uses. */
module Sorting {
  import opened Sequences

  /** The order `le` compares any two elements and is transitive. */
  ghost predicate TotalPreorder<T(!new)>(le: (T, T) -> bool) {
    && (forall x, y :: le(x, y) || le(y, x))
    && (forall x, y, z :: le(x, y) && le(y, z) ==> le(x, z))
  }

  ghost predicate Sorted<T>(le: (T, T) -> bool, xs: seq<T>) {
    forall i, j :: 0 <= i < j < |xs| ==> le(xs[i], xs[j])
  }

  function Insert<T>(le: (T, T) -> bool, x: T, xs: seq<T>): seq<T> {
    if xs == [] || le(x, xs[0]) then [x] + xs else [xs[0]] + Insert(le, x, xs[1..])
  }

  /** Insertion from the right keeps equal elements in their original order. */
  function Sort<T>(le: (T, T) -> bool, xs: seq<T>): seq<T> {
    if xs == [] then [] else Insert(le, xs[0], Sort(le, xs[1..]))
  }

  lemma {:induction false} InsertPermutes<T>(le: (T, T) -> bool, x: T, xs: seq<T>)
    ensures multiset(Insert(le, x, xs)) == multiset([x] + xs)
  {
    if xs != [] && !le(x, xs[0]) {
      InsertPermutes(le, x, xs[1..]);
      assert xs == [xs[0]] + xs[1..];
    }
  }

  lemma {:induction false} SortPermutes<T>(le: (T, T) -> bool, xs: seq<T>)
    ensures multiset(Sort(le, xs)) == multiset(xs)
    ensures |Sort(le, xs)| == |xs|
  {
    if xs != [] {
      SortPermutes(le, xs[1..]);
      InsertPermutes(le, xs[0], Sort(le, xs[1..]));
      assert xs == [xs[0]] + xs[1..];
    }
    assert |multiset(Sort(le, xs))| == |Sort(le, xs)|;
  }

  lemma SortKeepsElements<T>(le: (T, T) -> bool, xs: seq<T>)
    ensures forall x :: x in Sort(le, xs) <==> x in xs
  {
    SortPermutes(le, xs);
    forall x ensures x in Sort(le, xs) <==> x in xs {
      assert x in Sort(le, xs) <==> x in multiset(Sort(le, xs));
    }
  }

  lemma {:induction false} InsertSorts<T(!new)>(le: (T, T) -> bool, x: T, xs: seq<T>)
    requires TotalPreorder(le) && Sorted(le, xs)
    ensures Sorted(le, Insert(le, x, xs))
  {
    if xs != [] && !le(x, xs[0]) {
      var rest := Insert(le, x, xs[1..]);
      InsertSorts(le, x, xs[1..]);
      InsertPermutes(le, x, xs[1..]);
      forall k | 0 <= k < |rest| ensures le(xs[0], rest[k]) {
        assert rest[k] in multiset([x] + xs[1..]);
      }
    }
  }

  lemma {:induction false} SortSorts<T(!new)>(le: (T, T) -> bool, xs: seq<T>)
    requires TotalPreorder(le)
    ensures Sorted(le, Sort(le, xs))
  {
    if xs != [] {
      SortSorts(le, xs[1..]);
      InsertSorts(le, xs[0], Sort(le, xs[1..]));
    }
  }

  /** The elements that compare equal to `k`, in order. */
  function Ties<T>(le: (T, T) -> bool, k: T, xs: seq<T>): seq<T> {
    if xs == [] then []
    else (if le(k, xs[0]) && le(xs[0], k) then [xs[0]] else []) + Ties(le, k, xs[1..])
  }

  lemma {:induction false} InsertKeepsTies<T(!new)>(le: (T, T) -> bool, k: T, x: T, xs: seq<T>)
    requires TotalPreorder(le)
    ensures Ties(le, k, Insert(le, x, xs)) == Ties(le, k, [x] + xs)
  {
    assert ([x] + xs)[1..] == xs;
    if xs != [] && !le(x, xs[0]) {
      var rest := Insert(le, x, xs[1..]);
      InsertKeepsTies(le, k, x, xs[1..]);
      assert ([x] + xs[1..])[1..] == xs[1..];
      assert ([xs[0]] + rest)[1..] == rest;
    }
  }

  /** Ties keep their input order. */
  lemma {:induction false} SortIsStable<T(!new)>(le: (T, T) -> bool, k: T, xs: seq<T>)
    requires TotalPreorder(le)
    ensures Ties(le, k, Sort(le, xs)) == Ties(le, k, xs)
  {
    if xs != [] {
      SortIsStable(le, k, xs[1..]);
      InsertKeepsTies(le, k, xs[0], Sort(le, xs[1..]));
      assert ([xs[0]] + Sort(le, xs[1..]))[1..] == Sort(le, xs[1..]);
    }
  }

  lemma LeastFirst<T>(le: (T, T) -> bool, xs: seq<T>, ys: seq<T>)
    requires Sorted(le, xs) && multiset(xs) == multiset(ys) && ys != []
    ensures ys[0] in xs
    ensures ys[0] == xs[0] || le(xs[0], ys[0])
  {
    assert ys[0] in multiset(xs);
  }

  /** Two sorted arrangements of the same elements are equal when no two distinct ones tie. */
  lemma {:induction false} SortedArrangementIsUnique<T(!new)>(le: (T, T) -> bool, xs: seq<T>, ys: seq<T>)
    requires Sorted(le, xs) && Sorted(le, ys) && multiset(xs) == multiset(ys)
    requires forall x, y :: x in xs && y in xs && le(x, y) && le(y, x) ==> x == y
    ensures xs == ys
    decreases |xs|
  {
    assert |xs| == |multiset(xs)| == |multiset(ys)| == |ys|;
    if xs != [] {
      LeastFirst(le, xs, ys);
      LeastFirst(le, ys, xs);
      WithoutHead(xs);
      WithoutHead(ys);
      SortedArrangementIsUnique(le, xs[1..], ys[1..]);
    }
  }

  /** So sorting depends only on which elements there are. */
  lemma SortDependsOnElementsOnly<T(!new)>(le: (T, T) -> bool, xs: seq<T>, ys: seq<T>)
    requires TotalPreorder(le) && multiset(xs) == multiset(ys)
    requires forall x, y :: x in xs && y in xs && le(x, y) && le(y, x) ==> x == y
    ensures Sort(le, xs) == Sort(le, ys)
  {
    SortSorts(le, xs);
    SortSorts(le, ys);
    SortPermutes(le, xs);
    SortPermutes(le, ys);
    SortKeepsElements(le, xs);
    SortedArrangementIsUnique(le, Sort(le, xs), Sort(le, ys));
  }

  lemma DuplicateFreeSort<T>(le: (T, T) -> bool, xs: seq<T>)
    requires NoDuplicates(xs)
    ensures NoDuplicates(Sort(le, xs))
  {
    DuplicateFreeMultiset(xs);
    SortPermutes(le, xs);
    AtMostOnceMeansNoDuplicates(Sort(le, xs));
  }

  /** Two sorted duplicate-free lists of the same elements are equal. */
  lemma SortedSetIsUnique<T(!new)>(le: (T, T) -> bool, xs: seq<T>, ys: seq<T>)
    requires Sorted(le, xs) && Sorted(le, ys) && NoDuplicates(xs) && NoDuplicates(ys)
    requires forall x :: x in xs <==> x in ys
    requires forall x, y :: x in xs && y in xs && le(x, y) && le(y, x) ==> x == y
    ensures xs == ys
  {
    DuplicateFreeMultiset(xs);
    DuplicateFreeMultiset(ys);
    SortedArrangementIsUnique(le, xs, ys);
  }

  /** Python's string order: by code point, a proper prefix first. */
  predicate StringLe(a: string, b: string) {
    a == "" || (b != "" && (a[0] < b[0] || (a[0] == b[0] && StringLe(a[1..], b[1..]))))
  }

  lemma {:induction false} StringLeTotal(a: string, b: string)
    ensures StringLe(a, b) || StringLe(b, a)
    ensures StringLe(a, b) && StringLe(b, a) ==> a == b
  {
    if a != "" && b != "" && a[0] == b[0] {
      StringLeTotal(a[1..], b[1..]);
      assert a == [a[0]] + a[1..] && b == [b[0]] + b[1..];
    }
  }

  lemma {:induction false} StringLeTransitive(a: string, b: string, c: string)
    requires StringLe(a, b) && StringLe(b, c)
    ensures StringLe(a, c)
  {
    if a != "" && a[0] == b[0] == c[0] {
      StringLeTransitive(a[1..], b[1..], c[1..]);
    }
  }

  ghost predicate IsPrefix(a: string, b: string) {
    |a| <= |b| && b[..|a|] == a
  }

  /** The texts agree up to `i`, where `a` has the smaller character. */
  ghost predicate FallsBehind(a: string, b: string, i: nat) {
    i < |a| && i < |b| && a[..i] == b[..i] && a[i] < b[i]
  }

  /** String order: a prefix comes first, otherwise the first difference decides. */
  lemma {:induction false} StringLeSpelledOut(a: string, b: string)
    ensures StringLe(a, b) <==> IsPrefix(a, b) || exists i: nat :: FallsBehind(a, b, i)
    decreases |a|
  {
    if a != "" && b != "" && a[0] == b[0] {
      StringLeSpelledOut(a[1..], b[1..]);
      SameHead(a, b);
    } else if a != "" && b != "" {
      OtherHead(a, b);
    }
  }

  lemma OtherHead(a: string, b: string)
    requires a != "" && b != "" && a[0] != b[0]
    ensures !IsPrefix(a, b)
    ensures (exists i: nat :: FallsBehind(a, b, i)) <==> a[0] < b[0]
  {
    if a[0] < b[0] {
      assert FallsBehind(a, b, 0);
    }
    forall i: nat | i > 0 ensures !FallsBehind(a, b, i) {
      if i < |a| && i < |b| {
        assert a[..i][0] == a[0] && b[..i][0] == b[0];
      }
    }
    if |a| <= |b| {
      assert b[..|a|][0] == b[0];
    }
  }

  lemma SameHead(a: string, b: string)
    requires a != "" && b != "" && a[0] == b[0]
    ensures IsPrefix(a, b) <==> IsPrefix(a[1..], b[1..])
    ensures (exists i: nat :: FallsBehind(a, b, i)) <==> exists i: nat :: FallsBehind(a[1..], b[1..], i)
  {
    var x, y := a[1..], b[1..];
    if |a| <= |b| {
      assert b[..|a|] == [b[0]] + y[..|x|] && a == [a[0]] + x;
      assert b[..|a|][1..] == y[..|x|];
    }
    forall i: nat ensures FallsBehind(x, y, i) <==> FallsBehind(a, b, i + 1) {
      OneFurther(a, b, i);
    }
    if i: nat :| FallsBehind(a, b, i) {
      assert i > 0;
      assert FallsBehind(x, y, i - 1);
    }
  }

  lemma OneFurther(a: string, b: string, i: nat)
    requires a != "" && b != "" && a[0] == b[0]
    ensures FallsBehind(a[1..], b[1..], i) <==> FallsBehind(a, b, i + 1)
  {
    if i < |a| - 1 && i < |b| - 1 {
      assert a[..i + 1] == [a[0]] + a[1..][..i] && b[..i + 1] == [b[0]] + b[1..][..i];
      assert a[..i + 1][1..] == a[1..][..i] && b[..i + 1][1..] == b[1..][..i];
    }
  }
}
