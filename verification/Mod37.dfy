/** Positional notation, and the arithmetic modulo 37 that the check symbol rests on. */
module Mod37 {
  function Pow(b: nat, k: nat): nat {
    if k == 0 then 1 else b * Pow(b, k - 1)
  }

  /** The number with digits `vs` in `base`, most significant first. */
  function Horner(vs: seq<nat>, base: nat): nat {
    if vs == [] then 0 else Horner(vs[..|vs| - 1], base) * base + vs[|vs| - 1]
  }

  /** The `n` low digits of `value` in `base`, most significant first. */
  function Digits(value: nat, base: nat, n: nat): (ds: seq<nat>)
    requires base > 0
    ensures |ds| == n && forall i :: 0 <= i < n ==> ds[i] < base
    decreases n
  {
    if n == 0 then [] else Digits(value / base, base, n - 1) + [value % base]
  }

  lemma HornerSnoc(vs: seq<nat>, v: nat, base: nat)
    ensures Horner(vs + [v], base) == Horner(vs, base) * base + v
  {
    assert (vs + [v])[..|vs|] == vs;
  }

  lemma {:induction false} PowSplit(b: nat, j: nat, k: nat)
    ensures Pow(b, j + k) == Pow(b, j) * Pow(b, k)
  {
    if j > 0 {
      PowSplit(b, j - 1, k);
      assert b * (Pow(b, j - 1) * Pow(b, k)) == (b * Pow(b, j - 1)) * Pow(b, k);
    }
  }

  lemma {:induction false} PowOfPow(b: nat, j: nat, k: nat)
    ensures Pow(Pow(b, j), k) == Pow(b, j * k)
  {
    if k > 0 {
      PowOfPow(b, j, k - 1);
      PowSplit(b, j, j * (k - 1));
      assert j + j * (k - 1) == j * k;
    }
  }

  lemma {:induction false} ZeroHasZeroDigits(base: nat, n: nat)
    requires base > 0
    ensures forall i :: 0 <= i < n ==> Digits(0, base, n)[i] == 0
  {
    if n > 0 {
      assert 0 / base == 0 && 0 % base == 0;
      ZeroHasZeroDigits(base, n - 1);
    }
  }

  lemma {:induction false} PowIsPositive(b: nat, k: nat)
    requires b > 0
    ensures Pow(b, k) > 0
  {
    if k > 0 {
      PowIsPositive(b, k - 1);
      assert b * Pow(b, k - 1) >= Pow(b, k - 1);
    }
  }

  /** Digits and value determine each other. */
  lemma {:induction false} DigitsDenote(value: nat, base: nat, n: nat)
    requires base > 0 && value < Pow(base, n)
    ensures Horner(Digits(value, base, n), base) == value
    decreases n
  {
    if n > 0 {
      QuotientBound(value, base, Pow(base, n - 1));
      DigitsDenote(value / base, base, n - 1);
      HornerSnoc(Digits(value / base, base, n - 1), value % base, base);
    }
  }

  lemma QuotientBound(value: nat, base: nat, bound: nat)
    requires base > 0 && value < base * bound
    ensures value / base < bound
    ensures value == value / base * base + value % base
  {
    var q := value / base;
    assert value == q * base + value % base;
    if q >= bound {
      MulMonotone(base, bound, q);
    }
  }

  lemma MulMonotone(b: nat, x: nat, y: nat)
    requires x <= y
    ensures b * x <= b * y
  {
  }

  lemma {:induction false} HornerBound(vs: seq<nat>, base: nat)
    requires forall i :: 0 <= i < |vs| ==> vs[i] < base
    ensures Horner(vs, base) < Pow(base, |vs|)
  {
    if vs != [] {
      var front := vs[..|vs| - 1];
      HornerBound(front, base);
      MulMonotone(base, Horner(front, base) + 1, Pow(base, |front|));
      assert base * (Horner(front, base) + 1) == Horner(front, base) * base + base;
    }
  }

  lemma {:induction false} HornerInjective(vs: seq<nat>, ws: seq<nat>, base: nat)
    requires |vs| == |ws|
    requires forall i :: 0 <= i < |vs| ==> vs[i] < base && ws[i] < base
    requires Horner(vs, base) == Horner(ws, base)
    ensures vs == ws
  {
    if vs != [] {
      var n := |vs| - 1;
      SameQuotient(base, Horner(vs[..n], base), vs[n], Horner(ws[..n], base), ws[n]);
      HornerInjective(vs[..n], ws[..n], base);
      assert vs == vs[..n] + [vs[n]] && ws == ws[..n] + [ws[n]];
    }
  }

  lemma SameQuotient(base: nat, q: nat, r: nat, q': nat, r': nat)
    requires r < base && r' < base && q * base + r == q' * base + r'
    ensures q == q' && r == r'
  {
    assert (q - q') * base == r' - r;
    if q < q' {
      MulMonotone(base, 1, q' - q);
    } else if q' < q {
      MulMonotone(base, 1, q - q');
    }
  }

  /** Changing one digit moves the number by the change times the digit's weight. */
  lemma {:induction false} HornerUpdate(vs: seq<nat>, i: nat, v: nat, base: nat)
    requires i < |vs|
    ensures Horner(vs[i := v], base) as int - Horner(vs, base) == (v as int - vs[i]) * Pow(base, |vs| - 1 - i)
  {
    var n := |vs| - 1;
    if i < n {
      HornerUpdate(vs[..n], i, v, base);
      assert vs[i := v][..n] == vs[..n][i := v];
      Scaled(Horner(vs[..n][i := v], base), Horner(vs[..n], base), v as int - vs[i], Pow(base, n - 1 - i), base);
    } else {
      assert vs[i := v][..n] == vs[..n];
    }
  }

  lemma Scaled(x: int, y: int, d: int, p: int, base: int)
    requires x - y == d * p
    ensures x * base - y * base == d * (base * p)
  {
    assert x * base - y * base == (x - y) * base;
  }

  /** Swapping two digits moves the number by their difference times each weight. */
  lemma HornerSwap(vs: seq<nat>, i: nat, j: nat, base: nat)
    requires i < j < |vs|
    ensures var d := vs[j] as int - vs[i];
            Horner(vs[i := vs[j]][j := vs[i]], base) - Horner(vs, base)
            == d * Pow(base, |vs| - 1 - i) - d * Pow(base, |vs| - 1 - j)
  {
    HornerUpdate(vs, i, vs[j], base);
    HornerUpdate(vs[i := vs[j]], j, vs[i], base);
    assert (vs[i] as int - vs[j]) * Pow(base, |vs| - 1 - j) == -((vs[j] as int - vs[i]) * Pow(base, |vs| - 1 - j));
  }

  // ----- divisibility by 37 -----

  ghost predicate Multiple(x: int) {
    exists k: int :: x == 37 * k
  }

  lemma MultipleIffRemainder(x: int, y: int)
    ensures Multiple(x - y) <==> x % 37 == y % 37
  {
    if x % 37 == y % 37 {
      assert x - y == 37 * (x / 37 - y / 37);
    }
    if Multiple(x - y) {
      var k :| x - y == 37 * k;
      assert (y + 37 * k) % 37 == y % 37;
    }
  }

  /** 37 has no factor strictly between 1 and itself. */
  lemma ThirtySevenIsPrime(x: int, q: int)
    requires 1 < x < 37
    ensures x * q != 37
  {
    if x <= 6 {
      if x == 2 { } else if x == 3 { } else if x == 4 { } else if x == 5 { } else { }
    } else if q >= 6 {
      MulMonotone(x, 6, q);
    } else if q == 5 { } else if q == 4 { } else if q == 3 { } else if q == 2 { } else if q == 1 { } else {
      MulMonotone(x, 0, -q);
    }
  }

  /** A product is a multiple of 37 only if a factor is (Euclid, descending on the first). */
  lemma {:induction false} EuclidSmall(x: int, b: int)
    requires 0 < x < 37 && Multiple(x * b)
    ensures Multiple(b)
    decreases x
  {
    if x > 1 {
      var q, r := 37 / x, 37 % x;
      assert x * q + r == 37;
      if r == 0 {
        ThirtySevenIsPrime(x, q);
      }
      var k :| x * b == 37 * k;
      assert r * b == 37 * b - x * b * q == 37 * (b - k * q);
      EuclidSmall(r, b);
    } else {
      var k :| x * b == 37 * k;
    }
  }

  lemma Euclid(a: int, b: int)
    requires Multiple(a * b)
    ensures Multiple(a) || Multiple(b)
  {
    var x := a % 37;
    if x == 0 {
      assert a == 37 * (a / 37);
    } else {
      var k :| a * b == 37 * k;
      assert x * b == a * b - 37 * (a / 37) * b == 37 * (k - (a / 37) * b);
      EuclidSmall(x, b);
    }
  }

  lemma SmallMultipleIsZero(x: int)
    requires -37 < x < 37 && Multiple(x)
    ensures x == 0
  {
  }

  // ----- powers of 32 modulo 37 -----

  function Residue(k: nat): nat {
    if k == 0 then 1 else Residue(k - 1) * 32 % 37
  }

  lemma {:induction false} ResidueIsPower(k: nat)
    ensures Pow(32, k) % 37 == Residue(k)
  {
    if k > 0 {
      ResidueIsPower(k - 1);
      RemainderScales(Pow(32, k - 1));
    }
  }

  lemma RemainderScales(p: int)
    ensures (32 * p) % 37 == (p % 37 * 32) % 37
  {
    assert 32 * p - p % 37 * 32 == 37 * (32 * (p / 37));
    MultipleIffRemainder(32 * p, p % 37 * 32);
  }

  const RESIDUES: seq<nat> := [1, 32, 25, 23, 33, 20, 11, 19, 16, 31, 30, 35, 10, 24,
                               28, 8, 34, 15, 36, 5, 12, 14, 4, 17, 26, 18, 21]

  lemma TableStep(k: nat)
    requires 0 < k < |RESIDUES|
    ensures RESIDUES[k] == RESIDUES[k - 1] * 32 % 37
  {
    if k == 1 { } else if k == 2 { } else if k == 3 { } else if k == 4 { } else if k == 5 { } else if k == 6 { }
    else if k == 7 { } else if k == 8 { } else if k == 9 { } else if k == 10 { } else if k == 11 { } else if k == 12 { }
    else if k == 13 { } else if k == 14 { } else if k == 15 { } else if k == 16 { }
    else if k == 17 { } else if k == 18 { }
    else if k == 19 { } else if k == 20 { } else if k == 21 { } else if k == 22 { }
    else if k == 23 { } else if k == 24 { }
    else if k == 25 { } else if k == 26 { }
  }

  lemma {:induction false} ResidueTable(k: nat)
    requires k < |RESIDUES|
    ensures Residue(k) == RESIDUES[k]
  {
    if k > 0 {
      ResidueTable(k - 1);
      TableStep(k);
    }
  }

  /** 32 has order 36 modulo 37: among the distances a code can have, no power but the zeroth is
      1, and only the 18th is -1. */
  lemma PowersOf32(k: nat)
    requires k < |RESIDUES|
    ensures Pow(32, k) % 37 != 0
    ensures Pow(32, k) % 37 == 1 <==> k == 0
    ensures Pow(32, k) % 37 == 36 <==> k == 18
  {
    ResidueIsPower(k);
    ResidueTable(k);
  }
}
