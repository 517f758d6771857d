/** Positional numerals: the specification of `printnum`. */
module Numerals {
  import opened Arith

  function Pow(b: nat, k: nat): nat { if k == 0 then 1 else b * Pow(b, k - 1) }

  /** The digits of num, most significant first; 0 is one digit. */
  function Numeral(num: nat, base: nat): (r: seq<nat>)
    requires base >= 2
    ensures |r| >= 1
    decreases num
  {
    if num < base then [num] else Shrinks(num, base); Numeral(num / base, base) + [num % base]
  }

  lemma Shrinks(num: nat, base: nat)
    requires 2 <= base <= num
    ensures 0 < num / base < num
  {
    Euclid(base, num);
    var q := num / base;
    if q <= 0 {
      MulMono(q, 0, base);
    } else {
      MulMono(2, base, q);
    }
  }

  function Value(ds: seq<int>, base: nat): int {
    if ds == [] then 0 else base * Value(ds[..|ds| - 1], base) + ds[|ds| - 1]
  }

  /** Digits of the base, with no zero in front of others. */
  predicate Canonical(ds: seq<nat>, base: nat) {
    ds != [] && (forall d :: d in ds ==> d < base) && (|ds| > 1 ==> ds[0] > 0)
  }

  lemma {:induction false} NumeralValue(num: nat, base: nat)
    requires base >= 2
    ensures Canonical(Numeral(num, base), base) && Value(Numeral(num, base), base) == num
    ensures num > 0 ==> Numeral(num, base)[0] > 0
    decreases num
  {
    if num >= base {
      Shrinks(num, base);
      NumeralValue(num / base, base);
      var r := Numeral(num / base, base);
      assert (r + [num % base])[..|r|] == r;
      Euclid(base, num);
    } else {
      assert Value([], base) == 0;
    }
  }

  lemma NumeralSnoc(v: nat, d: nat, base: nat)
    requires base >= 2 && v > 0 && d < base
    ensures base * v + d > 0 && Numeral(base * v + d, base) == Numeral(v, base) + [d]
  {
    MulMono(1, v, base);
    DivModUnique(base, base * v + d, v, d);
  }

  /** There is only one canonical numeral of a number. */
  lemma {:induction false} NumeralUnique(ds: seq<nat>, base: nat)
    requires base >= 2 && Canonical(ds, base)
    ensures Value(ds, base) >= 0 && ds == Numeral(Value(ds, base), base)
    ensures ds[0] > 0 ==> Value(ds, base) > 0
  {
    var n := |ds| - 1;
    var r, d := ds[..n], ds[n];
    assert d in ds && ds == r + [d];
    assert forall x :: x in r ==> x in ds;
    if n == 0 {
      assert Value(r, base) == 0 && ds == [d];
    } else {
      hide Numeral;
      NumeralUnique(r, base);
      NumeralSnoc(Value(r, base), d, base);
    }
  }

  /** k digits are enough below the k-th power of the base. */
  lemma {:induction false} NumeralLength(num: nat, base: nat, k: nat)
    requires base >= 2 && k >= 1
    ensures |Numeral(num, base)| <= k <==> num < Pow(base, k)
    decreases num
  {
    if num < base {
      assert Pow(base, 1) == base * Pow(base, 0) == base;
      PowMono(base, 1, k);
    } else {
      Shrinks(num, base);
      if k == 1 {
        assert Pow(base, 1) == base * Pow(base, 0) == base;
      } else {
        NumeralLength(num / base, base, k - 1);
        Scaled(num, base, Pow(base, k - 1));
      }
    }
  }

  lemma Scaled(num: nat, base: nat, p: nat)
    requires base >= 1
    ensures num / base < p <==> num < base * p
  {
    Euclid(base, num);
    var q := num / base;
    if q < p { MulMono(q + 1, p, base); } else { MulMono(p, q, base); }
  }

  lemma {:induction false} PowMono(b: nat, j: nat, k: nat)
    requires b >= 1 && j <= k
    ensures 1 <= Pow(b, j) <= Pow(b, k)
    decreases k
  {
    if j < k {
      PowMono(b, j, k - 1);
      MulMono(1, b, Pow(b, k - 1));
    } else if k > 0 {
      PowMono(b, k - 1, k - 1);
      MulMono(1, b, Pow(b, k - 1));
    }
  }
}
