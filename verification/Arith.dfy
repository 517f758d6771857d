/** The few facts of integer arithmetic that the solver needs to be told. */
module Arith {

  lemma MulMono(a: int, b: int, k: int)
    requires a <= b && 0 <= k
    ensures a * k <= b * k
  {
  }

  lemma MulSucc(a: int, k: int)
    ensures (a + 1) * k == a * k + k
  {
  }

  /** Quotient and remainder are unique. */
  lemma DivModUnique(n: int, x: int, q: int, r: int)
    requires n >= 1 && x == n * q + r && 0 <= r < n
    ensures x / n == q && x % n == r
  {
    var q', r' := x / n, x % n;
    Euclid(n, x);
    assert n * (q - q') == r' - r;
    if q > q' {
      MulMono(1, q - q', n);
    } else if q' > q {
      MulMono(1, q' - q, n);
    }
  }

  lemma Euclid(n: int, x: int)
    requires n >= 1
    ensures x == n * (x / n) + x % n && 0 <= x % n < n
  {
  }

  function Pow2(n: nat): (r: nat)
    ensures r > 0
  {
    if n == 0 then 1 else 2 * Pow2(n - 1)
  }

  lemma {:induction false} Pow2Mono(a: nat, b: nat)
    requires a <= b
    ensures Pow2(a) <= Pow2(b)
    decreases b
  {
    if a < b {
      Pow2Mono(a, b - 1);
    }
  }

  lemma Pow2Add8(e: nat)
    ensures Pow2(e + 8) == 256 * Pow2(e)
  {
    assert Pow2(e + 2) == 4 * Pow2(e) && Pow2(e + 4) == 4 * Pow2(e + 2);
    assert Pow2(e + 6) == 4 * Pow2(e + 4) && Pow2(e + 8) == 4 * Pow2(e + 6);
  }
}
