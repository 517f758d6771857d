/** Bitwise operations on bytes as numbers: exclusive or, which undoes itself, and or. */
module BitOps {
  import opened Arith
  import opened MachineTypes

  /** Exclusive or of the n low bits. */
  function XorBits(x: nat, y: nat, n: nat): nat {
    if n == 0 then 0 else (x + y) % 2 + 2 * XorBits(x / 2, y / 2, n - 1)
  }

  lemma {:induction false} XorBelow(x: nat, y: nat, n: nat)
    ensures XorBits(x, y, n) < Pow2(n)
  {
    if n > 0 {
      XorBelow(x / 2, y / 2, n - 1);
    }
  }

  function Xor8(x: byte, y: byte): byte {
    XorBelow(x, y, 8);
    Pow2Add8(0);
    XorBits(x, y, 8)
  }

  lemma XorHalves(x: nat, y: nat, n: nat)
    requires n > 0
    ensures XorBits(x, y, n) % 2 == (x + y) % 2 && XorBits(x, y, n) / 2 == XorBits(x / 2, y / 2, n - 1)
  {
  }

  lemma Parity(x: nat, y: nat, z: nat, u: nat)
    requires u % 2 == (x + y) % 2
    ensures (u + z) % 2 == x % 2 <==> y % 2 == z % 2
  {
  }

  lemma SameHalves(x: nat, y: nat)
    ensures x == y <==> x / 2 == y / 2 && x % 2 == y % 2
  {
  }

  lemma XorStep(x: nat, y: nat, n: nat)
    requires n > 0
    ensures XorBits(x, y, n) == (x + y) % 2 + 2 * XorBits(x / 2, y / 2, n - 1)
  {
  }

  lemma {:induction false} XorTwice(x: nat, y: nat, z: nat, n: nat)
    requires x < Pow2(n) && y < Pow2(n) && z < Pow2(n)
    ensures XorBits(XorBits(x, y, n), z, n) == x <==> y == z
  {
    if n > 0 {
      hide XorBits;
      XorTwice(x / 2, y / 2, z / 2, n - 1);
      var u := XorBits(x, y, n);
      XorHalves(x, y, n);
      XorHalves(u, z, n);
      Parity(x, y, z, u);
      SameHalves(XorBits(u, z, n), x);
      SameHalves(y, z);
    }
  }

  lemma Xor8Twice(x: byte, y: byte, z: byte)
    ensures Xor8(Xor8(x, y), z) == x <==> y == z
  {
    hide XorBits;
    Pow2Add8(0);
    XorTwice(x, y, z, 8);
  }

  lemma {:induction false} XorZero(x: nat, n: nat)
    requires x < Pow2(n)
    ensures XorBits(x, 0, n) == x
  {
    if n > 0 {
      XorZero(x / 2, n - 1);
    }
  }

  lemma {:induction false} ZeroXor(y: nat, n: nat)
    requires y < Pow2(n)
    ensures XorBits(0, y, n) == y
  {
    if n > 0 {
      XorStep(0, y, n);
      ZeroXor(y / 2, n - 1);
    }
  }

  lemma {:induction false} NothingLeft(x: nat, n: nat)
    ensures XorBits(x, x, n) == 0
  {
    if n > 0 {
      NothingLeft(x / 2, n - 1);
      Twice(x);
      hide XorBits;
      XorStep(x, x, n);
    }
  }

  lemma Twice(x: nat)
    ensures (x + x) % 2 == 0
  {
    DivModUnique(2, x + x, x, 0);
  }

  /** The low byte of a seed. */
  function LowByte(seed: int16): byte { (seed as int) % 0x100 }

  function HighByte(seed: int16): byte { (seed as int) / 0x100 % 0x100 }

  /** Or of the n low bits. */
  function OrBits(x: nat, y: nat, n: nat): nat {
    if n == 0 then 0 else (if x % 2 + y % 2 == 0 then 0 else 1) + 2 * OrBits(x / 2, y / 2, n - 1)
  }

  lemma {:induction false} OrBelow(x: nat, y: nat, n: nat)
    ensures OrBits(x, y, n) < Pow2(n)
  {
    if n > 0 {
      OrBelow(x / 2, y / 2, n - 1);
    }
  }

  function Or8(x: byte, y: byte): byte {
    OrBelow(x, y, 8);
    Pow2Add8(0);
    OrBits(x, y, 8)
  }

  lemma OrHalves(x: nat, y: nat, n: nat)
    requires n > 0 && x % 2 == 1
    ensures OrBits(x, y, n) == 1 + 2 * OrBits(x / 2, y / 2, n - 1)
  {
  }

  lemma {:induction false} OrFits(x: nat, y: nat, m: nat, n: nat)
    requires x < Pow2(m) && y < Pow2(m) && m <= n
    ensures x <= OrBits(x, y, n) < Pow2(m) && y <= OrBits(x, y, n)
    decreases n
  {
    if n > 0 {
      OrFits(x / 2, y / 2, if m == 0 then 0 else m - 1, n - 1);
    }
  }

  lemma {:induction false} NoBits(n: nat)
    ensures OrBits(0, 0, n) == 0
  {
    if n > 0 { NoBits(n - 1); }
  }
}
