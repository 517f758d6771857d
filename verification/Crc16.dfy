/** The 16-bit CRC of `core_util.c`, least significant bit first, against division by
    x^16 + x^15 + x^2 + 1, most significant bit first on reversed registers. */
module Crc16 {
  import opened Arith
  import opened Gf2
  import opened MachineTypes

  // ----- core_util.c

  /** One turn of the loop of `crcu8`: the rest of the data, and the register. */
  function CrcBit(data: byte, crc: bv16): (byte, bv16) {
    if (data % 2 == 1) != (crc & 1 == 1) then (data / 2, ((crc ^ 0x4002) >> 1) | 0x8000)
    else (data / 2, (crc >> 1) & 0x7fff)
  }

  function Crcu8Bits(data: byte, crc: bv16, n: nat): bv16
    decreases n
  {
    if n == 0 then crc else var (d, c) := CrcBit(data, crc); Crcu8Bits(d, c, n - 1)
  }

  function Crcu8(data: byte, crc: bv16): bv16 { Crcu8Bits(data, crc, 8) }

  /** The low byte goes first. */
  function Crcu16(newval: Word, crc: bv16): bv16 {
    Crcu8(newval.hi, Crcu8(newval.lo, crc))
  }

  /** And so does the low half. */
  function Crcu32(x: nat, crc: bv16): bv16 {
    Crcu16(Word(x / 0x100_0000 % 0x100, x / 0x1_0000 % 0x100), Crcu16(Word(x / 0x100 % 0x100, x % 0x100), crc))
  }

  /** A register as a data word. */
  function WordOf(crc: bv16): Word { Word((crc >> 8) as int, (crc & 0xff) as int) }

  // ----- division by the generator, one bit at a time

  /** Swaps neighbouring bits, pairs, nibbles, and then bytes. */
  function Reverse(x: bv16): bv16 {
    var a := ((x & 0x5555) << 1) | ((x >> 1) & 0x5555);
    var b := ((a & 0x3333) << 2) | ((a >> 2) & 0x3333);
    var c := ((b & 0x0F0F) << 4) | ((b >> 4) & 0x0F0F);
    (c << 8) | (c >> 8)
  }

  /** The next bit of the dividend comes in; when one goes out at the top, the generator is taken off. */
  function Step(r: bv16, bit: bool): bv16 { if Top(r) != bit then Xor(Twice(r), 0x8005) else Twice(r) }

  function Register(r: bv16, bits: seq<bool>): bv16 {
    if bits == [] then r else Step(Register(r, bits[..|bits| - 1]), bits[|bits| - 1])
  }

  /** The n low bits of x, lowest first. */
  function Bits(x: nat, n: nat): (r: seq<bool>)
    ensures |r| == n
  {
    if n == 0 then [] else [x % 2 == 1] + Bits(x / 2, n - 1)
  }

  /** The value of a data word. */
  function Value(w: Word): nat { 0x100 * w.hi + w.lo }

  lemma ReverseInvolution(x: bv16)
    ensures Reverse(Reverse(x)) == x
  {
  }

  lemma ReverseXor(x: bv16, y: bv16)
    ensures Reverse(Xor(x, y)) == Xor(Reverse(x), Reverse(y))
  {
  }

  lemma ReverseShifts(x: bv16)
    ensures Reverse(x >> 1) == Twice(Reverse(x))
    ensures x & 1 == 1 <==> Top(Reverse(x))
  {
  }

  lemma Generator()
    ensures Reverse(0xA001) == 0x8005
  {
  }

  lemma ShiftedOut(c: bv16)
    ensures ((c ^ 0x4002) >> 1) | 0x8000 == Xor(c >> 1, 0xA001) && (c >> 1) & 0x7fff == c >> 1
  {
  }

  /** One turn of the loop is, reversed, one step of the division by 0x8005 with the top bit implied. */
  lemma TurnIsStep(d: byte, c: bv16)
    ensures CrcBit(d, c).0 == d / 2 && Reverse(CrcBit(d, c).1) == Step(Reverse(c), d % 2 == 1)
  {
    hide Reverse, Xor, Top, Twice;
    ShiftedOut(c);
    ReverseShifts(c);
    ReverseXor(c >> 1, 0xA001);
    Generator();
  }

  lemma RegisterSnoc(r: bv16, bits: seq<bool>, b: bool)
    ensures Register(r, bits + [b]) == Step(Register(r, bits), b) && Register(r, []) == r
  {
    hide Step;
    assert (bits + [b])[..|bits|] == bits;
  }

  lemma {:induction false} RegisterBoth(r: bv16, a: seq<bool>, b: seq<bool>)
    ensures Register(r, a + b) == Register(Register(r, a), b)
  {
    hide Step, Register;
    if b == [] {
      assert a + b == a;
      RegisterSnoc(Register(r, a), [], true);
    } else {
      var n := |b| - 1;
      assert a + b == (a + b[..n]) + [b[n]] && b == b[..n] + [b[n]];
      RegisterBoth(r, a, b[..n]);
      RegisterSnoc(r, a + b[..n], b[n]);
      RegisterSnoc(Register(r, a), b[..n], b[n]);
    }
  }

  lemma RegisterOne(r: bv16, b: bool)
    ensures Register(r, [b]) == Step(r, b)
  {
    hide Step;
    assert [b][..0] == [];
  }

  lemma {:induction false} LoopIsRegister(d: byte, c: bv16, n: nat)
    ensures Reverse(Crcu8Bits(d, c, n)) == Register(Reverse(c), Bits(d, n))
    decreases n
  {
    hide Reverse, CrcBit, Step, Register;
    if n == 0 {
      RegisterSnoc(Reverse(c), [], true);
    } else {
      var (d', c') := CrcBit(d, c);
      TurnIsStep(d, c);
      LoopIsRegister(d', c', n - 1);
      RegisterOne(Reverse(c), d % 2 == 1);
      RegisterBoth(Reverse(c), [d % 2 == 1], Bits(d / 2, n - 1));
    }
  }

  lemma {:induction false} BitsJoin(x: nat, y: nat, m: nat, n: nat)
    requires x < Pow2(m)
    ensures Bits(x + Pow2(m) * y, m + n) == Bits(x, m) + Bits(y, n)
  {
    if m > 0 {
      var z := x + Pow2(m) * y;
      JoinHalves(x, Pow2(m - 1), y);
      BitsJoin(x / 2, y, m - 1, n);
    }
  }

  lemma JoinHalves(x: nat, p: nat, y: nat)
    ensures (x + 2 * p * y) % 2 == x % 2 && (x + 2 * p * y) / 2 == x / 2 + p * y
  {
    var k := p * y;
    assert x + 2 * p * y == x + 2 * k;
  }

  /** `crcu8` divides on through the eight bits of the byte, lowest first. */
  lemma Crcu8Divides(x: byte, c: bv16)
    ensures Reverse(Crcu8(x, c)) == Register(Reverse(c), Bits(x, 8))
  {
    hide Reverse, Crcu8Bits, Register, Bits;
    LoopIsRegister(x, c, 8);
  }

  lemma TwoBytes(lo: byte, hi: nat, n: nat)
    ensures Bits(0x100 * hi + lo, 8 + n) == Bits(lo, 8) + Bits(hi, n)
  {
    assert Pow2(4) == 16 && Pow2(8) == 256;
    BitsJoin(lo, hi, 8, n);
  }

  /** `crcu16` through the sixteen bits of the word. */
  lemma Crcu16Divides(w: Word, c: bv16)
    ensures Reverse(Crcu16(w, c)) == Register(Reverse(c), Bits(Value(w), 16))
  {
    hide Reverse, Crcu8, Register, Bits;
    Crcu8Divides(w.lo, c);
    Crcu8Divides(w.hi, Crcu8(w.lo, c));
    TwoBytes(w.lo, w.hi, 8);
    RegisterBoth(Reverse(c), Bits(w.lo, 8), Bits(w.hi, 8));
  }

  lemma FourBytes(x: nat)
    ensures x % 0x1_0000 == 0x100 * (x / 0x100 % 0x100) + x % 0x100
    ensures x / 0x1_0000 % 0x1_0000 == 0x100 * (x / 0x100_0000 % 0x100) + x / 0x1_0000 % 0x100
  {
    TwoOf(x);
    TwoOf(x / 0x1_0000);
    assert x / 0x1_0000 / 0x100 == x / 0x100_0000;
  }

  lemma TwoOf(x: nat)
    ensures x % 0x1_0000 == 0x100 * (x / 0x100 % 0x100) + x % 0x100
  {
    var q := x / 0x100;
    Euclid(0x100, x);
    Euclid(0x100, q);
    DivModUnique(0x1_0000, x, q / 0x100, 0x100 * (q % 0x100) + x % 0x100);
  }

  lemma {:induction false} BitsCut(x: nat, m: nat, n: nat)
    requires n <= m
    ensures Bits(x % Pow2(m), n) == Bits(x, n)
  {
    if n > 0 {
      CutHalves(x, Pow2(m - 1));
      BitsCut(x / 2, m - 1, n - 1);
    }
  }

  lemma CutHalves(x: nat, p: nat)
    requires p > 0
    ensures x % (2 * p) % 2 == x % 2 && x % (2 * p) / 2 == x / 2 % p
  {
    var q, r := x / 2 / p, x / 2 % p;
    Euclid(p, x / 2);
    Euclid(2, x);
    assert x == (2 * p) * q + (2 * r + x % 2);
    DivModUnique(2 * p, x, q, 2 * r + x % 2);
  }

  /** `crcu32` through the thirty-two low bits. */
  lemma Crcu32Divides(x: nat, c: bv16)
    ensures Reverse(Crcu32(x, c)) == Register(Reverse(c), Bits(x, 32))
  {
    hide Reverse, Crcu16, Register, Bits, Pow2;
    var lo, hi := Word(x / 0x100 % 0x100, x % 0x100), Word(x / 0x100_0000 % 0x100, x / 0x1_0000 % 0x100);
    Crcu16Divides(lo, c);
    Crcu16Divides(hi, Crcu16(lo, c));
    FourBytes(x);
    TwoHalves(x);
    RegisterBoth(Reverse(c), Bits(Value(lo), 16), Bits(Value(hi), 16));
  }

  lemma TwoHalves(x: nat)
    ensures Bits(x, 32) == Bits(x % 0x1_0000, 16) + Bits(x / 0x1_0000 % 0x1_0000, 16)
  {
    assert Pow2(4) == 16 && Pow2(8) == 256 && Pow2(12) == 4096 && Pow2(16) == 0x1_0000;
    hide Pow2, Bits;
    Euclid(0x1_0000, x);
    BitsJoin(x % 0x1_0000, x / 0x1_0000, 16, 16);
    BitsCut(x / 0x1_0000, 16, 16);
  }

  lemma RoundTrip(x: bv16)
    ensures (x as int) as bv16 == x
  {
  }

  lemma TwoHalfWords(x: bv16)
    ensures ((x >> 8) << 8) | (x & 0xff) == x
  {
  }

  lemma WordOfValue(crc: bv16)
    ensures ((WordOf(crc).hi as bv16) << 8) | (WordOf(crc).lo as bv16) == crc
  {
    RoundTrip(crc >> 8);
    RoundTrip(crc & 0xff);
    TwoHalfWords(crc);
  }

  // ----- what dividing means

  const GENERATOR: bv32 := 0x1_8005

  /** The product with x^16 + x^15 + x^2 + 1 of a polynomial by its coefficients, highest first. */
  function Product(q: seq<bool>): bv32 {
    if q == [] then 0 else Sum(Up(Product(q[..|q| - 1])), if q[|q| - 1] then GENERATOR else 0)
  }

  /** The register times x^k, and the k bits after it, times x^16. */
  function Dividend(r: bv16, bits: seq<bool>): bv32 {
    if bits == [] then Wide(r)
    else Sum(Up(Dividend(r, bits[..|bits| - 1])), if bits[|bits| - 1] then 0x1_0000 else 0)
  }

  /** Where the generator is taken off. */
  function Quotient(r: bv16, bits: seq<bool>): (q: seq<bool>)
    ensures |q| == |bits|
  {
    if bits == [] then []
    else
      var n := |bits| - 1;
      Quotient(r, bits[..n]) + [Top(Register(r, bits[..n])) != bits[n]]
  }

  lemma ProductSnoc(q: seq<bool>, b: bool)
    ensures Product(q + [b]) == Sum(Up(Product(q)), if b then GENERATOR else 0) && Product([]) == 0
  {
    hide Sum, Up;
    assert (q + [b])[..|q|] == q;
  }

  lemma WideStep(r: bv16, bit: bool)
    ensures Sum(Up(Wide(r)), if bit then 0x1_0000 else 0) ==
      Sum(if Top(r) != bit then GENERATOR else 0, Wide(Step(r, bit)))
  {
    hide Sum, Up, Wide, Top, Twice, Xor;
    var t := Wide(Twice(r));
    UpWide(r);
    WideXor(Twice(r), 0x8005);
    Generators();
    SumZero(t);
    SumZero(Up(Wide(r)));
    SumZero(0x1_0000);
    SumAssoc(t, 0x1_0000, 0x1_0000);
    SumComm(t, 0x1_0000);
    SumComm(t, Wide(0x8005));
    SumZero(GENERATOR);
    SumAssoc(0x1_0000, GENERATOR, GENERATOR);
    SumComm(Wide(0x8005), GENERATOR);
    SumAssoc(GENERATOR, Wide(0x8005), t);
  }

  /** Dividend, quotient and remainder. */
  lemma {:induction false} DivisionHolds(r: bv16, bits: seq<bool>)
    ensures Dividend(r, bits) == Sum(Product(Quotient(r, bits)), Wide(Register(r, bits)))
  {
    hide Sum, Up, Wide, Top, Step, Product;
    if bits == [] {
      ProductSnoc([], false);
      SumZero(Wide(r));
    } else {
      var n := |bits| - 1;
      var s, q, b := Register(r, bits[..n]), Quotient(r, bits[..n]), bits[n];
      var g := if Top(s) != b then GENERATOR else 0;
      DivisionHolds(r, bits[..n]);
      ProductSnoc(q, Top(s) != b);
      UpSum(Product(q), Wide(s));
      SumAssoc(Up(Product(q)), Up(Wide(s)), if b then 0x1_0000 else 0);
      WideStep(s, b);
      SumAssoc(Up(Product(q)), g, Wide(Step(s, b)));
    }
  }

  // ----- and that there is only one remainder

  function Differences(q: seq<bool>, q': seq<bool>): (d: seq<bool>)
    requires |q| == |q'|
    ensures |d| == |q| && forall i :: 0 <= i < |q| ==> d[i] == (q[i] != q'[i])
  {
    seq(|q|, i requires 0 <= i < |q| => q[i] != q'[i])
  }

  lemma {:induction false} ProductSum(q: seq<bool>, q': seq<bool>)
    requires |q| == |q'|
    ensures Product(Differences(q, q')) == Sum(Product(q), Product(q'))
  {
    hide Sum, Up, Product;
    if q == [] {
      ProductSnoc([], false);
      SumZero(0);
    } else {
      var n := |q| - 1;
      var p, p', b, b' := q[..n], q'[..n], q[n], q'[n];
      assert q == p + [b] && q' == p' + [b'] && Differences(q, q') == Differences(p, p') + [b != b'];
      ProductSum(p, p');
      ProductSnoc(p, b);
      ProductSnoc(p', b');
      ProductSnoc(Differences(p, p'), b != b');
      UpSum(Product(p), Product(p'));
      SumSwap(Up(Product(p)), if b then GENERATOR else 0, Up(Product(p')), if b' then GENERATOR else 0);
      SumZero(GENERATOR);
      SumZero(0);
    }
  }

  /** The bit at place n. */
  function Bit(n: nat): bv32 { if n == 0 then 1 else Up(Bit(n - 1)) }

  lemma BitNext(n: nat)
    ensures Bit(n + 1) == Up(Bit(n))
  {
  }

  lemma HighBits(n: nat)
    requires 16 <= n <= 31
    ensures Above16(Bit(n)) && (n < 31 ==> Below31(Bit(n)))
  {
    assert Bit(2) == 4 && Bit(4) == 0x10;
    assert Bit(6) == 0x40 && Bit(8) == 0x100;
    assert Bit(10) == 0x400 && Bit(12) == 0x1000;
    assert Bit(14) == 0x4000 && Bit(15) == 0x8000;
    assert Bit(16) == 0x1_0000 && Bit(17) == 0x2_0000;
    assert Bit(18) == 0x4_0000 && Bit(19) == 0x8_0000;
    assert Bit(20) == 0x10_0000 && Bit(21) == 0x20_0000;
    assert Bit(22) == 0x40_0000 && Bit(23) == 0x80_0000;
    assert Bit(24) == 0x100_0000 && Bit(25) == 0x200_0000;
    assert Bit(26) == 0x400_0000 && Bit(27) == 0x800_0000;
    assert Bit(28) == 0x1000_0000 && Bit(29) == 0x2000_0000;
    assert Bit(30) == 0x4000_0000 && Bit(31) == 0x8000_0000;
    hide Bit;
  }

  lemma ProductOne()
    ensures Has(Product([true]), Bit(16))
  {
    hide Product, Up, Sum;
    SixteenthBit();
    ProductSnoc([], true);
    assert [] + [true] == [true];
    UpSum(0, 0);
    SumZero(GENERATOR);
  }

  lemma SixteenthBit()
    ensures Bit(16) == 0x1_0000
  {
    assert Bit(2) == 4 && Bit(4) == 0x10;
    assert Bit(6) == 0x40 && Bit(8) == 0x100;
    assert Bit(10) == 0x400 && Bit(12) == 0x1000;
    assert Bit(14) == 0x4000;
  }

  /** The degree of a product is that of the quotient and sixteen more. */
  lemma {:induction false} ProductTop(q: seq<bool>)
    requires 1 <= |q| <= 16 && q[0]
    ensures Has(Product(q), Bit(|q| + 15))
  {
    var n := |q| - 1;
    if n == 0 {
      assert q == [true];
      ProductOne();
    } else {
      hide Product, Up, Sum, Bit, Has, Above16, Below31;
      var b := Bit(n + 15);
      ProductTop(q[..n]);
      assert q == q[..n] + [q[n]];
      ProductSnoc(q[..n], q[n]);
      HighBits(n + 15);
      BitNext(n + 15);
      BitAbove(Product(q[..n]), b);
    }
  }

  lemma {:induction false} NoLead(q: seq<bool>)
    requires q != [] && !q[0]
    ensures Product(q) == Product(q[1..])
  {
    hide Product, Up, Sum;
    var n := |q| - 1;
    if n == 0 {
      assert q == [] + [false] && q[1..] == [];
      ProductSnoc([], false);
      UpSum(0, 0);
      SumZero(0);
    } else {
      var b := q[n];
      assert q == q[..n] + [b] && q[1..] == q[..n][1..] + [b];
      NoLead(q[..n]);
      ProductSnoc(q[..n], b);
      ProductSnoc(q[..n][1..], b);
    }
  }

  lemma {:induction false} SmallProduct(q: seq<bool>)
    requires |q| <= 16 && Below16(Product(q))
    ensures forall i :: 0 <= i < |q| ==> !q[i]
  {
    if q != [] {
      hide Product, Bit, Has, Above16, Below16, Below31;
      if q[0] {
        var p, b := Product(q), Bit(|q| + 15);
        HighBits(|q| + 15);
        BitLow(p, b);
        ProductTop(q);
      } else {
        NoLead(q);
        SmallProduct(q[1..]);
      }
    }
  }

  /** Only one quotient of up to sixteen places and one remainder of degree below sixteen belong to
      a dividend. */
  lemma RemainderUnique(q: seq<bool>, r: bv16, q': seq<bool>, r': bv16)
    requires |q| == |q'| <= 16 && Sum(Product(q), Wide(r)) == Sum(Product(q'), Wide(r'))
    ensures q == q' && r == r'
  {
    hide Sum, Product, Wide, Below16;
    SumSwap(Product(q), Wide(r), Product(q'), Wide(r'));
    SumZero(Sum(Product(q), Wide(r)));
    SumSame(Sum(Product(q), Product(q')), Sum(Wide(r), Wide(r')));
    ProductSum(q, q');
    WideSums(r, r');
    SmallProduct(Differences(q, q'));
    assert forall i :: 0 <= i < |q| ==> Differences(q, q')[i] == (q[i] != q'[i]);
    SumZero(Product(q));
  }

  lemma SumSame(x: bv32, y: bv32)
    requires Sum(x, y) == 0
    ensures x == y
  {
  }

  /** `crcu16` leaves the remainder of register and word, both reversed and shifted up by sixteen,
      in the division by x^16 + x^15 + x^2 + 1. */
  lemma Crcu16IsRemainder(w: Word, c: bv16) returns (q: seq<bool>)
    ensures |q| == 16
    ensures Dividend(Reverse(c), Bits(Value(w), 16)) == Sum(Product(q), Wide(Reverse(Crcu16(w, c))))
  {
    hide Reverse, Crcu16, Register, Bits, Product, Sum, Quotient, Dividend;
    Crcu16Divides(w, c);
    DivisionHolds(Reverse(c), Bits(Value(w), 16));
    q := Quotient(Reverse(c), Bits(Value(w), 16));
  }

  // ----- no register is lost

  lemma StepInjective(r: bv16, r': bv16, b: bool)
    requires Step(r, b) == Step(r', b)
    ensures r == r'
  {
    hide Twice, Xor, Top;
    LowBits(r);
    LowBits(r');
    if Top(r) != b && Top(r') != b { XorInjective(Twice(r), Twice(r'), 0x8005); }
    TwiceInjective(r, r');
  }

  lemma {:induction false} RegisterInjective(r: bv16, r': bv16, bits: seq<bool>)
    requires Register(r, bits) == Register(r', bits)
    ensures r == r'
  {
    hide Step;
    if bits != [] {
      var n := |bits| - 1;
      StepInjective(Register(r, bits[..n]), Register(r', bits[..n]), bits[n]);
      RegisterInjective(r, r', bits[..n]);
    }
  }

  /** Over the same word different registers stay different. */
  lemma Crcu16Injective(w: Word, c: bv16, c': bv16)
    requires Crcu16(w, c) == Crcu16(w, c')
    ensures c == c'
  {
    hide Reverse, Crcu16, Register, Bits;
    Crcu16Divides(w, c);
    Crcu16Divides(w, c');
    RegisterInjective(Reverse(c), Reverse(c'), Bits(Value(w), 16));
    ReverseInvolution(c);
    ReverseInvolution(c');
  }
}
