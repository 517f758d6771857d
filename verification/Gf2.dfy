/** Words as polynomials over two elements: exclusive or is the sum, doubling the product with x.
    The operations have names so that proofs can keep them closed. */
module Gf2 {

  function Xor(x: bv16, y: bv16): bv16 { x ^ y }

  function Twice(r: bv16): bv16 { r << 1 }

  /** The coefficient of x^15. */
  predicate Top(r: bv16) { r & 0x8000 != 0 }

  function Sum(x: bv32, y: bv32): bv32 { x ^ y }

  function Up(x: bv32): bv32 { x << 1 }

  function Wide(r: bv16): bv32 { r as bv32 }

  // ----- sixteen bits

  lemma LowBits(r: bv16)
    ensures Twice(r) & 1 == 0 && Xor(Twice(r), 0x8005) & 1 == 1
  {
  }

  lemma TwiceInjective(r: bv16, r': bv16)
    requires Twice(r) == Twice(r') && Top(r) == Top(r')
    ensures r == r'
  {
  }

  lemma XorInjective(x: bv16, y: bv16, z: bv16)
    requires Xor(x, z) == Xor(y, z)
    ensures x == y
  {
  }

  // ----- thirty-two bits

  lemma SumZero(x: bv32)
    ensures Sum(x, x) == 0 && Sum(x, 0) == x && Sum(0, x) == x
  {
  }

  lemma SumAssoc(x: bv32, y: bv32, z: bv32)
    ensures Sum(Sum(x, y), z) == Sum(x, Sum(y, z))
  {
  }

  lemma SumComm(x: bv32, y: bv32)
    ensures Sum(x, y) == Sum(y, x)
  {
  }

  lemma SumSwap(a: bv32, b: bv32, c: bv32, d: bv32)
    ensures Sum(Sum(a, b), Sum(c, d)) == Sum(Sum(a, c), Sum(b, d))
  {
    hide Sum;
    SumAssoc(a, b, Sum(c, d));
    SumAssoc(b, c, d);
    SumComm(b, c);
    SumAssoc(c, b, d);
    SumAssoc(a, c, Sum(b, d));
  }

  lemma UpSum(x: bv32, y: bv32)
    ensures Up(Sum(x, y)) == Sum(Up(x), Up(y)) && Up(0) == 0
  {
  }

  lemma WideXor(r: bv16, g: bv16)
    ensures Wide(Xor(r, g)) == Sum(Wide(r), Wide(g))
  {
  }

  lemma UpOfTop(r: bv16)
    requires r & 0x8000 != 0
    ensures Up(r as bv32) == Sum(Twice(r) as bv32, 0x1_0000)
  {
  }

  lemma UpOfNoTop(r: bv16)
    requires r & 0x8000 == 0
    ensures Up(r as bv32) == Twice(r) as bv32
  {
  }

  lemma UpWide(r: bv16)
    ensures Up(Wide(r)) == if Top(r) then Sum(Wide(Twice(r)), 0x1_0000) else Wide(Twice(r))
  {
    hide Up, Sum, Twice;
    if r & 0x8000 != 0 { UpOfTop(r); } else { UpOfNoTop(r); }
  }

  lemma Generators()
    ensures Sum(0x1_0000, 0x1_8005) == Wide(0x8005)
  {
  }

  lemma WideSums(r: bv16, s: bv16)
    ensures Below16(Sum(Wide(r), Wide(s)))
    ensures Sum(Wide(r), Wide(s)) == 0 ==> r == s
  {
  }

  // ----- degrees: b is a single bit

  predicate Has(x: bv32, b: bv32) { x & b != 0 }

  predicate Above16(b: bv32) { b & 0xFFFF == 0 }

  predicate Below16(x: bv32) { x & 0xFFFF_0000 == 0 }

  predicate Below31(b: bv32) { b & 0x8000_0000 == 0 }

  lemma BitUp(x: bv32, b: bv32)
    requires x & b != 0 && b & 0x8000_0000 == 0
    ensures (x << 1) & (b << 1) != 0
  {
  }

  lemma BitSum(x: bv32, b: bv32)
    requires x & b != 0 && b & 0x1_FFFF == 0
    ensures (x ^ 0x1_8005) & b != 0 && (x ^ 0) & b != 0
  {
  }

  lemma BitHigh(b: bv32)
    requires b & 0xFFFF == 0
    ensures (b << 1) & 0x1_FFFF == 0
  {
  }

  lemma HasUp(x: bv32, b: bv32)
    requires Has(x, b) && Below31(b)
    ensures Has(Up(x), Up(b))
  {
    BitUp(x, b);
  }

  predicate Above17(b: bv32) { b & 0x1_FFFF == 0 }

  lemma AboveUp(b: bv32)
    requires Above16(b)
    ensures Above17(Up(b))
  {
    BitHigh(b);
  }

  lemma SumHas(x: bv32, b: bv32)
    requires x & b != 0 && b & 0x1_FFFF == 0
    ensures Sum(x, 0x1_8005) & b != 0 && Sum(x, 0) & b != 0
  {
    BitSum(x, b);
  }

  lemma HasSum(x: bv32, b: bv32)
    requires Has(x, b) && Above17(b)
    ensures Has(Sum(x, 0x1_8005), b) && Has(Sum(x, 0), b)
  {
    hide Sum;
    SumHas(x, b);
  }

  lemma BitAbove(x: bv32, b: bv32)
    requires Has(x, b) && Above16(b) && Below31(b)
    ensures Has(Sum(Up(x), 0x1_8005), Up(b)) && Has(Sum(Up(x), 0), Up(b))
  {
    hide Sum, Up, Has, Above16, Above17, Below31;
    HasUp(x, b);
    AboveUp(b);
    HasSum(Up(x), Up(b));
  }

  lemma BitLow(x: bv32, b: bv32)
    requires Above16(b) && Below16(x)
    ensures !Has(x, b)
  {
  }
}
