/** `debug/programs/checksum.c`: the bit-serial CRC-32, most significant bit first on reversed
    bytes, against the reflected byte-table CRC of section 8 of RFC 1952. */
module Crc32 {

  /** Exclusive or and doubling, under names so that proofs can keep them closed. */
  function Xor(x: bv32, y: bv32): bv32 { x ^ y }

  function Twice(x: bv32): bv32 { x << 1 }

  /** `reverse`: swaps neighbouring bits, pairs, nibbles, and then bytes. */
  function Reverse(x: bv32): bv32 {
    var a := ((x & 0x5555_5555) << 1) | ((x >> 1) & 0x5555_5555);
    var b := ((a & 0x3333_3333) << 2) | ((a >> 2) & 0x3333_3333);
    var c := ((b & 0x0F0F_0F0F) << 4) | ((b >> 4) & 0x0F0F_0F0F);
    (c << 24) | ((c & 0xFF00) << 8) | ((c >> 8) & 0xFF00) | (c >> 24)
  }

  lemma ReverseInvolution(x: bv32)
    ensures Reverse(Reverse(x)) == x
  {
  }

  lemma ReverseXor(x: bv32, y: bv32)
    ensures Reverse(Xor(x, y)) == Xor(Reverse(x), Reverse(y))
  {
  }

  lemma ReverseShifts(x: bv32)
    ensures Reverse(Twice(x)) == Reverse(x) >> 1
    ensures Reverse(x) & 1 == 1 <==> x >= 0x8000_0000
  {
  }

  // ----- The CRC of RFC 1952, section 8

  /** One bit of `make_crc_table`. */
  function Step(c: bv32): bv32 {
    if c & 1 == 1 then 0xEDB8_8320 ^ (c >> 1) else c >> 1
  }

  function Steps(c: bv32, n: nat): bv32 {
    if n == 0 then c else Step(Steps(c, n - 1))
  }

  function Table(n: bv8): bv32 { Steps(n as bv32, 8) }

  function Index(c: bv32, b: bv8): bv8 { ((c ^ (b as bv32)) & 0xFF) as bv8 }

  /** `update_crc` without the complements. */
  function Update(c: bv32, buf: seq<bv8>): bv32 {
    if buf == [] then c
    else
      var n := |buf| - 1;
      var d := Update(c, buf[..n]);
      Xor(Table(Index(d, buf[n])), d >> 8)
  }

  function Flip(x: bv32): bv32 { x ^ 0xFFFF_FFFF }

  function Rfc1952(buf: seq<bv8>): bv32 { Flip(Update(0xFFFF_FFFF, buf)) }

  // ----- Step is linear and loses nothing

  lemma StepXor(x: bv32, y: bv32)
    ensures Step(x ^ y) == Step(x) ^ Step(y)
  {
    hide Step;
    if x & 1 == 1 {
      if y & 1 == 1 { OddOdd(x, y); } else { OddEven(x, y); }
    } else {
      if y & 1 == 1 { OddEven(y, x); } else { EvenEven(x, y); }
    }
  }

  lemma OddOdd(x: bv32, y: bv32)
    requires x & 1 == 1 && y & 1 == 1
    ensures Step(x ^ y) == Step(x) ^ Step(y)
  {
  }

  lemma OddEven(x: bv32, y: bv32)
    requires x & 1 == 1 && y & 1 != 1
    ensures Step(x ^ y) == Step(x) ^ Step(y) && Step(y ^ x) == Step(y) ^ Step(x)
  {
  }

  lemma EvenEven(x: bv32, y: bv32)
    requires x & 1 != 1 && y & 1 != 1
    ensures Step(x ^ y) == Step(x) ^ Step(y)
  {
  }

  lemma StepInjective(x: bv32, y: bv32)
    requires Step(x) == Step(y)
    ensures x == y
  {
  }

  lemma {:induction false} StepsXor(x: bv32, y: bv32, n: nat)
    ensures Steps(Xor(x, y), n) == Xor(Steps(x, n), Steps(y, n))
  {
    hide Step, Xor;
    if n > 0 {
      StepsXor(x, y, n - 1);
      StepOfXor(Steps(x, n - 1), Steps(y, n - 1));
    }
  }

  lemma StepOfXor(x: bv32, y: bv32)
    ensures Step(Xor(x, y)) == Xor(Step(x), Step(y))
  {
    hide Step;
    StepXor(x, y);
  }

  lemma {:induction false} StepsInjective(x: bv32, y: bv32, n: nat)
    requires Steps(x, n) == Steps(y, n)
    ensures x == y
  {
    hide Step;
    if n > 0 {
      StepInjective(Steps(x, n - 1), Steps(y, n - 1));
      StepsInjective(x, y, n - 1);
    }
  }

  lemma {:induction false} StepsAdd(c: bv32, m: nat, n: nat)
    ensures Steps(Steps(c, m), n) == Steps(c, m + n)
  {
    if n > 0 {
      StepsAdd(c, m, n - 1);
    }
  }

  lemma EightSteps(c: bv32)
    ensures Steps(c, 8) == Step(Step(Step(Step(Step(Step(Step(Step(c))))))))
  {
    hide Step, Steps;
    Start(c);
    Advance(c, 0);
    Advance(c, 1);
    Advance(c, 2);
    Advance(c, 3);
    Advance(c, 4);
    Advance(c, 5);
    Advance(c, 6);
    Advance(c, 7);
  }

  lemma Start(c: bv32)
    ensures Steps(c, 0) == c
  {
  }

  lemma Advance(c: bv32, n: nat)
    ensures Steps(c, n + 1) == Step(Steps(c, n))
  {
  }

  /** Eight steps shift out eight zero bits. */
  lemma EightZeros(c: bv32)
    requires c & 0xFF == 0
    ensures Steps(c, 8) == c >> 8
  {
    hide Steps;
    EightSteps(c);
    StepsOfZeros(c);
  }

  lemma StepsOfZeros(c: bv32)
    requires c & 0xFF == 0
    ensures Step(Step(Step(Step(Step(Step(Step(Step(c)))))))) == c >> 8
  {
  }

  function Low(x: bv32): bv32 { x & 0xFF }

  function High(x: bv32): bv32 { x & 0xFFFF_FF00 }

  lemma Halves(d: bv32, b: bv8)
    ensures var x := Xor(d, b as bv32); x == Xor(Low(x), High(x)) && High(x) & 0xFF == 0 && High(x) >> 8 == d >> 8
  {
  }

  lemma LowByte(d: bv32, b: bv8)
    ensures Table(Index(d, b)) == Steps(Low(Xor(d, b as bv32)), 8)
  {
    hide Steps;
    assert Index(d, b) as bv32 == Low(Xor(d, b as bv32));
  }

  /** A table look-up is eight steps of the whole register with the byte mixed in. */
  lemma TableStep(d: bv32, b: bv8)
    ensures Xor(Table(Index(d, b)), d >> 8) == Steps(Xor(d, b as bv32), 8)
  {
    var x := Xor(d, b as bv32);
    hide Step, Steps, Table, Low, High, Xor, Index;
    Halves(d, b);
    LowByte(d, b);
    EightZeros(High(x));
    StepsXor(Low(x), High(x), 8);
  }

  // ----- crc32a

  /** One turn of the inner loop of `crc32a`, on the register with the byte mixed in. */
  function Shift(d: bv32): bv32 { if d >= 0x8000_0000 then (d << 1) ^ 0x04C1_1DB7 else d << 1 }

  lemma ShiftIsStep(d: bv32)
    ensures Reverse(Shift(d)) == Step(Reverse(d))
  {
    hide Shift, Step, Reverse;
    if d >= 0x8000_0000 { ShiftTop(d); } else { ShiftNoTop(d); }
  }

  lemma ShiftTop(d: bv32)
    requires d >= 0x8000_0000
    ensures Reverse(Shift(d)) == Step(Reverse(d))
  {
    hide Reverse, Xor, Twice, Shift, Step;
    ReverseShifts(d);
    ShiftedTop(d);
    ReverseXor(Twice(d), 0x04C1_1DB7);
    Polynomial();
    StepOfOdd(Reverse(d));
  }

  lemma ShiftedTop(d: bv32)
    requires d >= 0x8000_0000
    ensures Shift(d) == Xor(Twice(d), 0x04C1_1DB7)
  {
  }

  lemma ShiftedNoTop(d: bv32)
    requires d < 0x8000_0000
    ensures Shift(d) == Twice(d)
  {
  }

  lemma StepOfOdd(c: bv32)
    requires c & 1 == 1
    ensures Step(c) == Xor(c >> 1, 0xEDB8_8320)
  {
  }

  lemma ShiftNoTop(d: bv32)
    requires d < 0x8000_0000
    ensures Reverse(Shift(d)) == Step(Reverse(d))
  {
    hide Reverse;
    ReverseShifts(d);
  }

  lemma Polynomial()
    ensures Reverse(0x04C1_1DB7) == 0xEDB8_8320
  {
  }

  /** Mixing the byte in at the start comes to the same as feeding it bit by bit. */
  lemma FeedBit(crc: bv32, byte: bv32)
    ensures Shift(Xor(crc, byte)) ==
      Xor(if Xor(crc, byte) >= 0x8000_0000 then Xor(Twice(crc), 0x04C1_1DB7) else Twice(crc), Twice(byte))
  {
    hide Shift, Twice, Xor;
    var d := Xor(crc, byte);
    TwiceXor(crc, byte);
    if d >= 0x8000_0000 {
      ShiftedTop(d);
      XorSwap(Twice(crc), Twice(byte), 0x04C1_1DB7);
    } else {
      ShiftedNoTop(d);
    }
  }

  lemma TwiceXor(x: bv32, y: bv32)
    ensures Twice(Xor(x, y)) == Xor(Twice(x), Twice(y))
  {
  }

  lemma XorSwap(x: bv32, y: bv32, z: bv32)
    ensures Xor(Xor(x, y), z) == Xor(Xor(x, z), y)
  {
    hide Xor;
    XorAssoc(x, y, z);
    XorAssoc(x, z, y);
    XorComm(y, z);
  }

  lemma XorAssoc(x: bv32, y: bv32, z: bv32)
    ensures Xor(Xor(x, y), z) == Xor(x, Xor(y, z))
  {
  }

  lemma XorComm(x: bv32, y: bv32)
    ensures Xor(x, y) == Xor(y, x)
  {
  }

  /** The inner loop. */
  method FeedByte(b: bv8, crc0: bv32) returns (crc: bv32)
    ensures Reverse(crc) == Steps(Xor(Reverse(crc0), b as bv32), 8)
  {
    hide Reverse, Step, Steps, Shift, Doubled, Xor, Twice;
    var byte := Reverse(b as bv32);
    ghost var d0 := Xor(Reverse(crc0), b as bv32);
    crc := crc0;
    Mixed(crc0, b);
    Start(d0);
    DoubledStart(byte);
    var j := 0;
    while j <= 7
      invariant 0 <= j <= 8 && byte == Doubled(Reverse(b as bv32), j)
      invariant Reverse(Xor(crc, byte)) == Steps(d0, j)
    {
      Advance(d0, j);
      DoubledNext(Reverse(b as bv32), j);
      ShiftIsStep(Xor(crc, byte));
      crc, byte := OneBit(crc, byte);
      j := j + 1;
    }
    ByteShiftedOut(b);
    XorZero(crc);
  }

  /** One turn of it: the register and the byte together shift as their exclusive or does. */
  method OneBit(crc0: bv32, byte0: bv32) returns (crc: bv32, byte: bv32)
    ensures Xor(crc, byte) == Shift(Xor(crc0, byte0)) && byte == Twice(byte0)
  {
    hide Shift, Xor, Twice;
    FeedBit(crc0, byte0);
    if Xor(crc0, byte0) >= 0x8000_0000 {
      crc := Xor(Twice(crc0), 0x04C1_1DB7);
    } else {
      crc := Twice(crc0);
    }
    byte := Twice(byte0);
  }

  lemma Mixed(crc: bv32, b: bv8)
    ensures Reverse(Xor(crc, Reverse(b as bv32))) == Xor(Reverse(crc), b as bv32)
  {
    hide Reverse, Xor;
    ReverseInvolution(b as bv32);
    ReverseXor(crc, Reverse(b as bv32));
  }

  lemma XorZero(x: bv32)
    ensures Xor(x, 0) == x
  {
  }

  function Doubled(x: bv32, n: nat): bv32 { if n == 0 then x else Twice(Doubled(x, n - 1)) }

  lemma DoubledStart(x: bv32)
    ensures Doubled(x, 0) == x
  {
  }

  lemma DoubledNext(x: bv32, n: nat)
    ensures Doubled(x, n + 1) == Twice(Doubled(x, n))
  {
  }

  /** A reversed byte is shifted out of the word in eight turns. */
  lemma ByteShiftedOut(b: bv8)
    ensures Doubled(Reverse(b as bv32), 8) == 0
  {
    hide Doubled, Reverse;
    EightDoublings(Reverse(b as bv32));
    ReversedByte(b);
  }

  lemma ReversedByte(b: bv8)
    ensures Reverse(b as bv32) << 8 == 0
  {
  }

  lemma EightDoublings(x: bv32)
    ensures Doubled(x, 8) == x << 8
  {
    hide Doubled;
    DoubledStart(x);
    DoubledNext(x, 0);
    DoubledNext(x, 1);
    DoubledNext(x, 2);
    DoubledNext(x, 3);
    DoubledNext(x, 4);
    DoubledNext(x, 5);
    DoubledNext(x, 6);
    DoubledNext(x, 7);
  }

  /** `crc32a` computes the CRC-32 of RFC 1952. */
  method Crc32a(message: array<bv8>) returns (r: bv32)
    requires message.Length < 0x8000_0000
    ensures r == Rfc1952(message[..])
  {
    hide Reverse, Steps, Xor, Update;
    var i := 0;
    var crc: bv32 := 0xFFFF_FFFF;
    BeforeFirst();
    while i < message.Length
      invariant 0 <= i <= message.Length
      invariant Reverse(crc) == Update(0xFFFF_FFFF, message[..i])
    {
      crc := FeedByte(message[i], crc);
      NextByte(0xFFFF_FFFF, message[..i], message[i]);
      assert message[..i + 1] == message[..i] + [message[i]];
      i := i + 1;
    }
    assert message[..i] == message[..];
    Complement(crc);
    r := Reverse(!crc);
  }

  lemma BeforeFirst()
    ensures Reverse(0xFFFF_FFFF) == Update(0xFFFF_FFFF, [])
  {
  }

  lemma NextByte(c: bv32, buf: seq<bv8>, b: bv8)
    ensures Update(c, buf + [b]) == Steps(Xor(Update(c, buf), b as bv32), 8)
  {
    hide Steps, Xor, Table, Index, Update;
    UpdateSnoc(c, buf, b);
    TableStep(Update(c, buf), b);
  }

  lemma UpdateSnoc(c: bv32, buf: seq<bv8>, b: bv8)
    ensures var d := Update(c, buf); Update(c, buf + [b]) == Xor(Table(Index(d, b)), d >> 8)
  {
    hide Xor, Table, Index;
    assert (buf + [b])[..|buf|] == buf;
  }

  lemma Complement(crc: bv32)
    ensures Reverse(!crc) == Flip(Reverse(crc))
  {
  }

  // ----- What the checksum detects

  lemma {:induction false} UpdateConcat(c: bv32, p: seq<bv8>, q: seq<bv8>)
    ensures Update(c, p + q) == Update(Update(c, p), q)
  {
    if q == [] {
      assert p + q == p;
      Empty(Update(c, p));
    } else {
      hide Update, Steps, Xor;
      var n := |q| - 1;
      var r, b := q[..n], q[n];
      assert q == r + [b] && p + q == (p + r) + [b];
      UpdateConcat(c, p, r);
      NextByte(c, p + r, b);
      NextByte(Update(c, p), r, b);
    }
  }

  lemma XorInjective(x: bv32, y: bv32, z: bv32)
    ensures Xor(x, z) == Xor(y, z) ==> x == y
    ensures Xor(z, x) == Xor(z, y) ==> x == y
  {
  }

  /** Whatever follows, two different registers stay different. */
  lemma {:induction false} UpdateInjective(c: bv32, c': bv32, q: seq<bv8>)
    requires Update(c, q) == Update(c', q)
    ensures c == c'
  {
    if q != [] {
      hide Steps, Xor, Update;
      var n := |q| - 1;
      assert q == q[..n] + [q[n]];
      NextByte(c, q[..n], q[n]);
      NextByte(c', q[..n], q[n]);
      StepsInjective(Xor(Update(c, q[..n]), q[n] as bv32), Xor(Update(c', q[..n]), q[n] as bv32), 8);
      XorInjective(Update(c, q[..n]), Update(c', q[..n]), q[n] as bv32);
      UpdateInjective(c, c', q[..n]);
    } else {
      Empty(c);
      Empty(c');
    }
  }

  lemma Empty(c: bv32)
    ensures Update(c, []) == c
  {
  }

  /** Byte b as the k-th of a little-endian word. */
  function Placed(b: bv8, k: nat): bv32
    requires k < 4
  {
    if k == 0 then b as bv32 else if k == 1 then (b as bv32) << 8 else if k == 2 then (b as bv32) << 16 else (b as bv32) << 24
  }

  /** Up to four bytes as a little-endian word. */
  function Word(w: seq<bv8>): bv32
    requires |w| <= 4
  {
    if w == [] then 0 else Xor(Word(w[..|w| - 1]), Placed(w[|w| - 1], |w| - 1))
  }

  lemma {:induction false} PlacedSteps(b: bv8, k: nat)
    requires k < 4
    ensures Steps(Placed(b, k), 8 * k) == b as bv32
  {
    hide Steps;
    Start(b as bv32);
    if k > 0 {
      PlacedDown(b, k);
      EightZeros(Placed(b, k));
      PlacedSteps(b, k - 1);
      StepsAdd(Placed(b, k), 8, 8 * (k - 1));
    }
  }

  lemma PlacedDown(b: bv8, k: nat)
    requires 0 < k < 4
    ensures Placed(b, k) & 0xFF == 0 && Placed(b, k) >> 8 == Placed(b, k - 1)
  {
  }

  /** Up to four bytes act on the register at once. */
  lemma {:induction false} UpdateWord(c: bv32, w: seq<bv8>)
    requires |w| <= 4
    ensures Update(c, w) == Steps(Xor(c, Word(w)), 8 * |w|)
  {
    hide Update, Steps, Xor, Placed;
    if w == [] {
      Empty(c);
      XorZero(c);
      Start(c);
    } else {
      var n := |w| - 1;
      var v, b := w[..n], w[n];
      assert w == v + [b];
      NextByte(c, v, b);
      UpdateWord(c, v);
      PlacedSteps(b, n);
      StepsXor(Xor(c, Word(v)), Placed(b, n), 8 * n);
      StepsAdd(Xor(Xor(c, Word(v)), Placed(b, n)), 8 * n, 8);
      XorAssoc(c, Word(v), Placed(b, n));
    }
  }

  /** x uses only its n lowest bytes. */
  predicate Below(x: bv32, n: nat)
    requires n <= 4
  {
    if n == 0 then x == 0 else if n == 1 then x >> 8 == 0 else if n == 2 then x >> 16 == 0 else n == 3 ==> x >> 24 == 0
  }

  function TopByte(x: bv32, n: nat): bv8
    requires n < 4
  {
    (if n == 0 then x & 0xFF else if n == 1 then (x >> 8) & 0xFF else if n == 2 then (x >> 16) & 0xFF else x >> 24) as bv8
  }

  lemma PlacedOnTop(x: bv32, b: bv8, n: nat)
    requires n < 4 && Below(x, n)
    ensures Below(Xor(x, Placed(b, n)), n + 1) && TopByte(Xor(x, Placed(b, n)), n) == b
  {
  }

  lemma {:induction false} WordBelow(w: seq<bv8>)
    requires |w| <= 4
    ensures Below(Word(w), |w|)
  {
    if w != [] {
      hide Xor, Placed, Below;
      var n := |w| - 1;
      WordBelow(w[..n]);
      PlacedOnTop(Word(w[..n]), w[n], n);
    }
  }

  lemma WordSplit(w: seq<bv8>)
    requires 0 < |w| <= 4
    ensures var n := |w| - 1; TopByte(Word(w), n) == w[n] && Word(w) == Xor(Word(w[..n]), Placed(w[n], n))
  {
    hide Xor, Placed, Below, TopByte;
    WordBelow(w[..|w| - 1]);
    PlacedOnTop(Word(w[..|w| - 1]), w[|w| - 1], |w| - 1);
  }

  lemma {:induction false} WordInjective(w: seq<bv8>, w': seq<bv8>)
    requires |w| == |w'| <= 4 && Word(w) == Word(w')
    ensures w == w'
  {
    hide Word, Xor, Placed, TopByte;
    if w != [] {
      var n := |w| - 1;
      WordSplit(w);
      WordSplit(w');
      XorInjective(Word(w[..n]), Word(w'[..n]), Placed(w[n], n));
      WordInjective(w[..n], w'[..n]);
      assert w == w[..n] + [w[n]] && w' == w'[..n] + [w'[n]];
    }
  }

  /** Messages that differ only within four consecutive bytes never share a checksum. */
  lemma BurstDetected(p: seq<bv8>, w: seq<bv8>, w': seq<bv8>, q: seq<bv8>)
    requires |w| == |w'| <= 4 && w != w'
    ensures Rfc1952(p + w + q) != Rfc1952(p + w' + q)
  {
    hide Rfc1952, Update, Steps, Xor, Word;
    var c: bv32 := 0xFFFF_FFFF;
    var d := Update(c, p);
    if Rfc1952(p + w + q) == Rfc1952(p + w' + q) {
      SameRegister(p + w + q, p + w' + q);
      UpdateConcat(c, p + w, q);
      UpdateConcat(c, p + w', q);
      UpdateInjective(Update(c, p + w), Update(c, p + w'), q);
      UpdateConcat(c, p, w);
      UpdateConcat(c, p, w');
      UpdateWord(d, w);
      UpdateWord(d, w');
      StepsInjective(Xor(d, Word(w)), Xor(d, Word(w')), 8 * |w|);
      XorInjective(Word(w), Word(w'), d);
      WordInjective(w, w');
    }
  }

  lemma SameRegister(m: seq<bv8>, m': seq<bv8>)
    requires Rfc1952(m) == Rfc1952(m')
    ensures Update(0xFFFF_FFFF, m) == Update(0xFFFF_FFFF, m')
  {
    hide Update;
  }

  // ----- the residue

  /** A word as four bytes, lowest first, as a checksum is appended to its message. */
  function LittleEndian(x: bv32): (w: seq<bv8>)
    ensures |w| == 4
  {
    [TopByte(x, 0), TopByte(x, 1), TopByte(x, 2), TopByte(x, 3)]
  }

  lemma FourPlaced(x: bv32)
    ensures Xor(Xor(Xor(Placed(TopByte(x, 0), 0), Placed(TopByte(x, 1), 1)), Placed(TopByte(x, 2), 2)), Placed(TopByte(x, 3), 3)) == x
  {
  }

  lemma ZeroXor(x: bv32)
    ensures Xor(0, x) == x
  {
  }

  lemma WordSnoc(w: seq<bv8>, b: bv8)
    requires |w| < 4
    ensures Word(w + [b]) == Xor(Word(w), Placed(b, |w|)) && Word([]) == 0
  {
    hide Xor, Placed;
    assert (w + [b])[..|w|] == w;
  }

  lemma LittleEndianWord(x: bv32)
    ensures Word(LittleEndian(x)) == x
  {
    hide Xor, Placed, TopByte, Word;
    var a, b, c, d := TopByte(x, 0), TopByte(x, 1), TopByte(x, 2), TopByte(x, 3);
    WordSnoc([], a);
    WordSnoc([a], b);
    WordSnoc([a, b], c);
    WordSnoc([a, b, c], d);
    assert [] + [a] == [a] && [a] + [b] == [a, b] && [a, b] + [c] == [a, b, c] && [a, b, c] + [d] == LittleEndian(x);
    ZeroXor(Placed(a, 0));
    FourPlaced(x);
  }

  lemma OnesMixed(c: bv32)
    ensures Xor(c, Flip(c)) == 0xFFFF_FFFF
  {
  }

  lemma FlippedResidue()
    ensures Flip(0xDEBB_20E3) == 0x2144_DF1C
  {
  }

  lemma FourTurns()
    ensures Steps(0xFFFF_FFFF, 8) == 0x2DFD_1072 && Steps(0x2DFD_1072, 8) == 0xBE26_ED00
    ensures Steps(0xBE26_ED00, 8) == 0x00BE_26ED && Steps(0x00BE_26ED, 8) == 0xDEBB_20E3
  {
    hide Steps;
    EightSteps(0xFFFF_FFFF);
    EightSteps(0x2DFD_1072);
    EightSteps(0xBE26_ED00);
    EightSteps(0x00BE_26ED);
  }

  lemma OnesStepped()
    ensures Steps(0xFFFF_FFFF, 32) == 0xDEBB_20E3
  {
    hide Steps;
    FourTurns();
    StepsAdd(0xFFFF_FFFF, 8, 8);
    StepsAdd(0xFFFF_FFFF, 16, 8);
    StepsAdd(0xFFFF_FFFF, 24, 8);
  }

  /** Any message with its checksum appended has the same checksum: the residue of CRC-32. */
  lemma Residue(m: seq<bv8>)
    ensures Rfc1952(m + LittleEndian(Rfc1952(m))) == 0x2144_DF1C
  {
    hide Update, Steps, Xor, Word, LittleEndian, Flip;
    var c := Update(0xFFFF_FFFF, m);
    var w := LittleEndian(Rfc1952(m));
    UpdateConcat(0xFFFF_FFFF, m, w);
    UpdateWord(c, w);
    LittleEndianWord(Rfc1952(m));
    OnesMixed(c);
    OnesStepped();
    FlippedResidue();
  }
}
