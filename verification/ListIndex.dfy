/** The indices that `core_list_init` gives the nodes of its list, and when they are all different. */
module ListIndex {
  import opened Arith
  import opened BitOps
  import opened MachineTypes

  /** A counter in a signed 16-bit field. */
  function ToShort(i: nat): int16 {
    var x := i % 0x1_0000;
    (if x < 0x8000 then x else x - 0x1_0000) as int16
  }

  /** The mixed index of counter value i: the pattern is taken before the counter goes up, the
      shifted part after. */
  function MixedIdx(i: nat, seed: int16): (r: int)
    ensures 0 <= r <= 0x3fff
  {
    0x100 * MixedHigh((i + 1) % 8, i / 0x100 % 0x100, HighByte(seed)) + Xor8(i % 0x100, LowByte(seed))
  }

  /** Its upper bits, of the shifted counter and the upper bytes of counter and seed. */
  function MixedHigh(k: byte, h: byte, s: byte): (r: nat)
    ensures r < 0x40
  {
    Or8(k, Xor8(h, s)) % 0x40
  }

  /** The first fifth is numbered in order, the others get mixed indices. */
  function InitIdx(size: nat, i: nat, seed: int16): int16 {
    if i < size / 5 then ToShort(i) else MixedIdx(i, seed) as int16
  }

  /** The index at position p of the size - 1 nodes, with the fixed ones of head and tail. */
  function EntryIdx(size: nat, p: nat, seed: int16): int16 {
    if p == 0 then 0 else if p + 2 >= size then 0x7fff else InitIdx(size, p, seed)
  }

  ghost predicate Apart(size: nat, seed: int16) {
    forall p: nat, q: nat :: p < q <= size - 2 ==> EntryIdx(size, p, seed) != EntryIdx(size, q, seed)
  }

  /** The first position with a mixed index. */
  function FirstMixed(size: nat): nat { if size < 5 then 1 else size / 5 }

  ghost predicate MixedAbove(size: nat, seed: int16) {
    forall i :: FirstMixed(size) <= i <= size - 3 ==> MixedIdx(i, seed) >= FirstMixed(size)
  }

  lemma LowBytesDiffer(i: nat, j: nat, seed: int16)
    requires i % 0x100 != j % 0x100
    ensures MixedIdx(i, seed) != MixedIdx(j, seed)
  {
    hide MixedHigh, Xor8;
    var k := LowByte(seed);
    Xor8Twice(i % 0x100, k, k);
    Xor8Twice(j % 0x100, k, k);
  }

  /** Of an even number and its successor, the or with an odd one is the same. */
  lemma OddHides(k: byte, h: byte, s: byte)
    requires k % 2 == 1 && h % 2 == 0
    ensures MixedHigh(k, h, s) == MixedHigh(k, h + 1, s)
  {
    XorHalves(h, s, 8);
    XorHalves(h + 1, s, 8);
    assert (h + 1) / 2 == h / 2;
    OrHalves(k, Xor8(h, s), 8);
    OrHalves(k, Xor8(h + 1, s), 8);
    hide XorBits, OrBits;
  }

  lemma NextBlock(i: nat)
    ensures (i + 0x100) / 0x100 == i / 0x100 + 1 && (i + 0x100) % 0x100 == i % 0x100
  {
    Euclid(0x100, i);
    DivModUnique(0x100, i + 0x100, i / 0x100 + 1, i % 0x100);
  }

  lemma EvenByEight(i: nat)
    requires i % 2 == 0
    ensures (i + 1) % 8 == (i + 0x101) % 8 == i % 8 + 1 && i % 8 % 2 == 0
  {
    var u, v := i / 8, i % 8;
    Euclid(8, i);
    Euclid(2, i);
    DivModUnique(2, v, i / 2 - 4 * u, 0);
    assert v != 7;
    DivModUnique(8, i + 1, u, v + 1);
    DivModUnique(8, i + 0x101, u + 32, v + 1);
  }

  lemma EvenByte(q: nat)
    requires q % 2 == 0
    ensures q % 0x100 % 2 == 0 && (q + 1) % 0x100 == q % 0x100 + 1
  {
    var u, v := q / 0x100, q % 0x100;
    Euclid(0x100, q);
    DivModUnique(0x100, q + 1, u, v + 1);
  }

  lemma MixedIs(i: nat, seed: int16, k: byte, h: byte, l: byte)
    requires k == (i + 1) % 8 && h == i / 0x100 % 0x100 && l == i % 0x100
    ensures MixedIdx(i, seed) == 0x100 * MixedHigh(k, h, HighByte(seed)) + Xor8(l, LowByte(seed))
  {
    hide MixedHigh, Xor8, HighByte, LowByte;
  }

  /** Indices 256 apart are equal wherever the counter is even and its ninth bit clear. */
  lemma MixedTie(i: nat, seed: int16)
    requires i % 2 == 0 && i / 0x100 % 2 == 0
    ensures MixedIdx(i, seed) == MixedIdx(i + 0x100, seed)
  {
    hide MixedIdx, MixedHigh, Xor8, HighByte, LowByte;
    var k, h, l := (i + 1) % 8, i / 0x100 % 0x100, i % 0x100;
    MixedIs(i, seed, k, h, l);
    NextBlock(i);
    EvenByEight(i);
    EvenByte(i / 0x100);
    MixedIs(i + 0x100, seed, k, h + 1, l);
    OddHides(k, h, HighByte(seed));
  }

  /** Past a size of 322 there always is such a pair. */
  function TiedAt(size: nat): (i: nat)
    requires size >= 323
    ensures size / 5 <= i && i + 0x100 <= size - 3 && i % 2 == 0 && i / 0x100 % 2 == 0
  {
    if size < 1275 then size / 5 + size / 5 % 2 else (size / 5 + 511) / 512 * 512
  }

  lemma MixedTies(size: nat, seed: int16)
    requires size >= 323
    ensures !Apart(size, seed)
  {
    var i := TiedAt(size);
    MixedTie(i, seed);
    hide MixedIdx;
    assert EntryIdx(size, i, seed) == EntryIdx(size, i + 0x100, seed);
  }

  lemma ShortApart(size: nat, seed: int16, p: nat, q: nat)
    requires size <= 322 && MixedAbove(size, seed) && p < q <= size - 2
    ensures EntryIdx(size, p, seed) != EntryIdx(size, q, seed)
  {
    hide MixedIdx;
    if FirstMixed(size) <= p && q <= size - 3 {
      LowBytesDiffer(p, q, seed);
    }
  }

  lemma LowTies(size: nat, seed: int16, i: nat)
    requires FirstMixed(size) <= i <= size - 3 && MixedIdx(i, seed) < FirstMixed(size) && size <= 322
    ensures EntryIdx(size, MixedIdx(i, seed), seed) == EntryIdx(size, i, seed)
  {
    hide MixedIdx;
  }

  /** The indices are all different exactly for sizes up to 322 whose mixed indices lie
      above the ones numbered in order. */
  lemma ApartIff(size: nat, seed: int16)
    ensures Apart(size, seed) <==> size <= 322 && MixedAbove(size, seed)
  {
    hide MixedIdx, EntryIdx;
    if size > 322 {
      MixedTies(size, seed);
    } else if MixedAbove(size, seed) {
      forall p: nat, q: nat | p < q <= size - 2 ensures EntryIdx(size, p, seed) != EntryIdx(size, q, seed) {
        ShortApart(size, seed, p, q);
      }
    } else {
      var i :| FirstMixed(size) <= i <= size - 3 && MixedIdx(i, seed) < FirstMixed(size);
      LowTies(size, seed, i);
    }
  }

  // ----- the seeds of core_portme.c, and some that tie

  lemma HighFits(k: byte, h: byte, s: byte)
    requires k < 8 && Xor8(h, s) < 0x40
    ensures MixedHigh(k, h, s) >= k && MixedHigh(k, h, s) >= Xor8(h, s)
    ensures k == 0 && Xor8(h, s) == 0 ==> MixedHigh(k, h, s) == 0
  {
    hide Xor8, OrBits;
    assert Pow2(6) == 0x40;
    hide Pow2;
    OrFits(k, Xor8(h, s), 6, 8);
    NoBits(8);
  }

  /** As long as both fit six bits, only a counter one below a multiple of eight has a low index. */
  lemma MixedSplit(i: nat, seed: int16)
    requires i < 0x1_0000 && Xor8(i / 0x100, HighByte(seed)) < 0x40
    ensures MixedIdx(i, seed) >= 0x100 * ((i + 1) % 8)
    ensures MixedIdx(i, seed) >= 0x100 * Xor8(i / 0x100, HighByte(seed))
    ensures (i + 1) % 8 == 0 && Xor8(i / 0x100, HighByte(seed)) == 0 ==>
      MixedIdx(i, seed) == Xor8(i % 0x100, LowByte(seed))
  {
    hide Xor8, HighByte, LowByte, MixedHigh;
    HighFits((i + 1) % 8, i / 0x100, HighByte(seed));
  }

  lemma HighXor(h: byte)
    requires h <= 1
    ensures Xor8(h, 0) == h && Xor8(h, 0x34) == 0x34 + h
  {
    assert Pow2(4) == 16 && Pow2(8) == 256;
    XorZero(h, 8);
    XorStep(h, 0x34, 8);
    hide XorBits, Pow2;
    ZeroXor(0x1A, 7);
  }

  lemma XorEightSteps(x: nat, a: nat, b: nat, c: nat, d: nat)
    requires a == x / 2 && b == a / 2 && c == b / 2 && d == c / 2 && d < 16
    ensures XorBits(x, 8, 8) == x % 2 + 2 * (a % 2 + 2 * (b % 2 + 2 * ((c + 1) % 2 + 2 * d)))
  {
    assert Pow2(4) == 16;
    hide XorBits, Pow2;
    XorZero(d, 4);
    XorStep(c, 1, 5);
    XorStep(b, 2, 6);
    XorStep(a, 4, 7);
    XorStep(x, 8, 8);
  }

  lemma XorEight(x: nat)
    requires x < 256
    ensures XorBits(x, 8, 8) == if x / 8 % 2 == 0 then x + 8 else x - 8
  {
    hide XorBits;
    var a := x / 2;
    var b := a / 2;
    var c := b / 2;
    XorEightSteps(x, a, b, c, c / 2);
    assert c == x / 8;
  }

  lemma LowXor(x: byte)
    ensures Xor8(x, 0) == x && Xor8(x, 8) == if x / 8 % 2 == 0 then x + 8 else x - 8
  {
    assert Pow2(8) == 256;
    XorZero(x, 8);
    XorEight(x);
    hide XorBits;
  }

  /** The mixed indices of a seed below 256, for counters below 512. */
  lemma MixedLarge(i: nat, seed: int16)
    requires i < 0x200 && HighByte(seed) == 0 && (i >= 0x100 || (i + 1) % 8 != 0)
    ensures MixedIdx(i, seed) >= 0x100
  {
    var h := i / 0x100;
    HighXor(h);
    hide Xor8, MixedIdx, HighByte, LowByte;
    MixedSplit(i, seed);
    if i >= 0x100 {
      assert h == 1;
    } else {
      assert h == 0 && (i + 1) % 8 >= 1;
    }
  }

  lemma MixedSmall(i: nat, seed: int16)
    requires i < 0x100 && HighByte(seed) == 0 && (i + 1) % 8 == 0
    ensures MixedIdx(i, seed) == Xor8(i, LowByte(seed))
  {
    HighXor(0);
    hide Xor8, MixedIdx, HighByte, LowByte;
    MixedSplit(i, seed);
  }

  lemma MixedValidation(i: nat)
    requires i < 0x200
    ensures MixedIdx(i, 0x3415) >= 0x3400
  {
    Seeds();
    HighXor(i / 0x100);
    hide Xor8, MixedIdx, HighByte, LowByte;
    MixedSplit(i, 0x3415);
  }

  lemma Seeds()
    ensures HighByte(0) == 0 && HighByte(8) == 0 && HighByte(0x3415) == 0x34 && LowByte(0) == 0 && LowByte(8) == 8
  {
  }

  lemma MixedProfile(i: nat, f: nat)
    requires 1 <= f <= i < 0x200 && f < 0x100
    ensures MixedIdx(i, 0) >= f
    ensures MixedIdx(i, 8) < f <==> i % 16 == 15 && i - 8 < f
  {
    Seeds();
    hide MixedIdx, HighByte, LowByte, Xor8;
    if i >= 0x100 || (i + 1) % 8 != 0 {
      MixedLarge(i, 0);
      MixedLarge(i, 8);
    } else {
      MixedSmall(i, 0);
      MixedSmall(i, 8);
      LowXor(i);
    }
  }

  /** The seed of the performance run never gives a tie in a list that short, nor does that of the
      validation run. */
  lemma ShippedApart(size: nat, seed: int16)
    requires size <= 322 && seed in {0, 0x3415}
    ensures Apart(size, seed)
  {
    hide MixedIdx, Apart;
    forall i | FirstMixed(size) <= i <= size - 3 ensures MixedIdx(i, seed) >= FirstMixed(size) {
      MixedProfile(i, FirstMixed(size));
      MixedValidation(i);
    }
    ApartIff(size, seed);
  }

  /** That of the profile run does for some sizes, from 40 on. */
  lemma ProfileApartIff(size: nat)
    requires size <= 322
    ensures Apart(size, 8) <==> size / 5 % 16 < 8
  {
    hide MixedIdx, Apart;
    var f := FirstMixed(size);
    forall i | f <= i <= size - 3 ensures MixedIdx(i, 8) < f <==> i % 16 == 15 && i - 8 < f {
      MixedProfile(i, f);
    }
    if size / 5 % 16 >= 8 {
      var i := size / 5 / 16 * 16 + 15;
      assert f <= i <= size - 3 && MixedIdx(i, 8) < f;
    }
    ApartIff(size, 8);
  }

  lemma SevenMixed()
    ensures MixedIdx(7, 7) == 0
  {
    assert HighByte(7) == 0 && LowByte(7) == 7;
    NothingLeft(7, 8);
    hide XorBits, MixedIdx, HighByte, LowByte;
    MixedSmall(7, 7);
  }

  /** With seed 7 the seventh item has the index of the list head. */
  lemma SevenTies(size: nat)
    requires 10 <= size < 40
    ensures EntryIdx(size, 7, 7) == EntryIdx(size, 0, 7) && !Apart(size, 7)
  {
    SevenMixed();
    hide MixedIdx;
  }
}
