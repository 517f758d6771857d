/** `core_init_state`: the block that the scanner works on. */
module Patterns {
  import opened Arith
  import opened BitOps
  import opened MachineTypes
  import opened Tokens
  import opened StateMachine

  function Bytes(s: string): (r: seq<byte>)
    requires forall i :: 0 <= i < |s| ==> s[i] < 0x80 as char
    ensures |r| == |s| && forall i :: 0 <= i < |s| ==> r[i] == s[i] as int
  {
    seq(|s|, i requires 0 <= i < |s| => s[i] as int)
  }

  const DOLLAR: byte := 0x24
  const NINE: byte := 0x39

  /** No terminator and no comma, and as it happens no dollar sign and no nine. */
  predicate Plain(t: seq<byte>) { forall i :: 0 <= i < |t| ==> t[i] != 0 && t[i] != COMMA && t[i] != DOLLAR && t[i] != NINE }

  function IntPat(row: int): (r: seq<byte>)
    ensures |r| == 4 && Plain(r)
  {
    if row == 0 then Bytes("5012") else if row == 1 then Bytes("1234") else if row == 2 then Bytes("-874") else Bytes("+122")
  }

  function FloatPat(row: int): (r: seq<byte>)
    ensures |r| == 8 && Plain(r)
  {
    if row == 0 then Bytes("35.54400") else if row == 1 then Bytes(".1234500")
    else if row == 2 then Bytes("-110.700") else Bytes("+0.64400")
  }

  function SciPat(row: int): (r: seq<byte>)
    ensures |r| == 8 && Plain(r)
  {
    if row == 0 then Bytes("5.500e+3") else if row == 1 then Bytes("-.123e-2")
    else if row == 2 then Bytes("-87e+832") else Bytes("+0.6e-12")
  }

  function ErrPat(row: int): (r: seq<byte>)
    ensures |r| == 8 && Plain(r)
  {
    if row == 0 then Bytes("T0.3e-1F") else if row == 1 then Bytes("-T.T++Tq")
    else if row == 2 then Bytes("1T3.4e4z") else Bytes("34.0e-T^")
  }

  /** The pattern for a value of the seed. Only five of its bits matter, so that a seed that
      wraps around makes no difference. */
  function Pattern(seed: int): (r: seq<byte>)
    ensures (|r| == 4 || |r| == 8) && Plain(r)
  {
    hide IntPat, FloatPat, SciPat, ErrPat;
    var kind, row := seed % 8, seed / 8 % 4;
    if kind <= 2 then IntPat(row) else if kind <= 4 then FloatPat(row) else if kind <= 6 then SciPat(row) else ErrPat(row)
  }

  /** What the 32 seeds of one period select, eight to a row. */
  const ROW0: seq<string> := ["5012", "5012", "5012", "35.54400", "35.54400", "5.500e+3", "5.500e+3", "T0.3e-1F"]
  const ROW1: seq<string> := ["1234", "1234", "1234", ".1234500", ".1234500", "-.123e-2", "-.123e-2", "-T.T++Tq"]
  const ROW2: seq<string> := ["-874", "-874", "-874", "-110.700", "-110.700", "-87e+832", "-87e+832", "1T3.4e4z"]
  const ROW3: seq<string> := ["+122", "+122", "+122", "+0.64400", "+0.64400", "+0.6e-12", "+0.6e-12", "34.0e-T^"]

  /** The bytes that spell a text. */
  predicate Spells(t: seq<byte>, s: string) { |t| == |s| && forall i :: 0 <= i < |s| ==> t[i] == s[i] as int }

  lemma IntRows()
    ensures Spells(IntPat(0), "5012") && Spells(IntPat(1), "1234") && Spells(IntPat(2), "-874") && Spells(IntPat(3), "+122")
  {
    hide Plain;
  }

  lemma FloatRows()
    ensures Spells(FloatPat(0), "35.54400") && Spells(FloatPat(1), ".1234500")
    ensures Spells(FloatPat(2), "-110.700") && Spells(FloatPat(3), "+0.64400")
  {
    hide Plain;
  }

  lemma SciRows()
    ensures Spells(SciPat(0), "5.500e+3") && Spells(SciPat(1), "-.123e-2")
    ensures Spells(SciPat(2), "-87e+832") && Spells(SciPat(3), "+0.6e-12")
  {
    hide Plain;
  }

  lemma ErrRows()
    ensures Spells(ErrPat(0), "T0.3e-1F") && Spells(ErrPat(1), "-T.T++Tq")
    ensures Spells(ErrPat(2), "1T3.4e4z") && Spells(ErrPat(3), "34.0e-T^")
  {
    hide Plain;
  }

  lemma PatternFromTable(seed: int)
    ensures |ROW0| == |ROW1| == |ROW2| == |ROW3| == 8
    ensures Spells(Pattern(seed), [ROW0, ROW1, ROW2, ROW3][seed / 8 % 4][seed % 8])
  {
    hide Spells, IntPat, FloatPat, SciPat, ErrPat, Plain;
    IntRows();
    FloatRows();
    SciRows();
    ErrRows();
  }

  /** The characters that the scanner tells apart. */
  lemma Characters(c: byte)
    ensures Digit(c) <==> exists i :: 0 <= i < 10 && c == "0123456789"[i] as int
    ensures SignByte(c) <==> c == '+' as int || c == '-' as int
    ensures ExpByte(c) <==> c == 'e' as int || c == 'E' as int
    ensures POINT == '.' as int && COMMA == ',' as int
  {
    if Digit(c) { assert c == "0123456789"[c - 0x30] as int; }
  }

  /** The first n patterns after the seed, each with its comma. */
  function Filled(seed: int, n: nat): seq<byte> {
    if n == 0 then [] else Filled(seed, n - 1) + Pattern(seed + n) + [COMMA]
  }

  /** The copy of one pattern, and its comma. */
  method Append(mem: array<byte>, total: nat, buf: seq<byte>)
    requires total + |buf| < mem.Length
    modifies mem
    ensures mem[..total + |buf| + 1] == old(mem[..total]) + buf + [COMMA]
    ensures mem[total + |buf| + 1..] == old(mem[total + |buf| + 1..])
  {
    for i := 0 to |buf|
      invariant mem[..total] == old(mem[..total]) && mem[total..total + i] == buf[..i]
      invariant mem[total + |buf| + 1..] == old(mem[total + |buf| + 1..])
    {
      mem[total + i] := buf[i];
    }
    mem[total + |buf|] := COMMA;
    assert buf[..|buf|] == buf && mem[total..total + |buf|] == buf;
  }

  method Clear(mem: array<byte>, from: nat, size: nat)
    requires from <= size <= mem.Length
    modifies mem
    ensures mem[..from] == old(mem[..from]) && mem[size..] == old(mem[size..])
    ensures forall i :: from <= i < size ==> mem[i] == 0
  {
    var total := from;
    while total < size
      invariant from <= total <= size
      invariant mem[..from] == old(mem[..from]) && mem[size..] == old(mem[size..])
      invariant forall i :: from <= i < total ==> mem[i] == 0
    {
      mem[total] := 0;
      total := total + 1;
    }
  }

  lemma FilledNext(seed: int, n: nat)
    ensures Filled(seed, n + 1) == Filled(seed, n) + Pattern(seed + (n + 1)) + [COMMA]
    ensures |Filled(seed, 0)| == 0
  {
  }

  /** `core_init_state`: as many patterns as leave room for two zeros, and zeros to the end. */
  method InitState(size: nat, seed: int, mem: array<byte>) returns (ghost n: nat)
    requires 2 <= size <= mem.Length
    modifies mem
    ensures |Filled(seed, n)| <= size - 2 < |Filled(seed, n + 1)|
    ensures mem[..|Filled(seed, n)|] == Filled(seed, n)
    ensures forall i :: |Filled(seed, n)| <= i < size ==> mem[i] == 0
    ensures mem[size..] == old(mem[size..])
  {
    hide Pattern, Filled;
    var top := size - 1;
    var total, next, s := 0, 0, seed;
    var buf: seq<byte> := [];
    n := 0;
    FilledNext(seed, 0);
    while total + next + 1 < top
      invariant total == |Filled(seed, n)| <= size - 2
      invariant if next == 0 then s == seed && n == 0 else s == seed + (n + 1) && buf == Pattern(s)
      invariant next == |buf|
      invariant mem[..total] == Filled(seed, n) && mem[size..] == old(mem[size..])
      decreases top - total, if next == 0 then 1 else 0
    {
      if next > 0 {
        ghost var m := mem[..];
        Append(mem, total, buf);
        FilledNext(seed, n);
        total := total + next + 1;
        assert mem[size..] == mem[total..][size - total..] == m[total..][size - total..];
        n := n + 1;
      }
      s := s + 1;
      buf := Pattern(s);
      next := |buf|;
    }
    FilledNext(seed, n);
    Clear(mem, total, size);
  }

  // ----- What the scanner makes of the patterns

  lemma RunTake(t: seq<byte>, k: nat)
    requires k < |t|
    ensures Run(t[..k + 1]) == Next(Run(t[..k]), t[k]) && Run(t[..0]) == Start
  {
    RunSnoc(t[..k], t[k]);
    assert t[..k] + [t[k]] == t[..k + 1];
  }

  lemma RunFour(t: seq<byte>)
    requires |t| >= 4
    ensures Run(t[..4]) == Next(Next(Next(Next(Start, t[0]), t[1]), t[2]), t[3])
  {
    hide Next, Run;
    RunTake(t, 0);
    RunTake(t, 1);
    RunTake(t, 2);
    RunTake(t, 3);
  }

  lemma RunEight(t: seq<byte>)
    requires |t| == 8
    ensures Run(t) == Next(Next(Next(Next(Run(t[..4]), t[4]), t[5]), t[6]), t[7])
  {
    hide Next, Run;
    RunTake(t, 4);
    RunTake(t, 5);
    RunTake(t, 6);
    RunTake(t, 7);
    assert t[..8] == t;
  }

  lemma IntPatMeans(row: int)
    ensures IsInt(IntPat(row))
  {
    hide Plain;
    var t := IntPat(row);
    RunFour(t);
    assert t[..4] == t;
    Classified(t);
    hide IsInt, IsFloat, IsScientific, Run;
  }

  lemma FloatPatFour(row: int)
    ensures Run(FloatPat(row)[..4]) == if row == 2 then Int else Float
  {
    hide Plain, Run;
    RunFour(FloatPat(row));
  }

  lemma FloatPatRuns(row: int)
    ensures Run(FloatPat(row)) == Float
  {
    hide Plain, Run;
    FloatPatFour(row);
    RunEight(FloatPat(row));
  }

  lemma FloatPatMeans(row: int)
    ensures IsFloat(FloatPat(row))
  {
    hide Plain, FloatPat, IsInt, IsFloat, IsScientific, Run;
    FloatPatRuns(row);
    Classified(FloatPat(row));
  }

  lemma SciPatFour(row: int)
    requires 0 <= row < 4
    ensures Run(SciPat(row)[..4]) == if row == 2 then Invalid else Float
  {
    hide Plain, Run;
    RunFour(SciPat(row));
  }

  lemma SciPatRuns(row: int)
    requires 0 <= row < 4
    ensures Run(SciPat(row)) == if row == 2 then Invalid else Scientific
  {
    hide Plain, Run;
    SciPatFour(row);
    RunEight(SciPat(row));
  }

  lemma SciPatMeans(row: int)
    requires 0 <= row < 4
    ensures IsScientific(SciPat(row)) <==> row != 2
    ensures row == 2 ==> Run(SciPat(row)) == Invalid
  {
    hide Plain, SciPat, IsInt, IsFloat, IsScientific, Run;
    SciPatRuns(row);
    Classified(SciPat(row));
  }

  lemma ErrPatMeans(row: int)
    ensures Run(ErrPat(row)) == Invalid
  {
    hide Plain;
    var t := ErrPat(row);
    RunFour(t);
    RunEight(t);
    hide Run;
  }

  /** The patterns are what their tables say, except "-87e+832": having no point it is not
      scientific, and the scanner gives up on it at the e. */
  lemma PatternMeans(seed: int)
    ensures var kind, row := seed % 8, seed / 8 % 4;
      && (kind <= 2 ==> IsInt(Pattern(seed)))
      && (3 <= kind <= 4 ==> IsFloat(Pattern(seed)))
      && (5 <= kind <= 6 ==> (IsScientific(Pattern(seed)) <==> row != 2))
      && (kind == 7 || (5 <= kind <= 6 && row == 2) ==> Run(Pattern(seed)) == Invalid)
  {
    hide IsInt, IsFloat, IsScientific, Run, IntPat, FloatPat, SciPat, ErrPat;
    var row := seed / 8 % 4;
    IntPatMeans(row);
    FloatPatMeans(row);
    SciPatMeans(row);
    ErrPatMeans(row);
  }

  /** "-87" is still an integer; the e after it ends the token. */
  lemma ExponentNeedsPoint()
    ensures var t := SciPat(2); Run(t[..3]) == Int && Run(t[..4]) == Invalid
  {
    var t := SciPat(2);
    hide Run;
    RunTake(t, 0);
    RunTake(t, 1);
    RunTake(t, 2);
    RunTake(t, 3);
  }

  /** Init and bench together: the scans stay in the block, and it comes back exactly when the
      seeds agree in their low bytes and corruption makes no comma. */
  method InitAndBench(size: nat, mem: array<byte>, seed1: int16, seed2: int16, step: nat, crc0: bv16)
    returns (crc: bv16, ghost before: seq<byte>, ghost n: nat)
    requires 2 <= size <= mem.Length && 2 <= step
    modifies mem
    ensures |before| == mem.Length && mem[..] == Masked(Masked(before, size, step, LowByte(seed1)), size, step, LowByte(seed2))
    ensures mem[..] == before <==>
      forall i :: 0 <= i < |before| && Visited(i, size, step) && before[i] != COMMA ==>
        LowByte(seed1) == LowByte(seed2) && Xor8(before[i], LowByte(seed1)) != COMMA
    ensures Filled(seed1 as int, n) <= before && |Filled(seed1 as int, n)| <= size - 2 < |Filled(seed1 as int, n + 1)|
    ensures forall i :: |Filled(seed1 as int, n)| <= i < size ==> before[i] == 0
  {
    hide Filled, Xor8, Masked, Lexed;
    n := InitState(size, seed1 as int, mem);
    before := mem[..];
    assert Filled(seed1 as int, n) <= before;
    ghost var xs, ys;
    crc, xs, ys := BenchState(size, mem, seed1, seed2, step, crc0);
    RestoredIff(before, size, step, LowByte(seed1), LowByte(seed2));
  }

  lemma {:induction false} FilledStarts(seed: int, n: nat)
    requires n >= 1
    ensures Pattern(seed + 1) + [COMMA] <= Filled(seed, n)
  {
    hide Pattern;
    if n > 1 {
      FilledStarts(seed, n - 1);
    } else {
      assert Filled(seed, 0) == [];
    }
  }

  /** With seed 2 the block starts with "35.54400". Its point is two above a comma, so a mask of 2
      turns it into one, which the undo pass then leaves alone: equal seeds do not restore it. */
  method CommaStays(size: nat, mem: array<byte>, crc0: bv16) returns (crc: bv16, ghost before: seq<byte>)
    requires 16 <= size <= mem.Length
    modifies mem
    ensures |before| == mem.Length && before[2] == POINT && mem[2] == COMMA
  {
    hide Filled, Masked, Lexed, Xor8, Visited;
    ghost var n;
    crc, before, n := InitAndBench(size, mem, 2, 2, 2, crc0);
    PointFirst(n, size, before);
    PointMasked(before, size);
    assert LowByte(2) == 2 && mem[..][2] == mem[2];
  }

  lemma PointFirst(n: nat, size: nat, before: seq<byte>)
    requires 16 <= size && Filled(2, n) <= before && |Filled(2, n)| <= size - 2 < |Filled(2, n + 1)|
    ensures |before| > 2 && before[2] == POINT
  {
    FilledNext(2, 0);
    var t := Pattern(3);
    assert |t| == 8 && t[2] == POINT;
    hide Pattern, Filled;
    assert Filled(2, 1) == Filled(2, 0) + t + [COMMA];
    if n > 0 { FilledStarts(2, n); }
  }

  lemma PointMasked(before: seq<byte>, size: nat)
    requires size <= |before| && size > 2 && before[2] == POINT
    ensures Masked(Masked(before, size, 2, 2), size, 2, 2)[2] == COMMA
  {
    PointToComma();
    hide Xor8;
    assert Visited(2, size, 2);
  }

  lemma PointToComma()
    ensures Xor8(POINT, 2) == COMMA
  {
    assert Pow2(3) == 8 && Pow2(6) == 64;
    XorZero(0x0B, 6);
    assert XorBits(0x17, 1, 7) == 0x16;
  }

  /** At every step, also those of 0x22 and more that `calc_func` passes: with seeds whose low byte is
      that of a comma, a terminator on which a pass lands becomes one and stays one. */
  method TerminatorLost(size: nat, mem: array<byte>, step: nat, i: nat, crc0: bv16) returns (crc: bv16, ghost before: seq<byte>)
    requires 2 <= size <= mem.Length && 2 <= step && size - 2 <= i < size && i % step == 0
    modifies mem
    ensures |before| == mem.Length && before[i] == 0 && mem[i] == COMMA
  {
    hide Filled, Masked, Lexed, Xor8, Visited;
    ghost var n;
    crc, before, n := InitAndBench(size, mem, 0x2C, 0x2C, step, crc0);
    assert before[i] == 0;
    ZeroMasked(before, size, step, i);
    assert LowByte(0x2C) == COMMA && mem[..][i] == mem[i];
  }

  lemma ZeroMasked(before: seq<byte>, size: nat, step: nat, i: nat)
    requires size <= |before| && i < size && step > 0 && i % step == 0 && before[i] == 0
    ensures Masked(Masked(before, size, step, COMMA), size, step, COMMA)[i] == COMMA
  {
    assert Pow2(8) == 256;
    ZeroXor(COMMA, 8);
    hide XorBits;
    assert Visited(i, size, step);
  }

  // ----- the seeds of core_portme.c

  lemma {:induction false} FilledPlain(seed: int, n: nat)
    ensures forall b :: b in Filled(seed, n) ==> b != 0 && b != DOLLAR && b != NINE
  {
    hide Filled, Pattern;
    FilledNext(seed, 0);
    if n > 0 {
      FilledPlain(seed, n - 1);
      FilledNext(seed, n - 1);
    }
  }

  lemma CommaFrom(b: byte, mask: byte)
    ensures Xor8(b, mask) == COMMA ==> b == Xor8(COMMA, mask)
  {
    Xor8Twice(b, mask, mask);
  }

  lemma CommaMasks()
    ensures Xor8(COMMA, 0) == COMMA && Xor8(COMMA, 8) == DOLLAR && Xor8(COMMA, 0x15) == NINE
  {
    assert Pow2(2) == 4 && Pow2(8) == 256;
    hide XorBits, Pow2;
    XorZero(COMMA, 8);
    XorZero(2, 4);
    XorZero(1, 3);
    XorStep(0x05, 1, 5);
    XorStep(0x0B, 2, 6);
    XorStep(0x16, 4, 7);
    XorStep(COMMA, 8, 8);
    XorStep(0x02, 1, 4);
    XorStep(0x05, 2, 5);
    XorStep(0x0B, 5, 6);
    XorStep(0x16, 0x0A, 7);
    XorStep(COMMA, 0x15, 8);
  }

  lemma NoCommaMade(seed: int, n: nat, size: nat, before: seq<byte>, mask: byte)
    requires Filled(seed, n) <= before && |Filled(seed, n)| <= size <= |before|
    requires forall i :: |Filled(seed, n)| <= i < size ==> before[i] == 0
    requires Xor8(COMMA, mask) in {COMMA, DOLLAR, NINE}
    ensures forall i :: 0 <= i < size && before[i] != COMMA ==> Xor8(before[i], mask) != COMMA
  {
    hide Filled, Xor8;
    FilledPlain(seed, n);
    forall i | 0 <= i < size && before[i] != COMMA ensures Xor8(before[i], mask) != COMMA {
      CommaFrom(before[i], mask);
      assert i < |Filled(seed, n)| ==> before[i] == Filled(seed, n)[i] && before[i] in Filled(seed, n);
    }
  }

  /** With the seeds of the performance, the profile and the validation run no byte of any block becomes
      a comma, so the block comes back whatever its size and the step. */
  method ShippedBlockReturns(size: nat, mem: array<byte>, seed: int16, step: nat, crc0: bv16)
    returns (crc: bv16, ghost before: seq<byte>, ghost n: nat)
    requires 2 <= size <= mem.Length && 2 <= step && seed in {0, 8, 0x3415}
    modifies mem
    ensures mem[..] == before
    ensures Filled(seed as int, n) <= before && |Filled(seed as int, n)| <= size - 2 < |Filled(seed as int, n + 1)|
  {
    hide Filled, Xor8, Visited, Masked;
    crc, before, n := InitAndBench(size, mem, seed, seed, step, crc0);
    CommaMasks();
    assert LowByte(0) == 0 && LowByte(8) == 8 && LowByte(0x3415) == 0x15;
    NoCommaMade(seed as int, n, size, before, LowByte(seed));
    VisitedInside(size, step);
  }

  lemma VisitedInside(size: nat, step: nat)
    requires step > 0
    ensures forall i: nat :: Visited(i, size, step) ==> i < size
  {
  }
}
