/** Numbers out and in: `printnum` and the %d conversion as `sprintf` drives them, and `atol`. */
module Printf {
  import opened Arith
  import opened MachineTypes
  import opened Numerals

  const SPACE: byte := 0x20
  const MINUS: byte := 0x2D
  const PLUS: byte := 0x2B
  const ZERO: byte := 0x30

  /** The moving pointer of `sprintf_putch`. */
  class Cursor {
    const str: array<nat>
    var at: nat

    constructor (buffer: array<nat>)
      ensures str == buffer && at == 0
    {
      str, at := buffer, 0;
    }

    ghost function Text(): seq<nat>
      requires at <= str.Length
      reads this, str
    {
      str[..at]
    }

    method Putch(ch: byte)
      requires at < str.Length
      modifies this, str
      ensures at == old(at) + 1 && Text() == old(Text()) + [ch]
    {
      str[at] := ch;
      at := at + 1;
    }
  }

  function Repeat(ch: byte, n: int): seq<byte> { seq(if n > 0 then n else 0, _ => ch) }

  /** 0 to 9, then a to f; the store truncates to a byte. */
  function DigitByte(d: nat): byte { (d + if d >= 10 then 0x61 - 10 else ZERO) % 0x100 }

  function Chars(ds: seq<nat>): (r: seq<byte>)
    ensures |r| == |ds| && forall i :: 0 <= i < |ds| ==> r[i] == DigitByte(ds[i])
  {
    seq(|ds|, i requires 0 <= i < |ds| => DigitByte(ds[i]))
  }

  /** The numeral, padded on the left to the width. */
  function Padded(num: nat, base: nat, width: int, padc: byte): seq<byte>
    requires 2 <= base <= 16
  {
    var ds := Numeral(num, base);
    Repeat(padc, width - |ds|) + Chars(ds)
  }

  function Backwards(ds: seq<nat>): (r: seq<nat>)
    ensures |r| == |ds| && forall i :: 0 <= i < |ds| ==> r[i] == ds[|ds| - 1 - i]
  {
    seq(|ds|, i requires 0 <= i < |ds| => ds[|ds| - 1 - i])
  }

  lemma BackwardsSnoc(ds: seq<nat>, d: nat)
    ensures Backwards(ds + [d]) == [d] + Backwards(ds)
  {
  }

  lemma LastDigit(num: nat, base: nat)
    requires base >= 2
    ensures Numeral(num, base) == if num < base then [num % base] else Numeral(num / base, base) + [num % base]
  {
    if num < base { DivModUnique(base, num, 0, num); }
  }

  /** The first loop of `printnum`: the digits from the lowest, at most 64 of them. */
  method Split(num0: nat, base: nat) returns (digs: array<nat>, pos: nat)
    requires num0 < 0x1_0000_0000_0000_0000 && 2 <= base <= 16
    ensures fresh(digs) && digs.Length == 64 && pos <= 64
    ensures Backwards(digs[..pos]) == Numeral(num0, base)
  {
    hide Numeral;
    digs := new nat[64](_ => 0);
    pos := 0;
    var num: nat := num0;
    AtMost64(num0, base);
    while true
      invariant pos < 64 && Numeral(num0, base) == Numeral(num, base) + Backwards(digs[..pos])
      decreases num
    {
      digs[pos] := num % base;
      assert digs[..pos + 1] == digs[..pos] + [num % base];
      BackwardsSnoc(digs[..pos], num % base);
      LastDigit(num, base);
      pos := pos + 1;
      if num < base {
        break;
      }
      Shrinks(num, base);
      num := num / base;
    }
  }

  lemma AtMost64(num: nat, base: nat)
    requires num < 0x1_0000_0000_0000_0000 && base >= 2
    ensures |Numeral(num, base)| <= 64
  {
    hide Numeral;
    PowTwo64();
    PowGrows(2, base, 64);
    NumeralLength(num, base, 64);
  }

  lemma PowTwo64()
    ensures Pow(2, 64) == 0x1_0000_0000_0000_0000
  {
    assert Pow(2, 2) == 4 && Pow(2, 4) == 16;
    PowSquare(2, 4);
    hide Pow;
    PowSquare(2, 8);
    PowSquare(2, 16);
    PowSquare(2, 32);
  }

  lemma PowSquare(b: nat, k: nat)
    ensures Pow(b, k + k) == Pow(b, k) * Pow(b, k)
  {
    PowSum(b, k, k);
  }

  lemma {:induction false} PowSum(b: nat, j: nat, k: nat)
    ensures Pow(b, j + k) == Pow(b, j) * Pow(b, k)
  {
    if j > 0 {
      PowSum(b, j - 1, k);
      MulAssoc(b, Pow(b, j - 1), Pow(b, k));
    }
  }

  lemma MulAssoc(x: int, y: int, z: int)
    ensures x * (y * z) == (x * y) * z
  {
  }

  lemma {:induction false} PowGrows(a: nat, b: nat, k: nat)
    requires a <= b
    ensures Pow(a, k) <= Pow(b, k)
  {
    if k > 0 {
      PowGrows(a, b, k - 1);
      MulMono(a, b, Pow(a, k - 1));
      MulMono(Pow(a, k - 1), Pow(b, k - 1), b);
    }
  }

  /** The padding, if the width exceeds the number of digits. */
  method Pad(out: Cursor, width: int, pos: nat, padc: byte)
    requires out.at + |Repeat(padc, width - pos)| <= out.str.Length
    modifies out, out.str
    ensures out.at <= out.str.Length && out.Text() == old(out.Text()) + Repeat(padc, width - pos)
  {
    var w := width;
    while w > pos
      invariant w <= width && (w >= pos || w == width)
      invariant out.at + (if w > pos then w - pos else 0) <= out.str.Length
      invariant out.Text() == old(out.Text()) + Repeat(padc, width - w)
    {
      out.Putch(padc);
      w := w - 1;
    }
  }

  /** The digits from the highest, that is, from the end of the buffer. */
  method Emit(out: Cursor, digs: array<nat>, count: nat, ghost ds: seq<nat>)
    requires digs != out.str && count <= digs.Length && Backwards(digs[..count]) == ds
    requires out.at + count <= out.str.Length
    modifies out, out.str
    ensures out.at <= out.str.Length && out.Text() == old(out.Text()) + Chars(ds)
  {
    var pos := count;
    while pos > 0
      invariant 0 <= pos <= count && out.at + pos <= out.str.Length
      invariant out.Text() == old(out.Text()) + Chars(ds)[..count - pos]
    {
      pos := pos - 1;
      assert ds[count - 1 - pos] == digs[pos];
      out.Putch((digs[pos] + if digs[pos] >= 10 then 0x61 - 10 else ZERO) % 0x100);
    }
    assert Chars(ds)[..count] == Chars(ds);
  }

  /** `printnum` */
  method PrintNum(out: Cursor, num: nat, base: nat, width: int, padc: byte)
    requires num < 0x1_0000_0000_0000_0000 && 2 <= base <= 16
    requires out.at + |Padded(num, base, width, padc)| <= out.str.Length
    modifies out, out.str
    ensures out.at <= out.str.Length && out.Text() == old(out.Text()) + Padded(num, base, width, padc)
  {
    var digs, pos := Split(num, base);
    Pad(out, width, pos, padc);
    Emit(out, digs, pos, Numeral(num, base));
  }

  // ----- %d

  function Magnitude(x: int): nat { if x < 0 then -x else x }

  /** What %d prints: the sign comes before the padding. */
  function Decimal(x: int, width: int, padc: byte): seq<byte> {
    (if x < 0 then [MINUS] else []) + Padded(Magnitude(x), 10, width, padc)
  }

  lemma TwosComplement(x: int)
    requires InLong(x)
    ensures var num := x % 0x1_0000_0000_0000_0000;
      && (num >= 0x8000_0000_0000_0000 <==> x < 0)
      && Magnitude(x) == if x < 0 then (0x1_0000_0000_0000_0000 - num) % 0x1_0000_0000_0000_0000 else num
  {
    var m := 0x1_0000_0000_0000_0000;
    if x < 0 {
      DivModUnique(m, x, -1, x + m);
      DivModUnique(m, -x, 0, -x);
    } else {
      DivModUnique(m, x, 0, x);
    }
  }

  predicate InLong(v: int) { -0x8000_0000_0000_0000 <= v < 0x8000_0000_0000_0000 }

  /** The d case of `vprintfmt`; the least long is its own negative, as 64 unsigned bits it is 2^63. */
  method PrintSigned(out: Cursor, x: int64, width: int, padc: byte)
    requires out.at + |Decimal(x as int, width, padc)| <= out.str.Length
    modifies out, out.str
    ensures out.at <= out.str.Length && out.Text() == old(out.Text()) + Decimal(x as int, width, padc)
  {
    hide Padded, Magnitude;
    TwosComplement(x as int);
    var num: nat := x as int % 0x1_0000_0000_0000_0000;
    if num >= 0x8000_0000_0000_0000 {
      out.Putch(MINUS);
      num := (0x1_0000_0000_0000_0000 - num) % 0x1_0000_0000_0000_0000;
    }
    PrintNum(out, num, 10, width, padc);
  }

  // ----- atol

  function Skip(s: seq<nat>): seq<nat> { if s != [] && s[0] == SPACE then Skip(s[1..]) else s }

  function Fold(s: seq<nat>): int {
    if s == [] then 0 else 10 * Fold(s[..|s| - 1]) + (s[|s| - 1] - ZERO)
  }

  predicate Signed(s: seq<nat>) { s != [] && (s[0] == MINUS || s[0] == PLUS) }

  function Body(s: seq<nat>): seq<nat> {
    var t := Skip(s);
    if Signed(t) then t[1..] else t
  }

  /** The value that `atol` gives a text, were longs unbounded. */
  function AtolValue(s: seq<nat>): int {
    var t := Skip(s);
    if t != [] && t[0] == MINUS then -Fold(Body(s)) else Fold(Body(s))
  }

  /** No step of `atol` on these characters overflows a long. */
  predicate Fits(s: seq<nat>) {
    s == [] || (Fits(s[..|s| - 1]) && InLong(10 * Fold(s[..|s| - 1])) && InLong(Fold(s)))
  }

  predicate IsText(str: seq<nat>, s: seq<nat>) { |s| < |str| && str[|s|] == 0 && 0 !in s && str[..|s|] == s }

  /** The loop over the spaces. */
  method SkipSpaces(str: array<nat>, ghost s: seq<nat>) returns (p: nat)
    requires IsText(str[..], s)
    ensures p <= |s| && s[p..] == Skip(s)
  {
    p := 0;
    assert s[0..] == s;
    while str[p] == SPACE
      invariant p <= |s| && Skip(s[p..]) == Skip(s)
      decreases |s| - p
    {
      assert s[p..][0] == str[p] && s[p..][1..] == s[p + 1..];
      p := p + 1;
    }
    assert s[p..] != [] ==> s[p..][0] == str[p];
  }

  /** The loop over the digits. */
  method ReadDigits(str: array<nat>, q: nat, ghost s: seq<nat>) returns (res: int64)
    requires IsText(str[..], s) && q <= |s| && Fits(s[q..])
    ensures res as int == Fold(s[q..])
  {
    hide Fits, Fold;
    ghost var b := s[q..];
    var p := q;
    res := 0;
    FoldNone();
    assert b[..0] == [];
    while str[p] != 0
      invariant q <= p <= |s| && res as int == Fold(b[..p - q])
      decreases |s| - p
    {
      FoldNext(b, p - q);
      assert b[p - q] == str[p];
      res := res * 10;
      res := (res as int + (str[p] - ZERO)) as int64;
      p := p + 1;
    }
    assert b[..p - q] == b;
  }

  lemma FoldNone()
    ensures Fold([]) == 0
  {
  }

  lemma FoldNext(s: seq<nat>, n: nat)
    requires Fits(s) && n < |s|
    ensures InLong(10 * Fold(s[..n])) && InLong(Fold(s[..n + 1]))
    ensures Fold(s[..n + 1]) == 10 * Fold(s[..n]) + (s[n] - ZERO)
  {
    FitsPrefix(s, n + 1);
    assert s[..n + 1][..n] == s[..n];
  }

  method Atol(str: array<nat>, ghost s: seq<nat>) returns (r: int64)
    requires IsText(str[..], s) && Fits(Body(s)) && InLong(-Fold(Body(s)))
    ensures r as int == AtolValue(s)
  {
    hide Skip, Fits, Fold;
    var p := SkipSpaces(str, s);
    assert s[p..] != [] ==> s[p..][0] == str[p];
    var sign := false;
    if str[p] == MINUS || str[p] == PLUS {
      sign := str[p] == MINUS;
      assert s[p..][1..] == s[p + 1..];
      p := p + 1;
    }
    assert Body(s) == s[p..];
    var res := ReadDigits(str, p, s);
    r := if sign then -res else res;
  }

  lemma {:induction false} FitsPrefix(s: seq<nat>, n: nat)
    requires Fits(s) && n <= |s|
    ensures Fits(s[..n])
  {
    if n < |s| {
      assert s[..|s| - 1][..n] == s[..n];
      FitsPrefix(s[..|s| - 1], n);
    } else {
      assert s[..n] == s;
    }
  }

  // ----- There and back

  lemma Distribute(f: int, p: int, g: int)
    ensures 10 * (f * p + g) == f * (10 * p) + 10 * g
  {
  }

  lemma {:induction false} FoldConcat(p: seq<nat>, s: seq<nat>)
    ensures Fold(p + s) == Fold(p) * Pow(10, |s|) + Fold(s)
  {
    if s == [] {
      assert p + s == p;
    } else {
      var n := |s| - 1;
      var q, d := p + s[..n], s[n];
      assert p + s == q + [d] && (q + [d])[..|q|] == q;
      assert Fold(q + [d]) == 10 * Fold(q) + (d - ZERO) && Pow(10, n + 1) == 10 * Pow(10, n);
      assert Fold(s) == 10 * Fold(s[..n]) + (d - ZERO);
      hide Fold, Pow;
      FoldConcat(p, s[..n]);
      Distribute(Fold(p), Pow(10, n), Fold(s[..n]));
    }
  }

  lemma {:induction false} FoldChars(ds: seq<nat>)
    requires forall d :: d in ds ==> d < 10
    ensures Fold(Chars(ds)) == Value(ds, 10)
  {
    if ds != [] {
      var r := ds[..|ds| - 1];
      assert Chars(ds)[..|ds| - 1] == Chars(r);
      assert forall d :: d in r ==> d in ds;
      assert ds[|ds| - 1] in ds;
      DecimalByte(ds[|ds| - 1]);
      FoldChars(r);
    }
  }

  lemma {:induction false} FoldZeros(n: int)
    ensures Fold(Repeat(ZERO, n)) == 0
    decreases n
  {
    if n > 0 {
      assert Repeat(ZERO, n)[..n - 1] == Repeat(ZERO, n - 1);
      FoldZeros(n - 1);
    }
  }

  /** Padding that is no digit counts as digits below zero. */
  lemma {:induction false} FoldPads(c: byte, n: nat)
    requires c < ZERO && n > 0
    ensures Fold(Repeat(c, n)) <= c - ZERO 
  {
    assert Repeat(c, n)[..n - 1] == Repeat(c, n - 1);
    if n > 1 {
      FoldPads(c, n - 1);
    }
  }

  /** A padded number read without its sign: itself, if there is no padding or zeros. */
  lemma FoldPadded(num: nat, width: int, padc: byte)
    ensures var k := width - |Numeral(num, 10)|; var v := Fold(Padded(num, 10, width, padc));
      && (k <= 0 || padc == ZERO ==> v == num)
      && (k > 0 && padc == MINUS ==> v < 0 - num)
      && (k > 0 && padc == SPACE ==> v < 0 - num)
  {
    var ds := Numeral(num, 10);
    var k, p := width - |ds|, Pow(10, |ds|);
    NumeralValue(num, 10);
    FoldConcat(Repeat(padc, k), Chars(ds));
    FoldChars(ds);
    NumeralLength(num, 10, |ds|);
    hide Fold, Pow, Numeral, Value;
    if k <= 0 || padc == ZERO {
      if padc == ZERO { FoldZeros(k); } else { FoldZeros(0); }
      MulMono(0, 0, p);
    } else if padc == MINUS || padc == SPACE {
      FoldPads(padc, k);
      var v := Fold(Repeat(padc, k));
      MulMono(v, -3, p);
    }
  }

  lemma RepeatHead(c: byte, n: int)
    requires n > 0
    ensures Repeat(c, n) == [c] + Repeat(c, n - 1)
  {
  }

  lemma DigitChars(num: nat)
    ensures forall c :: c in Chars(Numeral(num, 10)) ==> ZERO <= c <= ZERO + 9
  {
    var ds := Numeral(num, 10);
    NumeralValue(num, 10);
    hide Numeral;
    forall i | 0 <= i < |ds| ensures ZERO <= Chars(ds)[i] <= ZERO + 9 {
      assert ds[i] in ds;
      DecimalByte(ds[i]);
    }
  }

  /** The value of a hexadecimal digit as it is read, 16 for other characters. */
  function HexValue(c: byte): nat {
    if 0x30 <= c <= 0x39 then c - 0x30 else if 0x61 <= c <= 0x66 then c - 0x61 + 10 else 16
  }

  /** Every digit of every base reads back. */
  lemma DigitReadsBack(d: nat)
    requires d < 16
    ensures HexValue(DigitByte(d)) == d
  {
  }

  lemma DecimalByte(d: nat)
    requires d < 10
    ensures DigitByte(d) == ZERO + d
  {
  }

  lemma PaddedHead(num: nat, width: int, padc: byte)
    ensures var s := Padded(num, 10, width, padc); var k := width - |Numeral(num, 10)|;
      && s != [] && (k > 0 ==> s[0] == padc && s[1..] == Padded(num, 10, width - 1, padc))
      && (k <= 0 ==> ZERO <= s[0] <= ZERO + 9)
  {
    hide Numeral, Repeat, Chars;
    var ds := Numeral(num, 10);
    var k := width - |ds|;
    DigitChars(num);
    assert Chars(ds)[0] in Chars(ds);
    if k > 0 {
      RepeatHead(padc, k);
      assert Padded(num, 10, width, padc) == [padc] + Padded(num, 10, width - 1, padc);
    } else {
      Unpadded(num, width, padc);
    }
  }

  lemma {:induction false} SkipPads(num: nat, width: int)
    ensures Skip(Padded(num, 10, width, SPACE)) == Padded(num, 10, 0, SPACE)
    decreases width
  {
    hide Padded, Numeral;
    PaddedHead(num, width, SPACE);
    if width > |Numeral(num, 10)| {
      SkipPads(num, width - 1);
    } else {
      Unpadded(num, width, SPACE);
    }
  }

  lemma Unpadded(num: nat, width: int, padc: byte)
    requires width <= |Numeral(num, 10)|
    ensures Padded(num, 10, width, padc) == Padded(num, 10, 0, SPACE) == Chars(Numeral(num, 10))
  {
    assert Repeat(padc, width - |Numeral(num, 10)|) == [];
    assert Repeat(SPACE, 0 - |Numeral(num, 10)|) == [];
  }

  lemma AtolNegative(x: int, width: int, padc: byte)
    requires x < 0
    ensures AtolValue(Decimal(x, width, padc)) == 0 - Fold(Padded(-x, 10, width, padc))
  {
    hide Padded, Fold;
    var s := Padded(-x, 10, width, padc);
    assert Decimal(x, width, padc) == [MINUS] + s && ([MINUS] + s)[1..] == s;
  }

  lemma AtolNatural(x: nat, width: int, padc: byte)
    requires padc in {SPACE, MINUS, ZERO}
    ensures var k := width - |Numeral(x, 10)|;
      AtolValue(Decimal(x, width, padc)) ==
        if k > 0 && padc == SPACE then Fold(Padded(x, 10, 0, SPACE))
        else if k > 0 && padc == MINUS then 0 - Fold(Padded(x, 10, width - 1, MINUS))
        else Fold(Padded(x, 10, width, padc))
  {
    hide Padded, Fold, Numeral;
    PaddedHead(x, width, padc);
    PaddedHead(x, 0, SPACE);
    assert Decimal(x, width, padc) == Padded(x, 10, width, padc);
    if width > |Numeral(x, 10)| && padc == SPACE {
      SkipPads(x, width);
    }
  }

  /** `atol` reads back what %d prints, but for padding that comes between sign and digits, and
      for the flag `-`, which pads with minus signs on the left. */
  lemma AtolReadsBackIff(x: int, width: int, padc: byte)
    requires padc in {SPACE, MINUS, ZERO}
    ensures var k := width - |Numeral(Magnitude(x), 10)|;
      AtolValue(Decimal(x, width, padc)) == x <==>
        k <= 0 || padc == ZERO || (padc == SPACE && x >= 0) || (padc == MINUS && x == 0 && k == 1)
  {
    var num := Magnitude(x);
    hide AtolValue, Decimal, Padded, Numeral, Fold;
    FoldPadded(num, width, padc);
    if x < 0 {
      AtolNegative(x, width, padc);
    } else {
      AtolNatural(x, width, padc);
      FoldPadded(num, 0, SPACE);
      FoldPadded(num, width - 1, MINUS);
    }
  }

  /** The flag `-` and a width of 3: 7 is printed as two minus signs and a 7, and read as 23. */
  lemma DashesMisread()
    ensures Decimal(7, 3, MINUS) == [MINUS, MINUS, ZERO + 7]
    ensures AtolValue(Decimal(7, 3, MINUS)) == 23
  {
    var s: seq<nat> := [MINUS, MINUS, ZERO + 7];
    assert Numeral(7, 10) == [7];
    assert Decimal(7, 3, MINUS) == s;
    assert Body(s) == [MINUS, ZERO + 7] && Body(s)[..1] == [MINUS] && [MINUS][..0] == [];
    assert Fold([MINUS]) == -3;
  }

  /** A width and spaces: -7 is printed with its spaces after the sign, and not read back. */
  lemma SpacesMisread()
    ensures Decimal(-7, 3, SPACE) == [MINUS, SPACE, SPACE, ZERO + 7] && AtolValue(Decimal(-7, 3, SPACE)) != -7
  {
    assert Numeral(7, 10) == [7];
    hide Fold;
    AtolReadsBackIff(-7, 3, SPACE);
  }

  lemma {:induction false} FoldNumeral(num: nat)
    ensures Fold(Chars(Numeral(num, 10))) == num
  {
    NumeralValue(num, 10);
    FoldChars(Numeral(num, 10));
  }

  /** Without overflow exactly when the magnitude is a long: for every long but the least. */
  lemma {:induction false} FitsIff(num: nat)
    ensures Fits(Chars(Numeral(num, 10))) <==> num < 0x8000_0000_0000_0000
    decreases num
  {
    hide Numeral, Fold;
    var s := Chars(Numeral(num, 10));
    FoldNumeral(num);
    LastDigit(num, 10);
    if num < 10 {
      FitsDigit(s);
    } else {
      Shrinks(num, 10);
      var r := Chars(Numeral(num / 10, 10));
      assert s[..|s| - 1] == r;
      FoldNumeral(num / 10);
      FitsIff(num / 10);
      Euclid(10, num);
    }
  }

  lemma FitsDigit(s: seq<nat>)
    requires |s| == 1 && 0 <= Fold(s) < 10
    ensures Fits(s)
  {
    assert s[..0] == [] && Fold([]) == 0 && Fits([]);
  }

  /** The text of %ld: at most a sign and nineteen digits, and no terminator in it. */
  lemma DecimalText(x: int)
    requires InLong(x)
    ensures var s := Decimal(x, -1, SPACE); |s| <= 20 && 0 !in s
    ensures Body(Decimal(x, -1, SPACE)) == Chars(Numeral(Magnitude(x), 10))
  {
    var num := Magnitude(x);
    AtMost19(num);
    DigitChars(num);
    hide Numeral, Chars, Padded;
    Unpadded(num, -1, SPACE);
    SignAndDigits(x, Chars(Numeral(num, 10)));
  }

  lemma AtMost19(num: nat)
    requires num <= 0x8000_0000_0000_0000
    ensures |Numeral(num, 10)| <= 19
  {
    hide Numeral, Pow;
    Pow19();
    NumeralLength(num, 10, 19);
  }

  lemma SignAndDigits(x: int, t: seq<byte>)
    requires t != [] && forall c :: c in t ==> ZERO <= c <= ZERO + 9
    ensures var s := (if x < 0 then [MINUS] else []) + t; 0 !in s && Body(s) == t
  {
    assert t[0] in t;
    if x < 0 {
      assert ([MINUS] + t)[1..] == t;
    } else {
      assert [] + t == t;
    }
  }

  lemma Pow19()
    ensures Pow(10, 19) == 10_000_000_000_000_000_000
  {
    assert Pow(10, 4) == 10000;
    hide Pow;
    PowSquare(10, 4);
    PowSquare(10, 8);
    PowSum(10, 16, 3);
    PowCube();
  }

  lemma PowCube()
    ensures Pow(10, 3) == 1000
  {
  }

  /** The conversion that "%ld" selects, and the terminator. */
  method SprintfLd(str: array<nat>, x: int64) returns (length: nat)
    requires |Decimal(x as int, -1, SPACE)| < str.Length
    modifies str
    ensures length == |Decimal(x as int, -1, SPACE)| && IsText(str[..], Decimal(x as int, -1, SPACE))
  {
    hide Decimal;
    DecimalText(x as int);
    var out := new Cursor(str);
    PrintSigned(out, x, -1, SPACE);
    str[out.at] := 0;
    length := out.at;
    assert str[..length] == Decimal(x as int, -1, SPACE);
  }

  /** `atol(sprintf("%ld", x))` is x, in a buffer of 21 bytes, for every long but the least; for
      that one, by FitsIff, `atol` overflows. */
  method ThereAndBack(x: int64) returns (r: int64)
    requires x as int != -0x8000_0000_0000_0000
    ensures r == x
  {
    hide Decimal, Fits, AtolValue, Body, IsText;
    var str := new nat[21](_ => 0);
    ghost var s, num := Decimal(x as int, -1, SPACE), Magnitude(x as int);
    DecimalText(x as int);
    FitsIff(num);
    FoldNumeral(num);
    AtolReadsBackIff(x as int, -1, SPACE);
    var _ := SprintfLd(str, x);
    r := Atol(str, s);
  }
}
