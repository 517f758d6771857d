/** The blocked matrix multiply of `benchmarks/mm`, over exact reals. A flat buffer of row
    stride ld is a two-dimensional array of ld columns, and the pointer `a + i*lda + j` is the
    window of that array starting at (i, j). */
module BlockedMultiply {
  import opened Arith

  /** The contents of a buffer as a function of row and column, 0 outside it. */
  type View = (int, int) -> real

  ghost function Rows(a: array2<real>): (g: seq<seq<real>>)
    reads a
    ensures |g| == a.Length0
    ensures forall i :: 0 <= i < a.Length0 ==> |g[i]| == a.Length1
    ensures forall i, j :: 0 <= i < a.Length0 && 0 <= j < a.Length1 ==> g[i][j] == a[i, j]
  {
    seq(a.Length0, i requires 0 <= i < a.Length0 reads a =>
      seq(a.Length1, j requires 0 <= j < a.Length1 reads a => a[i, j]))
  }

  ghost function ViewOf(a: array2<real>): (f: View)
    reads a
    ensures forall i, j :: f(i, j) == if 0 <= i < a.Length0 && 0 <= j < a.Length1 then a[i, j] else 0.0
  {
    var g := Rows(a);
    (i: int, j: int) => if 0 <= i < |g| && 0 <= j < |g[i]| then g[i][j] else 0.0
  }

  /** A view from (row, col) on. */
  datatype Window = Window(f: View, row: int, col: int) {
    function At(i: int, j: int): real { f(row + i, col + j) }

    function Shift(i: int, j: int): Window { Window(f, row + i, col + j) }
  }

  function Mul(x: real, y: real): real { x * y }

  /** Row i of a times column j of b, over the first p terms. */
  ghost function Dot(a: Window, b: Window, i: int, j: int, p: nat): real {
    if p == 0 then 0.0 else Dot(a, b, i, j, p - 1) + Mul(a.At(i, p - 1), b.At(p - 1, j))
  }

  // ----- it is the product of matrices: bilinear, and the identity is its unit

  lemma Products(x: real, y: real, z: real)
    ensures Mul(x + y, z) == Mul(x, z) + Mul(y, z) && Mul(x, y + z) == Mul(x, y) + Mul(x, z)
    ensures Mul(z * x, y) == z * Mul(x, y) && Mul(x, z * y) == z * Mul(x, y)
    ensures Mul(x, 1.0) == x && Mul(1.0, x) == x && Mul(x, 0.0) == 0.0 && Mul(0.0, x) == 0.0
  {
  }

  /** The sum of rows, and of columns. */
  lemma {:induction false} DotAdditive(a: Window, a': Window, b: Window, b': Window, i: int, j: int, p: nat, sa: Window, sb: Window)
    requires forall k: nat :: k < p ==> sa.At(i, k) == a.At(i, k) + a'.At(i, k) && sb.At(k, j) == b.At(k, j) + b'.At(k, j)
    ensures Dot(sa, b, i, j, p) == Dot(a, b, i, j, p) + Dot(a', b, i, j, p)
    ensures Dot(a, sb, i, j, p) == Dot(a, b, i, j, p) + Dot(a, b', i, j, p)
  {
    if p > 0 {
      DotAdditive(a, a', b, b', i, j, p - 1, sa, sb);
      Products(a.At(i, p - 1), a'.At(i, p - 1), b.At(p - 1, j));
      Products(a.At(i, p - 1), b.At(p - 1, j), b'.At(p - 1, j));
      hide Mul;
    }
  }

  /** A factor of a row, or of a column, is one of the product. */
  lemma {:induction false} DotScaled(a: Window, b: Window, i: int, j: int, p: nat, x: real, xa: Window, xb: Window)
    requires forall k: nat :: k < p ==> xa.At(i, k) == x * a.At(i, k) && xb.At(k, j) == x * b.At(k, j)
    ensures Dot(xa, b, i, j, p) == x * Dot(a, b, i, j, p) && Dot(a, xb, i, j, p) == x * Dot(a, b, i, j, p)
  {
    if p > 0 {
      DotScaled(a, b, i, j, p - 1, x, xa, xb);
      Products(a.At(i, p - 1), b.At(p - 1, j), x);
      Distributes(x, Dot(a, b, i, j, p - 1), Mul(a.At(i, p - 1), b.At(p - 1, j)));
      hide Mul;
    }
  }

  lemma Distributes(x: real, y: real, z: real)
    ensures x * (y + z) == x * y + x * z
  {
  }

  lemma {:induction false} DotZero(a: Window, b: Window, i: int, j: int, p: nat)
    requires forall k: nat :: k < p ==> a.At(i, k) == 0.0 || b.At(k, j) == 0.0
    ensures Dot(a, b, i, j, p) == 0.0
  {
    if p > 0 {
      DotZero(a, b, i, j, p - 1);
      Products(a.At(i, p - 1), b.At(p - 1, j), 0.0);
      Products(b.At(p - 1, j), a.At(i, p - 1), 0.0);
      hide Mul;
    }
  }

  /** Against the k-th unit column a row gives its k-th element, and the k-th unit row against a
      column that of the column. */
  lemma {:induction false} DotUnit(a: Window, b: Window, i: int, j: int, p: nat, k: nat)
    requires k < p
    ensures (forall l: nat :: l < p ==> b.At(l, j) == if l == k then 1.0 else 0.0) ==> Dot(a, b, i, j, p) == a.At(i, k)
    ensures (forall l: nat :: l < p ==> a.At(i, l) == if l == k then 1.0 else 0.0) ==> Dot(a, b, i, j, p) == b.At(k, j)
  {
    if k < p - 1 {
      DotUnit(a, b, i, j, p - 1, k);
    } else {
      if forall l: nat :: l < p ==> b.At(l, j) == if l == k then 1.0 else 0.0 { DotZero(a, b, i, j, p - 1); }
      if forall l: nat :: l < p ==> a.At(i, l) == if l == k then 1.0 else 0.0 { DotZero(a, b, i, j, p - 1); }
    }
    Products(a.At(i, p - 1), b.At(p - 1, j), 0.0);
    Products(b.At(p - 1, j), a.At(i, p - 1), 0.0);
    hide Mul;
  }

  /** The window is a unit matrix as far as p terms and n columns go. */
  ghost predicate Unit(b: Window, p: nat, n: nat) {
    forall k: nat, j: nat :: k < p && j < n ==> b.At(k, j) == if k == j then 1.0 else 0.0
  }

  ghost predicate Zero(b: Window, p: nat, n: nat) {
    forall k: nat, j: nat :: k < p && j < n ==> b.At(k, j) == 0.0
  }

  /** Multiplying by a unit matrix adds the other operand, by a zero matrix nothing. */
  lemma UnitAccumulates(f0: View, f1: View, row: int, col: int, a: Window, b: Window, m: nat, n: nat, p: nat)
    requires Accumulated(f0, f1, row, col, a, b, m, n, p)
    ensures Unit(b, p, n) && n <= p ==>
      forall i, j :: row <= i < row + m && col <= j < col + n ==> f1(i, j) == f0(i, j) + a.At(i - row, j - col)
    ensures Unit(a, m, p) && m <= p ==>
      forall i, j :: row <= i < row + m && col <= j < col + n ==> f1(i, j) == f0(i, j) + b.At(i - row, j - col)
    ensures Zero(a, m, p) || Zero(b, p, n) ==> forall i, j :: f1(i, j) == f0(i, j)
  {
    forall i: nat, j: nat | i < m && j < n
      ensures Unit(b, p, n) && n <= p ==> Dot(a, b, i, j, p) == a.At(i, j)
      ensures Unit(a, m, p) && m <= p ==> Dot(a, b, i, j, p) == b.At(i, j)
      ensures Zero(a, m, p) || Zero(b, p, n) ==> Dot(a, b, i, j, p) == 0.0
    {
      if Unit(b, p, n) && n <= p { DotUnit(a, b, i, j, p, j); }
      if Unit(a, m, p) && m <= p { DotUnit(a, b, i, j, p, i); }
      if Zero(a, m, p) || Zero(b, p, n) { DotZero(a, b, i, j, p); }
    }
    hide Dot, Unit, Zero;
  }

  lemma {:induction false} DotSplit(a: Window, b: Window, i: int, j: int, p: nat, q: nat)
    ensures Dot(a, b, i, j, p + q) == Dot(a, b, i, j, p) + Dot(a.Shift(0, p), b.Shift(p, 0), i, j, q)
  {
    if q > 0 {
      DotSplit(a, b, i, j, p, q - 1);
    }
  }

  lemma {:induction false} DotShift(a: Window, b: Window, i: int, j: int, p: nat, di: int, dj: int)
    ensures Dot(a.Shift(di, 0), b.Shift(0, dj), i, j, p) == Dot(a, b, di + i, dj + j, p)
  {
    if p > 0 {
      DotShift(a, b, i, j, p - 1, di, dj);
    }
  }

  /** Windows that agree on what is multiplied have the same product. */
  lemma {:induction false} DotCong(a: Window, b: Window, a': Window, b': Window, i: int, j: int, p: nat)
    requires forall k: nat :: k < p ==> a.At(i, k) == a'.At(i, k) && b.At(k, j) == b'.At(k, j)
    ensures Dot(a, b, i, j, p) == Dot(a', b', i, j, p)
  {
    if p > 0 {
      DotCong(a, b, a', b', i, j, p - 1);
    }
  }

  /** What `mm` promises: f1 is f0 with the m x n product of a and b over p terms added in the
      window at (row, col), and nothing else changed. */
  ghost predicate Accumulated(f0: View, f1: View, row: int, col: int, a: Window, b: Window, m: int, n: int, p: nat) {
    forall i, j :: f1(i, j) == f0(i, j) +
      (if row <= i < row + m && col <= j < col + n then Dot(a, b, i - row, j - col, p) else 0.0)
  }

  lemma NothingAccumulated(f: View, f': View, row: int, col: int, a: Window, b: Window, m: int, n: int, p: nat)
    requires m <= 0 || n <= 0 || p == 0
    requires forall i, j :: f'(i, j) == f(i, j)
    ensures Accumulated(f, f', row, col, a, b, m, n, p)
  {
  }

  /** Products over neighbouring columns, neighbouring rows, and neighbouring terms add up. */
  lemma AddColumns(f0: View, f1: View, f2: View, row: int, col: int, a: Window, b: Window, m: int, n: int, n': int, p: nat)
    requires 0 <= n && 0 <= n'
    requires Accumulated(f0, f1, row, col, a, b, m, n, p)
    requires Accumulated(f1, f2, row, col + n, a, b.Shift(0, n), m, n', p)
    ensures Accumulated(f0, f2, row, col, a, b, m, n + n', p)
  {
    forall i, j ensures f2(i, j) == f0(i, j) +
      (if row <= i < row + m && col <= j < col + (n + n') then Dot(a, b, i - row, j - col, p) else 0.0)
    {
      assert a.Shift(0, 0) == a;
      DotShift(a, b, i - row, j - (col + n), p, 0, n);
      assert f2(i, j) == f1(i, j) +
        (if row <= i < row + m && col + n <= j < col + n + n' then Dot(a, b.Shift(0, n), i - row, j - (col + n), p) else 0.0);
    }
  }

  lemma AddRows(f0: View, f1: View, f2: View, row: int, col: int, a: Window, b: Window, m: int, m': int, n: int, p: nat)
    requires 0 <= m && 0 <= m'
    requires Accumulated(f0, f1, row, col, a, b, m, n, p)
    requires Accumulated(f1, f2, row + m, col, a.Shift(m, 0), b, m', n, p)
    ensures Accumulated(f0, f2, row, col, a, b, m + m', n, p)
  {
    forall i, j ensures f2(i, j) == f0(i, j) +
      (if row <= i < row + (m + m') && col <= j < col + n then Dot(a, b, i - row, j - col, p) else 0.0)
    {
      assert b.Shift(0, 0) == b;
      DotShift(a, b, i - (row + m), j - col, p, m, 0);
      assert f2(i, j) == f1(i, j) +
        (if row + m <= i < row + m + m' && col <= j < col + n then Dot(a.Shift(m, 0), b, i - (row + m), j - col, p) else 0.0);
    }
  }

  lemma AddTerms(f0: View, f1: View, f2: View, row: int, col: int, a: Window, b: Window, m: int, n: int, p: nat, p': nat)
    requires Accumulated(f0, f1, row, col, a, b, m, n, p)
    requires Accumulated(f1, f2, row, col, a.Shift(0, p), b.Shift(p, 0), m, n, p')
    ensures Accumulated(f0, f2, row, col, a, b, m, n, p + p')
  {
    forall i, j ensures f2(i, j) == f0(i, j) +
      (if row <= i < row + m && col <= j < col + n then Dot(a, b, i - row, j - col, p + p') else 0.0)
    {
      DotSplit(a, b, i - row, j - col, p, p');
      assert f2(i, j) == f1(i, j) +
        (if row <= i < row + m && col <= j < col + n then Dot(a.Shift(0, p), b.Shift(p, 0), i - row, j - col, p') else 0.0);
    }
  }

  // ----- mm_naive

  function Fma(x: real, y: real, z: real): real { Mul(x, y) + z }

  /** One element: four accumulators over four interleaved quarters of the terms. */
  method NaiveElement(p: nat, a: array2<real>, ai: nat, ak: nat, b: array2<real>, bk: nat, bj: nat, c: real) returns (r: real)
    requires ai < a.Length0 && ak + p <= a.Length1 && bk + p <= b.Length0 && bj < b.Length1
    ensures r == c + Dot(Window(ViewOf(a), ai, ak), Window(ViewOf(b), bk, bj), 0, 0, p)
  {
    ghost var wa, wb := Window(ViewOf(a), ai, ak), Window(ViewOf(b), bk, bj);
    hide Mul, Dot, ViewOf;
    DotNone(wa, wb);
    var s0, s1, s2, s3 := c, 0.0, 0.0, 0.0;
    var k := 0;
    while k < p / 4 * 4
      invariant k <= p / 4 * 4 && k % 4 == 0
      invariant s0 + s1 + s2 + s3 == c + Dot(wa, wb, 0, 0, k)
    {
      s0 := Fma(a[ai, ak + k], b[bk + k, bj], s0);
      s1 := Fma(a[ai, ak + k + 1], b[bk + k + 1, bj], s1);
      s2 := Fma(a[ai, ak + k + 2], b[bk + k + 2, bj], s2);
      s3 := Fma(a[ai, ak + k + 3], b[bk + k + 3, bj], s3);
      DotFour(wa, wb, k);
      k := k + 4;
    }
    while k < p
      invariant k <= p
      invariant s0 + s1 + s2 + s3 == c + Dot(wa, wb, 0, 0, k)
    {
      s0 := Fma(a[ai, ak + k], b[bk + k, bj], s0);
      DotOne(wa, wb, 0, 0, k);
      k := k + 1;
    }
    r := (s0 + s1) + (s2 + s3);
  }

  lemma DotNone(a: Window, b: Window)
    ensures forall i, j :: Dot(a, b, i, j, 0) == 0.0
  {
  }

  lemma DotOne(a: Window, b: Window, i: int, j: int, k: nat)
    ensures Dot(a, b, i, j, k + 1) == Dot(a, b, i, j, k) + Mul(a.At(i, k), b.At(k, j))
  {
  }

  lemma DotFour(a: Window, b: Window, k: nat)
    ensures Dot(a, b, 0, 0, k + 4) == Dot(a, b, 0, 0, k) + Mul(a.At(0, k), b.At(k, 0)) + Mul(a.At(0, k + 1), b.At(k + 1, 0))
      + Mul(a.At(0, k + 2), b.At(k + 2, 0)) + Mul(a.At(0, k + 3), b.At(k + 3, 0))
  {
    hide Mul;
    assert Dot(a, b, 0, 0, k + 2) == Dot(a, b, 0, 0, k) + Mul(a.At(0, k), b.At(k, 0)) + Mul(a.At(0, k + 1), b.At(k + 1, 0));
  }

  /** The operand windows of a call, and that all three lie within their buffers. */
  ghost predicate InBounds(m: int, n: int, p: int, a: array2<real>, ar: int, ac: int,
                           b: array2<real>, br: int, bc: int, c: array2<real>, cr: int, cc: int) {
    && 0 <= m && 0 <= n && 0 <= p
    && 0 <= ar && ar + m <= a.Length0 && 0 <= ac && ac + p <= a.Length1
    && 0 <= br && br + p <= b.Length0 && 0 <= bc && bc + n <= b.Length1
    && 0 <= cr && cr + m <= c.Length0 && 0 <= cc && cc + n <= c.Length1
    && c != a && c != b
  }

  lemma OneElement(f0: View, f1: View, row: int, col: int, a: Window, b: Window, p: nat)
    requires f1(row, col) == f0(row, col) + Dot(a, b, 0, 0, p)
    requires forall i, j :: i != row || j != col ==> f1(i, j) == f0(i, j)
    ensures Accumulated(f0, f1, row, col, a, b, 1, 1, p)
  {
  }

  method NaiveRow(n: nat, p: nat, a: array2<real>, ar: nat, ac: nat, b: array2<real>, br: nat, bc: nat,
                  c: array2<real>, cr: nat, cc: nat)
    requires InBounds(1, n, p, a, ar, ac, b, br, bc, c, cr, cc)
    modifies c
    ensures Accumulated(old(ViewOf(c)), ViewOf(c), cr, cc, Window(ViewOf(a), ar, ac), Window(ViewOf(b), br, bc), 1, n, p)
  {
    hide Dot, ViewOf, Accumulated;
    ghost var wa, wb := Window(ViewOf(a), ar, ac), Window(ViewOf(b), br, bc);
    ghost var f0 := ViewOf(c);
    NothingAccumulated(f0, f0, cr, cc, wa, wb, 1, 0, p);
    for j := 0 to n
      invariant Accumulated(f0, ViewOf(c), cr, cc, wa, wb, 1, j, p)
      invariant ViewOf(a) == wa.f && ViewOf(b) == wb.f
    {
      ghost var f := ViewOf(c);
      c[cr, cc + j] := NaiveElement(p, a, ar, ac, b, br, bc + j, c[cr, cc + j]);
      OneElement(f, ViewOf(c), cr, cc + j, wa, wb.Shift(0, j), p);
      AddColumns(f0, f, ViewOf(c), cr, cc, wa, wb, 1, j, 1, p);
    }
  }

  /** `mm_naive`. */
  method MmNaive(m: nat, n: nat, p: nat, a: array2<real>, ar: nat, ac: nat, b: array2<real>, br: nat, bc: nat,
                 c: array2<real>, cr: nat, cc: nat)
    requires InBounds(m, n, p, a, ar, ac, b, br, bc, c, cr, cc)
    modifies c
    ensures Accumulated(old(ViewOf(c)), ViewOf(c), cr, cc, Window(ViewOf(a), ar, ac), Window(ViewOf(b), br, bc), m, n, p)
  {
    hide Dot, ViewOf, Accumulated;
    ghost var wa, wb := Window(ViewOf(a), ar, ac), Window(ViewOf(b), br, bc);
    ghost var f0 := ViewOf(c);
    NothingAccumulated(f0, f0, cr, cc, wa, wb, 0, n, p);
    for i := 0 to m
      invariant Accumulated(f0, ViewOf(c), cr, cc, wa, wb, i, n, p)
      invariant ViewOf(a) == wa.f && ViewOf(b) == wb.f
    {
      ghost var f := ViewOf(c);
      NaiveRow(n, p, a, ar + i, ac, b, br, bc, c, cr + i, cc);
      AddRows(f0, f, ViewOf(c), cr, cc, wa, wb, i, 1, n, p);
    }
  }

  // ----- kloop

  const RBM := 4
  const RBN := 5
  const RBK := 6

  /** The twenty accumulators hold c plus the first k terms. */
  ghost predicate Blocked(acc: View, f0: View, row: int, col: int, a: Window, b: Window, k: nat) {
    forall r, s :: 0 <= r < RBM && 0 <= s < RBN ==> acc(r, s) == f0(row + r, col + s) + Dot(a, b, r, s, k)
  }

  /** Twenty fused multiply-adds: one column of a against one row of b. */
  method RankOne(acc: array2<real>, a: array2<real>, ar: nat, ak: nat, b: array2<real>, bk: nat, bc: nat)
    requires acc.Length0 == RBM && acc.Length1 == RBN && acc != a && acc != b
    requires ar + RBM <= a.Length0 && ak < a.Length1 && bk < b.Length0 && bc + RBN <= b.Length1
    modifies acc
    ensures forall r, s :: 0 <= r < RBM && 0 <= s < RBN ==>
      acc[r, s] == old(acc[r, s]) + Mul(a[ar + r, ak], b[bk, bc + s])
  {
    hide Mul;
    for r := 0 to RBM
      invariant forall i, s :: 0 <= i < r && 0 <= s < RBN ==>
        acc[i, s] == old(acc[i, s]) + Mul(a[ar + i, ak], b[bk, bc + s])
      invariant forall i, s :: r <= i < RBM && 0 <= s < RBN ==> acc[i, s] == old(acc[i, s])
    {
      for s := 0 to RBN
        invariant forall i, t :: 0 <= i < RBM && 0 <= t < RBN && (i < r || (i == r && t < s)) ==>
          acc[i, t] == old(acc[i, t]) + Mul(a[ar + i, ak], b[bk, bc + t])
        invariant forall i, t :: 0 <= i < RBM && 0 <= t < RBN && !(i < r || (i == r && t < s)) ==>
          acc[i, t] == old(acc[i, t])
      {
        acc[r, s] := Fma(a[ar + r, ak], b[bk, bc + s], acc[r, s]);
      }
    }
  }

  /** One term of all twenty sums. */
  method Term(acc: array2<real>, a: array2<real>, ar: nat, ac: nat, b: array2<real>, br: nat, bc: nat, k: nat,
              ghost f0: View, ghost row: int, ghost col: int)
    requires acc.Length0 == RBM && acc.Length1 == RBN && acc != a && acc != b
    requires ar + RBM <= a.Length0 && ac + k < a.Length1 && br + k < b.Length0 && bc + RBN <= b.Length1
    requires Blocked(ViewOf(acc), f0, row, col, Window(ViewOf(a), ar, ac), Window(ViewOf(b), br, bc), k)
    modifies acc
    ensures Blocked(ViewOf(acc), f0, row, col, Window(ViewOf(a), ar, ac), Window(ViewOf(b), br, bc), k + 1)
  {
    hide Dot, ViewOf, Mul;
    ghost var wa, wb := Window(ViewOf(a), ar, ac), Window(ViewOf(b), br, bc);
    RankOne(acc, a, ar, ac + k, b, br + k, bc);
    forall r, s | 0 <= r < RBM && 0 <= s < RBN
      ensures ViewOf(acc)(r, s) == f0(row + r, col + s) + Dot(wa, wb, r, s, k + 1)
    {
      DotOne(wa, wb, r, s, k);
    }
  }

  /** The accumulators start as the block of c. */
  method LoadBlock(acc: array2<real>, c: array2<real>, cr: nat, cc: nat, ghost a: Window, ghost b: Window)
    requires acc.Length0 == RBM && acc.Length1 == RBN && acc != c
    requires cr + RBM <= c.Length0 && cc + RBN <= c.Length1
    modifies acc
    ensures Blocked(ViewOf(acc), ViewOf(c), cr, cc, a, b, 0)
  {
    hide Dot, ViewOf;
    DotNone(a, b);
    forall r, s | 0 <= r < RBM && 0 <= s < RBN {
      acc[r, s] := c[cr + r, cc + s];
    }
  }

  /** The accumulators go back into the block of c. */
  method StoreBlock(acc: array2<real>, c: array2<real>, cr: nat, cc: nat, ghost a: Window, ghost b: Window, ghost p: nat)
    requires acc.Length0 == RBM && acc.Length1 == RBN && acc != c
    requires cr + RBM <= c.Length0 && cc + RBN <= c.Length1
    requires Blocked(ViewOf(acc), ViewOf(c), cr, cc, a, b, p)
    modifies c
    ensures Accumulated(old(ViewOf(c)), ViewOf(c), cr, cc, a, b, RBM, RBN, p)
  {
    hide Dot, ViewOf, Blocked, Accumulated;
    ghost var f0 := ViewOf(c);
    forall r, s | 0 <= r < RBM && 0 <= s < RBN {
      c[cr + r, cc + s] := acc[r, s];
    }
    forall i, j
      ensures ViewOf(c)(i, j) == if cr <= i < cr + RBM && cc <= j < cc + RBN then ViewOf(acc)(i - cr, j - cc) else f0(i, j)
    {
      if cr <= i < cr + RBM && cc <= j < cc + RBN {
        assert c[cr + (i - cr), cc + (j - cc)] == acc[i - cr, j - cc];
      } else if 0 <= i < c.Length0 && 0 <= j < c.Length1 {
        assert c[i, j] == old(c[i, j]);
      }
    }
    BlockStored(f0, ViewOf(c), ViewOf(acc), cr, cc, a, b, p);
  }

  lemma BlockStored(f0: View, f1: View, acc: View, cr: int, cc: int, a: Window, b: Window, p: nat)
    requires Blocked(acc, f0, cr, cc, a, b, p)
    requires forall i, j ::
      f1(i, j) == if cr <= i < cr + RBM && cc <= j < cc + RBN then acc(i - cr, j - cc) else f0(i, j)
    ensures Accumulated(f0, f1, cr, cc, a, b, RBM, RBN, p)
  {
    hide Dot, Blocked;
    forall i, j
      ensures f1(i, j) == f0(i, j) +
        (if cr <= i < cr + RBM && cc <= j < cc + RBN then Dot(a, b, i - cr, j - cc, p) else 0.0)
    {
      if cr <= i < cr + RBM && cc <= j < cc + RBN { BlockedAt(acc, f0, cr, cc, a, b, p, i, j); }
    }
  }

  lemma BlockedAt(acc: View, f0: View, cr: int, cc: int, a: Window, b: Window, p: nat, i: int, j: int)
    requires Blocked(acc, f0, cr, cc, a, b, p) && cr <= i < cr + RBM && cc <= j < cc + RBN
    ensures acc(i - cr, j - cc) == f0(i, j) + Dot(a, b, i - cr, j - cc, p)
  {
    hide Dot;
    var r, s := i - cr, j - cc;
    assert acc(r, s) == f0(cr + r, cc + s) + Dot(a, b, r, s, p);
  }

  /** `kloop`: the register block, six terms per turn and then one at a time. */
  method KLoop(p: nat, a: array2<real>, ar: nat, ac: nat, b: array2<real>, br: nat, bc: nat, c: array2<real>, cr: nat, cc: nat)
    requires InBounds(RBM, RBN, p, a, ar, ac, b, br, bc, c, cr, cc)
    modifies c
    ensures Accumulated(old(ViewOf(c)), ViewOf(c), cr, cc, Window(ViewOf(a), ar, ac), Window(ViewOf(b), br, bc), RBM, RBN, p)
  {
    hide Dot, ViewOf, Accumulated, Blocked;
    ghost var wa, wb, f0 := Window(ViewOf(a), ar, ac), Window(ViewOf(b), br, bc), ViewOf(c);
    var acc := new real[RBM, RBN];
    LoadBlock(acc, c, cr, cc, wa, wb);
    var k := 0;
    while k < p / RBK * RBK
      invariant k <= p / RBK * RBK && k % RBK == 0
      invariant ViewOf(a) == wa.f && ViewOf(b) == wb.f && ViewOf(c) == f0
      invariant Blocked(ViewOf(acc), f0, cr, cc, wa, wb, k)
    {
      Term(acc, a, ar, ac, b, br, bc, k, f0, cr, cc);
      Term(acc, a, ar, ac, b, br, bc, k + 1, f0, cr, cc);
      Term(acc, a, ar, ac, b, br, bc, k + 2, f0, cr, cc);
      Term(acc, a, ar, ac, b, br, bc, k + 3, f0, cr, cc);
      Term(acc, a, ar, ac, b, br, bc, k + 4, f0, cr, cc);
      Term(acc, a, ar, ac, b, br, bc, k + 5, f0, cr, cc);
      k := k + RBK;
    }
    while k < p
      invariant k <= p
      invariant ViewOf(a) == wa.f && ViewOf(b) == wb.f && ViewOf(c) == f0
      invariant Blocked(ViewOf(acc), f0, cr, cc, wa, wb, k)
    {
      Term(acc, a, ar, ac, b, br, bc, k, f0, cr, cc);
      k := k + 1;
    }
    StoreBlock(acc, c, cr, cc, wa, wb, p);
  }

  // ----- mm_rb

  lemma NextMultiple(x: nat, top: nat, d: nat)
    requires d > 0 && x % d == 0 && top % d == 0 && x < top
    ensures x + d <= top && (x + d) % d == 0
  {
    var q, t := x / d, top / d;
    Euclid(d, x);
    Euclid(d, top);
    if t <= q { MulMono(t, q, d); }
    MulMono(q + 1, t, d);
    DivModUnique(d, x + d, q + 1, 0);
  }

  /** The inner loop of `mm_rb` for one strip of four rows, and the edge strip beside it. */
  method StripRb(n: nat, nb: nat, p: nat, a: array2<real>, ar: nat, ac: nat, b: array2<real>, br: nat, bc: nat,
                 c: array2<real>, cr: nat, cc: nat)
    requires InBounds(RBM, n, p, a, ar, ac, b, br, bc, c, cr, cc) && nb == n / RBN * RBN
    modifies c
    ensures Accumulated(old(ViewOf(c)), ViewOf(c), cr, cc, Window(ViewOf(a), ar, ac), Window(ViewOf(b), br, bc), RBM, n, p)
  {
    hide Dot, ViewOf, Accumulated;
    ghost var wa, wb, f0 := Window(ViewOf(a), ar, ac), Window(ViewOf(b), br, bc), ViewOf(c);
    NothingAccumulated(f0, f0, cr, cc, wa, wb, RBM, 0, p);
    var j := 0;
    while j < nb
      invariant 0 <= j <= nb && j % RBN == 0
      invariant ViewOf(a) == wa.f && ViewOf(b) == wb.f
      invariant Accumulated(f0, ViewOf(c), cr, cc, wa, wb, RBM, j, p)
    {
      ghost var f := ViewOf(c);
      NextMultiple(j, nb, RBN);
      KLoop(p, a, ar, ac, b, br, bc + j, c, cr, cc + j);
      AddColumns(f0, f, ViewOf(c), cr, cc, wa, wb, RBM, j, RBN, p);
      j := j + RBN;
    }
    ghost var f := ViewOf(c);
    MmNaive(RBM, n - nb, p, a, ar, ac, b, br, bc + nb, c, cr, cc + nb);
    AddColumns(f0, f, ViewOf(c), cr, cc, wa, wb, RBM, nb, n - nb, p);
  }

  /** `mm_rb`: register blocks with naive strips at the right and the bottom. */
  method MmRb(m: nat, n: nat, p: nat, a: array2<real>, ar: nat, ac: nat, b: array2<real>, br: nat, bc: nat,
              c: array2<real>, cr: nat, cc: nat)
    requires InBounds(m, n, p, a, ar, ac, b, br, bc, c, cr, cc)
    modifies c
    ensures Accumulated(old(ViewOf(c)), ViewOf(c), cr, cc, Window(ViewOf(a), ar, ac), Window(ViewOf(b), br, bc), m, n, p)
  {
    hide Dot, ViewOf, Accumulated;
    ghost var wa, wb, f0 := Window(ViewOf(a), ar, ac), Window(ViewOf(b), br, bc), ViewOf(c);
    var mb, nb := m / RBM * RBM, n / RBN * RBN;
    NothingAccumulated(f0, f0, cr, cc, wa, wb, 0, n, p);
    var i := 0;
    while i < mb
      invariant 0 <= i <= mb && i % RBM == 0
      invariant ViewOf(a) == wa.f && ViewOf(b) == wb.f
      invariant Accumulated(f0, ViewOf(c), cr, cc, wa, wb, i, n, p)
    {
      ghost var f := ViewOf(c);
      NextMultiple(i, mb, RBM);
      StripRb(n, nb, p, a, ar + i, ac, b, br, bc, c, cr + i, cc);
      AddRows(f0, f, ViewOf(c), cr, cc, wa, wb, i, RBM, n, p);
      i := i + RBM;
    }
    ghost var f := ViewOf(c);
    MmNaive(m - mb, n, p, a, ar + mb, ac, b, br, bc, c, cr + mb, cc);
    AddRows(f0, f, ViewOf(c), cr, cc, wa, wb, mb, m - mb, n, p);
  }

  // ----- repack

  /** f1 is f0 with the m x n window at (row, col) replaced by src. */
  ghost predicate Copied(f0: View, f1: View, row: int, col: int, src: Window, m: int, n: int) {
    forall i, j :: f1(i, j) ==
      if row <= i < row + m && col <= j < col + n then src.At(i - row, j - col) else f0(i, j)
  }

  /** Eight elements: all loads before all stores. */
  method RepackEight(a: array2<real>, i: nat, j: nat, a0: array2<real>, i0: nat, j0: nat)
    requires a != a0 && i < a.Length0 && j + 8 <= a.Length1 && i0 < a0.Length0 && j0 + 8 <= a0.Length1
    modifies a
    ensures forall r, k :: 0 <= r < a.Length0 && 0 <= k < a.Length1 ==>
      a[r, k] == if r == i && j <= k < j + 8 then a0[i0, j0 + (k - j)] else old(a[r, k])
  {
    var t0, t1, t2, t3 := a0[i0, j0], a0[i0, j0 + 1], a0[i0, j0 + 2], a0[i0, j0 + 3];
    var t4, t5, t6, t7 := a0[i0, j0 + 4], a0[i0, j0 + 5], a0[i0, j0 + 6], a0[i0, j0 + 7];
    a[i, j] := t0;
    a[i, j + 1] := t1;
    a[i, j + 2] := t2;
    a[i, j + 3] := t3;
    a[i, j + 4] := t4;
    a[i, j + 5] := t5;
    a[i, j + 6] := t6;
    a[i, j + 7] := t7;
  }

  method RepackRow(a: array2<real>, ar: nat, ac: nat, a0: array2<real>, r0: nat, c0: nat, p: nat)
    requires a != a0 && ar < a.Length0 && ac + p <= a.Length1 && r0 < a0.Length0 && c0 + p <= a0.Length1
    modifies a
    ensures Copied(old(ViewOf(a)), ViewOf(a), ar, ac, Window(ViewOf(a0), r0, c0), 1, p)
  {
    hide ViewOf, Copied;
    ghost var f0, src := ViewOf(a), Window(ViewOf(a0), r0, c0);
    var j := 0;
    while j < p / 8 * 8
      invariant j <= p / 8 * 8 && j % 8 == 0
      invariant forall i, k :: 0 <= i < a.Length0 && 0 <= k < a.Length1 ==>
        a[i, k] == if i == ar && ac <= k < ac + j then a0[r0, c0 + (k - ac)] else old(a[i, k])
    {
      RepackEight(a, ar, ac + j, a0, r0, c0 + j);
      j := j + 8;
    }
    while j < p
      invariant j <= p
      invariant forall i, k :: 0 <= i < a.Length0 && 0 <= k < a.Length1 ==>
        a[i, k] == if i == ar && ac <= k < ac + j then a0[r0, c0 + (k - ac)] else old(a[i, k])
    {
      a[ar, ac + j] := a0[r0, c0 + j];
      j := j + 1;
    }
    CopiedRow(f0, ViewOf(a), ar, ac, src, p);
  }

  lemma CopiedRow(f0: View, f1: View, row: int, col: int, src: Window, n: int)
    requires forall i, j :: f1(i, j) == if i == row && col <= j < col + n then src.At(0, j - col) else f0(i, j)
    ensures Copied(f0, f1, row, col, src, 1, n)
  {
  }

  /** `repack`: copies an m x p window from one buffer to another. */
  method Repack(a: array2<real>, ar: nat, ac: nat, a0: array2<real>, r0: nat, c0: nat, m: nat, p: nat)
    requires a != a0 && ar + m <= a.Length0 && ac + p <= a.Length1 && r0 + m <= a0.Length0 && c0 + p <= a0.Length1
    modifies a
    ensures Copied(old(ViewOf(a)), ViewOf(a), ar, ac, Window(ViewOf(a0), r0, c0), m, p)
  {
    hide ViewOf, Copied;
    ghost var f0, src := ViewOf(a), Window(ViewOf(a0), r0, c0);
    CopiedNothing(f0, ar, ac, src, p);
    for i := 0 to m
      invariant ViewOf(a0) == src.f && Copied(f0, ViewOf(a), ar, ac, src, i, p)
    {
      ghost var f := ViewOf(a);
      RepackRow(a, ar + i, ac, a0, r0 + i, c0, p);
      CopiedNextRow(f0, f, ViewOf(a), ar, ac, src, i, p);
    }
  }

  lemma CopiedNothing(f0: View, row: int, col: int, src: Window, n: int)
    ensures Copied(f0, f0, row, col, src, 0, n)
  {
  }

  lemma CopiedNextRow(f0: View, f1: View, f2: View, row: int, col: int, src: Window, m: int, n: int)
    requires 0 <= m && Copied(f0, f1, row, col, src, m, n)
    requires Copied(f1, f2, row + m, col, src.Shift(m, 0), 1, n)
    ensures Copied(f0, f2, row, col, src, m + 1, n)
  {
  }

  // ----- packed blocks

  /** The number of block (i, k) in a packed buffer of nk blocks per block row. */
  function Index(nk: nat, i: nat, k: nat): (x: nat)
    ensures x == nk * i + k
  {
    nk * i + k
  }

  lemma IndexInjective(nk: nat, i: nat, k: nat, i': nat, k': nat)
    requires k < nk && k' < nk && Index(nk, i, k) == Index(nk, i', k')
    ensures i == i' && k == k'
  {
    DivModUnique(nk, nk * i + k, i, k);
    DivModUnique(nk, nk * i' + k', i', k');
  }

  lemma IndexInRange(nk: nat, ni: nat, i: nat, k: nat)
    requires k < nk && i < ni
    ensures Index(nk, i, k) < nk * ni
  {
    MulMono(i + 1, ni, nk);
  }

  /** Two windows agree on their first m rows and n columns. */
  ghost predicate Agree(x: Window, y: Window, m: nat, n: nat) {
    forall i, j :: 0 <= i < m && 0 <= j < n ==> x.At(i, j) == y.At(i, j)
  }

  /** Block x of a packed buffer, of bm rows and bn columns, holds src from (row, col) on. */
  ghost predicate BlockIs(f: View, x: nat, bm: nat, bn: nat, src: View, row: int, col: int) {
    Agree(Window(f, x * bm, 0), Window(src, row, col), bm, bn)
  }

  lemma BlockKept(f: View, f': View, x: nat, y: nat, bm: nat, bn: nat, src: View, row: int, col: int)
    requires BlockIs(f, x, bm, bn, src, row, col) && x != y
    requires forall i, j :: !(y * bm <= i < y * bm + bm) ==> f'(i, j) == f(i, j)
    ensures BlockIs(f', x, bm, bn, src, row, col)
  {
    if x < y {
      MulMono(x + 1, y, bm);
      assert (x + 1) * bm == x * bm + bm;
    } else {
      MulMono(y + 1, x, bm);
      assert (y + 1) * bm == y * bm + bm;
    }
    forall i, j | 0 <= i < bm && 0 <= j < bn ensures Window(f', x * bm, 0).At(i, j) == Window(src, row, col).At(i, j) {
      assert Window(f, x * bm, 0).At(i, j) == Window(src, row, col).At(i, j);
    }
  }

  /** All blocks before block (i, k) of a window are packed. */
  ghost predicate PackedUpTo(f: View, nk: nat, bm: nat, bn: nat, src: View, row: int, col: int, i: nat, k: nat) {
    forall i': nat, k': nat :: k' < nk && (i' < i || (i' == i && k' < k)) ==>
      BlockIs(f, Index(nk, i', k'), bm, bn, src, row + i' * bm, col + k' * bn)
  }

  lemma PackedNext(f: View, f': View, nk: nat, bm: nat, bn: nat, src: View, row: int, col: int, i: nat, k: nat)
    requires PackedUpTo(f, nk, bm, bn, src, row, col, i, k) && k < nk
    requires Copied(f, f', Index(nk, i, k) * bm, 0, Window(src, row + i * bm, col + k * bn), bm, bn)
    ensures PackedUpTo(f', nk, bm, bn, src, row, col, i, k + 1)
  {
    hide Index;
    var y := Index(nk, i, k);
    forall i': nat, k': nat | k' < nk && (i' < i || (i' == i && k' < k + 1))
      ensures BlockIs(f', Index(nk, i', k'), bm, bn, src, row + i' * bm, col + k' * bn)
    {
      if i' == i && k' == k {
      } else {
        if Index(nk, i', k') == y { IndexInjective(nk, i', k', i, k); }
        BlockKept(f, f', Index(nk, i', k'), y, bm, bn, src, row + i' * bm, col + k' * bn);
      }
    }
  }

  lemma PackedRow(f: View, nk: nat, bm: nat, bn: nat, src: View, row: int, col: int, i: nat)
    requires PackedUpTo(f, nk, bm, bn, src, row, col, i, nk)
    ensures PackedUpTo(f, nk, bm, bn, src, row, col, i + 1, 0)
  {
  }

  /** Packing one block. */
  method PackOne(dst: array2<real>, ni: nat, nk: nat, bm: nat, bn: nat, src: array2<real>, row: nat, col: nat, i: nat, k: nat)
    requires dst != src && dst.Length0 == nk * ni * bm && dst.Length1 == bn && i < ni && k < nk
    requires row + ni * bm <= src.Length0 && col + nk * bn <= src.Length1
    requires PackedUpTo(ViewOf(dst), nk, bm, bn, ViewOf(src), row, col, i, k)
    modifies dst
    ensures PackedUpTo(ViewOf(dst), nk, bm, bn, ViewOf(src), row, col, i, k + 1)
  {
    hide ViewOf, PackedUpTo, Copied;
    ghost var f := ViewOf(dst);
    IndexInRange(nk, ni, i, k);
    var x := Index(nk, i, k);
    BlockFits(x, nk * ni, bm);
    BlockFits(i, ni, bm);
    BlockFits(k, nk, bn);
    Repack(dst, x * bm, 0, src, row + i * bm, col + k * bn, bm, bn);
    PackedNext(f, ViewOf(dst), nk, bm, bn, ViewOf(src), row, col, i, k);
  }

  lemma BlockFits(x: nat, n: nat, size: nat)
    requires x < n
    ensures 0 <= x * size && x * size + size <= n * size
  {
    MulMono(x + 1, n, size);
    assert (x + 1) * size == x * size + size;
  }

  /** The packing loops: blocks of bm x bn, row by row. */
  method Pack(dst: array2<real>, ni: nat, nk: nat, bm: nat, bn: nat, src: array2<real>, row: nat, col: nat)
    requires dst != src && dst.Length0 == nk * ni * bm && dst.Length1 == bn
    requires row + ni * bm <= src.Length0 && col + nk * bn <= src.Length1
    modifies dst
    ensures PackedUpTo(ViewOf(dst), nk, bm, bn, ViewOf(src), row, col, ni, 0)
  {
    hide ViewOf, PackedUpTo, Copied;
    ghost var s := ViewOf(src);
    PackedNone(ViewOf(dst), nk, bm, bn, s, row, col);
    for i := 0 to ni
      invariant ViewOf(src) == s && PackedUpTo(ViewOf(dst), nk, bm, bn, s, row, col, i, 0)
    {
      for k := 0 to nk
        invariant ViewOf(src) == s && PackedUpTo(ViewOf(dst), nk, bm, bn, s, row, col, i, k)
      {
        PackOne(dst, ni, nk, bm, bn, src, row, col, i, k);
      }
      PackedRow(ViewOf(dst), nk, bm, bn, s, row, col, i);
    }
  }

  lemma PackedNone(f: View, nk: nat, bm: nat, bn: nat, src: View, row: int, col: int)
    ensures PackedUpTo(f, nk, bm, bn, src, row, col, 0, 0)
  {
  }

  // ----- mm_cb

  const CBM := 24
  const CBN := 25
  const CBK := 24

  /** The contents of c when all is done. */
  ghost function Target(f0: View, cr: int, cc: int, a: Window, b: Window, p: nat): View {
    (i: int, j: int) => f0(i, j) + Dot(a, b, i - cr, j - cc, p)
  }

  /** Operands that agree on what is multiplied may stand for each other. */
  lemma AccumulatedCong(f0: View, f1: View, row: int, col: int, a: Window, b: Window, a': Window, b': Window, m: nat, n: nat, p: nat)
    requires Accumulated(f0, f1, row, col, a, b, m, n, p) && Agree(a, a', m, p) && Agree(b, b', p, n)
    ensures Accumulated(f0, f1, row, col, a', b', m, n, p)
  {
    forall i, j ensures f1(i, j) == f0(i, j) +
      (if row <= i < row + m && col <= j < col + n then Dot(a', b', i - row, j - col, p) else 0.0)
    {
      if row <= i < row + m && col <= j < col + n {
        DotCong(a, b, a', b', i - row, j - col, p);
      }
    }
  }

  lemma PackedBlock(f: View, nk: nat, bm: nat, bn: nat, src: View, row: int, col: int, ni: nat, i: nat, k: nat)
    requires PackedUpTo(f, nk, bm, bn, src, row, col, ni, 0) && i < ni && k < nk
    ensures Agree(Window(f, Index(nk, i, k) * bm, 0), Window(src, row, col).Shift(i * bm, k * bn), bm, bn)
  {
    assert BlockIs(f, Index(nk, i, k), bm, bn, src, row + i * bm, col + k * bn);
  }

  /** The buffers of `mm_cb` with their block counts: a1 and b1 are packed. */
  ghost predicate Packed(a1: array2<real>, b1: array2<real>, c1: array2<real>, nmb: nat, nnb: nat, npb: nat,
                         a: array2<real>, ar: int, ac: int, b: array2<real>, br: int, bc: int)
    reads a1, b1, a, b
  {
    && a1.Length0 == npb * nmb * CBM && a1.Length1 == CBK
    && b1.Length0 == nnb * npb * CBK && b1.Length1 == CBN
    && c1.Length0 == nnb * nmb * CBM && c1.Length1 == CBN
    && c1 != a && c1 != b && c1 != a1 && c1 != b1
    && PackedUpTo(ViewOf(a1), npb, CBM, CBK, ViewOf(a), ar, ac, nmb, 0)
    && PackedUpTo(ViewOf(b1), nnb, CBK, CBN, ViewOf(b), br, bc, npb, 0)
  }

  /** One packed product: block (i, k) of a1 times block (k, j) of b1 into block (i, j) of c1. */
  method BlockTerm(nmb: nat, nnb: nat, npb: nat, i: nat, j: nat, k: nat, a1: array2<real>, b1: array2<real>, c1: array2<real>,
                   ghost a: array2<real>, ghost ar: int, ghost ac: int, ghost b: array2<real>, ghost br: int, ghost bc: int)
    requires Packed(a1, b1, c1, nmb, nnb, npb, a, ar, ac, b, br, bc) && i < nmb && j < nnb && k < npb
    modifies c1
    ensures Accumulated(old(ViewOf(c1)), ViewOf(c1), Index(nnb, i, j) * CBM, 0,
      Window(ViewOf(a), ar, ac).Shift(i * CBM, k * CBK), Window(ViewOf(b), br, bc).Shift(k * CBK, j * CBN), CBM, CBN, CBK)
  {
    hide ViewOf, Accumulated, Agree, PackedUpTo;
    ghost var f0, fa, fb := ViewOf(c1), ViewOf(a1), ViewOf(b1);
    PackedBlock(fa, npb, CBM, CBK, ViewOf(a), ar, ac, nmb, i, k);
    PackedBlock(fb, nnb, CBK, CBN, ViewOf(b), br, bc, npb, k, j);
    IndexInRange(npb, nmb, i, k);
    IndexInRange(nnb, npb, k, j);
    IndexInRange(nnb, nmb, i, j);
    var x, y, z := Index(npb, i, k), Index(nnb, k, j), Index(nnb, i, j);
    BlockFits(x, npb * nmb, CBM);
    BlockFits(y, nnb * npb, CBK);
    BlockFits(z, nnb * nmb, CBM);
    MmRb(CBM, CBN, CBK, a1, x * CBM, 0, b1, y * CBK, 0, c1, z * CBM, 0);
    AccumulatedCong(f0, ViewOf(c1), z * CBM, 0, Window(fa, x * CBM, 0), Window(fb, y * CBK, 0),
      Window(ViewOf(a), ar, ac).Shift(i * CBM, k * CBK), Window(ViewOf(b), br, bc).Shift(k * CBK, j * CBN), CBM, CBN, CBK);
  }

  /** All terms of block (i, j): the packed ones, and the rest straight from a and b. */
  method BlockProduct(nmb: nat, nnb: nat, npb: nat, p: nat, i: nat, j: nat, a1: array2<real>, b1: array2<real>, c1: array2<real>,
                      a: array2<real>, ar: nat, ac: nat, b: array2<real>, br: nat, bc: nat)
    requires Packed(a1, b1, c1, nmb, nnb, npb, a, ar, ac, b, br, bc) && i < nmb && j < nnb && npb == p / CBK
    requires ar + nmb * CBM <= a.Length0 && ac + p <= a.Length1 && br + p <= b.Length0 && bc + nnb * CBN <= b.Length1
    modifies c1
    ensures Accumulated(old(ViewOf(c1)), ViewOf(c1), Index(nnb, i, j) * CBM, 0,
      Window(ViewOf(a), ar, ac).Shift(i * CBM, 0), Window(ViewOf(b), br, bc).Shift(0, j * CBN), CBM, CBN, p)
  {
    hide ViewOf, Accumulated, Agree, PackedUpTo, Dot;
    ghost var f0, wa, wb := ViewOf(c1), Window(ViewOf(a), ar, ac).Shift(i * CBM, 0), Window(ViewOf(b), br, bc).Shift(0, j * CBN);
    var row, pb := Index(nnb, i, j) * CBM, npb * CBK;
    IndexInRange(nnb, nmb, i, j);
    BlockFits(Index(nnb, i, j), nnb * nmb, CBM);
    BlockFits(i, nmb, CBM);
    BlockFits(j, nnb, CBN);
    NothingAccumulated(f0, f0, row, 0, wa, wb, CBM, CBN, 0);
    for k := 0 to npb
      invariant wa.f == ViewOf(a) && wb.f == ViewOf(b) && Packed(a1, b1, c1, nmb, nnb, npb, a, ar, ac, b, br, bc)
      invariant Accumulated(f0, ViewOf(c1), row, 0, wa, wb, CBM, CBN, k * CBK)
    {
      ghost var f := ViewOf(c1);
      BlockTerm(nmb, nnb, npb, i, j, k, a1, b1, c1, a, ar, ac, b, br, bc);
      AddTerms(f0, f, ViewOf(c1), row, 0, wa, wb, CBM, CBN, k * CBK, CBK);
    }
    if pb < p {
      ghost var f := ViewOf(c1);
      MmRb(CBM, CBN, p - pb, a, ar + i * CBM, ac + pb, b, br + pb, bc + j * CBN, c1, row, 0);
      AddTerms(f0, f, ViewOf(c1), row, 0, wa, wb, CBM, CBN, pb, p - pb);
    }
  }

  /** One register-blocked product per CBK terms, the last one shorter: the strips outside the
      packed part. */
  method EdgeProduct(m: nat, n: nat, p: nat, a: array2<real>, ar: nat, ac: nat, b: array2<real>, br: nat, bc: nat,
                     c: array2<real>, cr: nat, cc: nat)
    requires InBounds(m, n, p, a, ar, ac, b, br, bc, c, cr, cc)
    modifies c
    ensures Accumulated(old(ViewOf(c)), ViewOf(c), cr, cc, Window(ViewOf(a), ar, ac), Window(ViewOf(b), br, bc), m, n, p)
  {
    hide ViewOf, Accumulated, Dot;
    ghost var f0, wa, wb := ViewOf(c), Window(ViewOf(a), ar, ac), Window(ViewOf(b), br, bc);
    NothingAccumulated(f0, f0, cr, cc, wa, wb, m, n, 0);
    var k := 0;
    while k < p
      invariant 0 <= k && wa.f == ViewOf(a) && wb.f == ViewOf(b)
      invariant Accumulated(f0, ViewOf(c), cr, cc, wa, wb, m, n, if k < p then k else p)
    {
      ghost var f := ViewOf(c);
      var q := if p - k < CBK then p - k else CBK;
      MmRb(m, n, q, a, ar, ac + k, b, br + k, bc, c, cr, cc);
      AddTerms(f0, f, ViewOf(c), cr, cc, wa, wb, m, n, k, q);
      k := k + CBK;
    }
  }

  predicate Earlier(i: int, j: int, i': int, j': int) { i < i' || (i == i' && j < j') }

  /** The packed copy of c: blocks before (i, j) hold the final contents t, the others f0. */
  ghost predicate Blocks(h: View, nmb: nat, nnb: nat, f0: View, t: View, cr: int, cc: int, i: nat, j: nat) {
    forall i': nat, j': nat :: i' < nmb && j' < nnb ==>
      BlockIs(h, Index(nnb, i', j'), CBM, CBN, if Earlier(i', j', i, j) then t else f0, cr + i' * CBM, cc + j' * CBN)
  }

  lemma BlocksStart(h: View, nmb: nat, nnb: nat, f0: View, t: View, cr: int, cc: int)
    requires PackedUpTo(h, nnb, CBM, CBN, f0, cr, cc, nmb, 0)
    ensures Blocks(h, nmb, nnb, f0, t, cr, cc, 0, 0)
  {
  }

  lemma BlocksNextRow(h: View, nmb: nat, nnb: nat, f0: View, t: View, cr: int, cc: int, i: nat)
    requires Blocks(h, nmb, nnb, f0, t, cr, cc, i, nnb)
    ensures Blocks(h, nmb, nnb, f0, t, cr, cc, i + 1, 0)
  {
    forall i': nat, j': nat | i' < nmb && j' < nnb
      ensures BlockIs(h, Index(nnb, i', j'), CBM, CBN, if Earlier(i', j', i + 1, 0) then t else f0, cr + i' * CBM, cc + j' * CBN)
    {
      assert Earlier(i', j', i + 1, 0) <==> Earlier(i', j', i, nnb);
    }
  }

  lemma BlocksAdvance(h: View, h': View, nmb: nat, nnb: nat, f0: View, cr: int, cc: int, a: Window, b: Window, p: nat, i: nat, j: nat)
    requires i < nmb && j < nnb && Blocks(h, nmb, nnb, f0, Target(f0, cr, cc, a, b, p), cr, cc, i, j)
    requires Accumulated(h, h', Index(nnb, i, j) * CBM, 0, a.Shift(i * CBM, 0), b.Shift(0, j * CBN), CBM, CBN, p)
    ensures Blocks(h', nmb, nnb, f0, Target(f0, cr, cc, a, b, p), cr, cc, i, j + 1)
  {
    hide Target, Index, Dot;
    var t, y := Target(f0, cr, cc, a, b, p), Index(nnb, i, j);
    forall i': nat, j': nat | i' < nmb && j' < nnb
      ensures BlockIs(h', Index(nnb, i', j'), CBM, CBN, if Earlier(i', j', i, j + 1) then t else f0, cr + i' * CBM, cc + j' * CBN)
    {
      var src := if Earlier(i', j', i, j) then t else f0;
      assert BlockIs(h, Index(nnb, i', j'), CBM, CBN, src, cr + i' * CBM, cc + j' * CBN);
      if i' == i && j' == j {
        BlockFinished(h, h', y, f0, cr, cc, a, b, p, i, j);
      } else {
        if Index(nnb, i', j') == y { IndexInjective(nnb, i', j', i, j); }
        BlockKept(h, h', Index(nnb, i', j'), y, CBM, CBN, src, cr + i' * CBM, cc + j' * CBN);
        assert Earlier(i', j', i, j + 1) <==> Earlier(i', j', i, j);
      }
    }
  }

  lemma BlockFinished(h: View, h': View, y: nat, f0: View, cr: int, cc: int, a: Window, b: Window, p: nat, i: nat, j: nat)
    requires BlockIs(h, y, CBM, CBN, f0, cr + i * CBM, cc + j * CBN)
    requires Accumulated(h, h', y * CBM, 0, a.Shift(i * CBM, 0), b.Shift(0, j * CBN), CBM, CBN, p)
    ensures BlockIs(h', y, CBM, CBN, Target(f0, cr, cc, a, b, p), cr + i * CBM, cc + j * CBN)
  {
    var t := Target(f0, cr, cc, a, b, p);
    var w, w', v, v' := Window(h, y * CBM, 0), Window(h', y * CBM, 0), Window(f0, cr + i * CBM, cc + j * CBN), Window(t, cr + i * CBM, cc + j * CBN);
    forall r, s | 0 <= r < CBM && 0 <= s < CBN ensures w'.At(r, s) == v'.At(r, s) {
      assert w.At(r, s) == v.At(r, s);
      assert a.Shift(i * CBM, 0).Shift(0, 0) == a.Shift(i * CBM, 0);
      DotShift(a, b, r, s, p, i * CBM, j * CBN);
      assert h'(y * CBM + r, s) == h(y * CBM + r, s) + Dot(a.Shift(i * CBM, 0), b.Shift(0, j * CBN), r, s, p);
    }
  }

  /** The main loops over the packed part, and the strip of c to its right. */
  method MainLoops(nmb: nat, nnb: nat, npb: nat, n: nat, p: nat, a1: array2<real>, b1: array2<real>, c1: array2<real>,
                   a: array2<real>, ar: nat, ac: nat, b: array2<real>, br: nat, bc: nat, c: array2<real>, cr: nat, cc: nat)
    requires Packed(a1, b1, c1, nmb, nnb, npb, a, ar, ac, b, br, bc) && c != c1 && c != a1 && c != b1
    requires InBounds(nmb * CBM, n, p, a, ar, ac, b, br, bc, c, cr, cc) && nnb == n / CBN && npb == p / CBK
    requires PackedUpTo(ViewOf(c1), nnb, CBM, CBN, ViewOf(c), cr, cc, nmb, 0)
    modifies c, c1
    ensures var t := Target(old(ViewOf(c)), cr, cc, Window(ViewOf(a), ar, ac), Window(ViewOf(b), br, bc), p);
      PackedUpTo(ViewOf(c1), nnb, CBM, CBN, t, cr, cc, nmb, 0)
    ensures Accumulated(old(ViewOf(c)), ViewOf(c), cr, cc + nnb * CBN, Window(ViewOf(a), ar, ac),
      Window(ViewOf(b), br, bc).Shift(0, nnb * CBN), nmb * CBM, n - nnb * CBN, p)
  {
    hide ViewOf, Accumulated, Dot, Target, Blocks, PackedUpTo;
    ghost var f0, wa, wb := ViewOf(c), Window(ViewOf(a), ar, ac), Window(ViewOf(b), br, bc);
    var nb := nnb * CBN;
    ghost var t, wr := Target(f0, cr, cc, wa, wb, p), wb.Shift(0, nb);
    BlocksStart(ViewOf(c1), nmb, nnb, f0, t, cr, cc);
    NothingAccumulated(f0, f0, cr, cc + nb, wa, wr, 0, n - nb, p);
    for i := 0 to nmb
      invariant wa.f == ViewOf(a) && wb.f == ViewOf(b) && Packed(a1, b1, c1, nmb, nnb, npb, a, ar, ac, b, br, bc)
      invariant Blocks(ViewOf(c1), nmb, nnb, f0, t, cr, cc, i, 0)
      invariant Accumulated(f0, ViewOf(c), cr, cc + nb, wa, wr, i * CBM, n - nb, p)
    {
      for j := 0 to nnb
        invariant wa.f == ViewOf(a) && wb.f == ViewOf(b) && Packed(a1, b1, c1, nmb, nnb, npb, a, ar, ac, b, br, bc)
        invariant Blocks(ViewOf(c1), nmb, nnb, f0, t, cr, cc, i, j)
        invariant Accumulated(f0, ViewOf(c), cr, cc + nb, wa, wr, i * CBM, n - nb, p)
      {
        ghost var h := ViewOf(c1);
        BlockProduct(nmb, nnb, npb, p, i, j, a1, b1, c1, a, ar, ac, b, br, bc);
        BlocksAdvance(h, ViewOf(c1), nmb, nnb, f0, cr, cc, wa, wb, p, i, j);
      }
      BlocksNextRow(ViewOf(c1), nmb, nnb, f0, t, cr, cc, i);
      ghost var f := ViewOf(c);
      if nb < n {
        EdgeProduct(CBM, n - nb, p, a, ar + i * CBM, ac, b, br, bc + nb, c, cr + i * CBM, cc + nb);
      } else {
        NothingAccumulated(f, f, cr + i * CBM, cc + nb, wa.Shift(i * CBM, 0), wr, CBM, n - nb, p);
      }
      AddRows(f0, f, ViewOf(c), cr, cc + nb, wa, wr, i * CBM, CBM, n - nb, p);
    }
    BlocksEnd(ViewOf(c1), nmb, nnb, f0, t, cr, cc);
  }

  lemma BlocksEnd(h: View, nmb: nat, nnb: nat, f0: View, t: View, cr: int, cc: int)
    requires Blocks(h, nmb, nnb, f0, t, cr, cc, nmb, 0)
    ensures PackedUpTo(h, nnb, CBM, CBN, t, cr, cc, nmb, 0)
  {
    forall i': nat, k': nat | k' < nnb && i' < nmb
      ensures BlockIs(h, Index(nnb, i', k'), CBM, CBN, t, cr + i' * CBM, cc + k' * CBN)
    {
      assert Earlier(i', k', nmb, 0);
    }
  }

  /** The strip of c below the packed part. */
  method BottomStrip(m: nat, n: nat, p: nat, a: array2<real>, ar: nat, ac: nat, b: array2<real>, br: nat, bc: nat,
                     c: array2<real>, cr: nat, cc: nat)
    requires InBounds(m, n, p, a, ar, ac, b, br, bc, c, cr, cc)
    modifies c
    ensures Accumulated(old(ViewOf(c)), ViewOf(c), cr, cc, Window(ViewOf(a), ar, ac), Window(ViewOf(b), br, bc), m, n, p)
  {
    hide ViewOf, Accumulated, Dot;
    ghost var f0, wa, wb := ViewOf(c), Window(ViewOf(a), ar, ac), Window(ViewOf(b), br, bc);
    NothingAccumulated(f0, f0, cr, cc, wa, wb, m, 0, p);
    var j := 0;
    while j < n
      invariant 0 <= j && wa.f == ViewOf(a) && wb.f == ViewOf(b)
      invariant Accumulated(f0, ViewOf(c), cr, cc, wa, wb, m, if j < n then j else n, p)
    {
      ghost var f := ViewOf(c);
      var q := if n - j < CBN then n - j else CBN;
      EdgeProduct(m, q, p, a, ar, ac, b, br, bc + j, c, cr, cc + j);
      AddColumns(f0, f, ViewOf(c), cr, cc, wa, wb, m, j, q, p);
      j := j + CBN;
    }
  }

  /** f' is f with the blocks before (i, j) of the packed part replaced by t. */
  ghost predicate Unpacked(f: View, f': View, t: View, cr: int, cc: int, nnb: nat, i: nat, j: nat) {
    forall r, s :: f'(r, s) ==
      if (cr <= r < cr + i * CBM && cc <= s < cc + nnb * CBN) || (cr + i * CBM <= r < cr + i * CBM + CBM && cc <= s < cc + j * CBN)
      then t(r, s) else f(r, s)
  }

  lemma UnpackedNext(f: View, f': View, f'': View, t: View, cr: int, cc: int, nnb: nat, i: nat, j: nat, h: View, x: nat)
    requires Unpacked(f, f', t, cr, cc, nnb, i, j) && BlockIs(h, x, CBM, CBN, t, cr + i * CBM, cc + j * CBN)
    requires Copied(f', f'', cr + i * CBM, cc + j * CBN, Window(h, x * CBM, 0), CBM, CBN)
    ensures Unpacked(f, f'', t, cr, cc, nnb, i, j + 1)
  {
    hide Unpacked;
    var row, col := cr + i * CBM, cc + j * CBN;
    forall r, s ensures f''(r, s) == if row <= r < row + CBM && col <= s < col + CBN then t(r, s) else f'(r, s) {
      if row <= r < row + CBM && col <= s < col + CBN {
        assert Window(h, x * CBM, 0).At(r - row, s - col) == Window(t, row, col).At(r - row, s - col);
      }
    }
    BlockReplaced(f, f', f'', t, cr, cc, nnb, i, j);
  }

  lemma BlockReplaced(f: View, f': View, f'': View, t: View, cr: int, cc: int, nnb: nat, i: nat, j: nat)
    requires Unpacked(f, f', t, cr, cc, nnb, i, j)
    requires var row, col := cr + i * CBM, cc + j * CBN; forall r, s ::
      f''(r, s) == if row <= r < row + CBM && col <= s < col + CBN then t(r, s) else f'(r, s)
    ensures Unpacked(f, f'', t, cr, cc, nnb, i, j + 1)
  {
  }

  lemma UnpackedNextRow(f: View, f': View, t: View, cr: int, cc: int, nnb: nat, i: nat)
    requires Unpacked(f, f', t, cr, cc, nnb, i, nnb)
    ensures Unpacked(f, f', t, cr, cc, nnb, i + 1, 0)
  {
  }

  /** The last loops: the packed blocks of c1 go back into c. */
  method Unpack(nmb: nat, nnb: nat, c1: array2<real>, c: array2<real>, cr: nat, cc: nat, ghost t: View)
    requires c != c1 && c1.Length0 == nnb * nmb * CBM && c1.Length1 == CBN
    requires cr + nmb * CBM <= c.Length0 && cc + nnb * CBN <= c.Length1
    requires PackedUpTo(ViewOf(c1), nnb, CBM, CBN, t, cr, cc, nmb, 0)
    modifies c
    ensures Unpacked(old(ViewOf(c)), ViewOf(c), t, cr, cc, nnb, nmb, 0)
  {
    hide ViewOf, Unpacked, Copied, PackedUpTo;
    ghost var f0, h := ViewOf(c), ViewOf(c1);
    UnpackedNone(f0, t, cr, cc, nnb);
    for i := 0 to nmb
      invariant ViewOf(c1) == h && Unpacked(f0, ViewOf(c), t, cr, cc, nnb, i, 0)
    {
      for j := 0 to nnb
        invariant ViewOf(c1) == h && Unpacked(f0, ViewOf(c), t, cr, cc, nnb, i, j)
      {
        ghost var f := ViewOf(c);
        var x := Index(nnb, i, j);
        IndexInRange(nnb, nmb, i, j);
        BlockFits(x, nnb * nmb, CBM);
        BlockFits(i, nmb, CBM);
        BlockFits(j, nnb, CBN);
        Repack(c, cr + i * CBM, cc + j * CBN, c1, x * CBM, 0, CBM, CBN);
        PackedAt(h, nnb, t, cr, cc, nmb, i, j);
        UnpackedNext(f0, f, ViewOf(c), t, cr, cc, nnb, i, j, h, x);
      }
      UnpackedNextRow(f0, ViewOf(c), t, cr, cc, nnb, i);
    }
  }

  lemma UnpackedNone(f: View, t: View, cr: int, cc: int, nnb: nat)
    ensures Unpacked(f, f, t, cr, cc, nnb, 0, 0)
  {
  }

  lemma PackedAt(h: View, nnb: nat, t: View, cr: int, cc: int, nmb: nat, i: nat, j: nat)
    requires PackedUpTo(h, nnb, CBM, CBN, t, cr, cc, nmb, 0) && i < nmb && j < nnb
    ensures BlockIs(h, Index(nnb, i, j), CBM, CBN, t, cr + i * CBM, cc + j * CBN)
  {
  }

  /** Packed part, right strip and bottom strip together make up the whole window. */
  lemma PartsMakeWhole(f0: View, f1: View, f2: View, f3: View, cr: int, cc: int, a: Window, b: Window,
                       m: nat, n: nat, p: nat, nmb: nat, nnb: nat)
    requires nmb * CBM <= m && nnb * CBN <= n
    requires Accumulated(f0, f1, cr, cc + nnb * CBN, a, b.Shift(0, nnb * CBN), nmb * CBM, n - nnb * CBN, p)
    requires Accumulated(f1, f2, cr + nmb * CBM, cc, a.Shift(nmb * CBM, 0), b, m - nmb * CBM, n, p)
    requires Unpacked(f2, f3, Target(f0, cr, cc, a, b, p), cr, cc, nnb, nmb, 0)
    ensures Accumulated(f0, f3, cr, cc, a, b, m, n, p)
  {
    hide Dot;
    var mb, nb := nmb * CBM, nnb * CBN;
    forall i, j ensures f3(i, j) == f0(i, j) +
      (if cr <= i < cr + m && cc <= j < cc + n then Dot(a, b, i - cr, j - cc, p) else 0.0)
    {
      assert a.Shift(0, 0) == a && b.Shift(0, 0) == b;
      DotShift(a, b, i - cr, j - (cc + nb), p, 0, nb);
      DotShift(a, b, i - (cr + mb), j - cc, p, mb, 0);
      assert f2(i, j) == f1(i, j) +
        (if cr + mb <= i < cr + mb + (m - mb) && cc <= j < cc + n then Dot(a.Shift(mb, 0), b, i - (cr + mb), j - cc, p) else 0.0);
      assert f1(i, j) == f0(i, j) +
        (if cr <= i < cr + mb && cc + nb <= j < cc + nb + (n - nb) then Dot(a, b.Shift(0, nb), i - cr, j - (cc + nb), p) else 0.0);
    }
  }

  /** `mm_cb`: the cache-blocked product through packed copies. */
  method MmCb(m: nat, n: nat, p: nat, a: array2<real>, ar: nat, ac: nat, b: array2<real>, br: nat, bc: nat,
              c: array2<real>, cr: nat, cc: nat)
    requires InBounds(m, n, p, a, ar, ac, b, br, bc, c, cr, cc)
    modifies c
    ensures Accumulated(old(ViewOf(c)), ViewOf(c), cr, cc, Window(ViewOf(a), ar, ac), Window(ViewOf(b), br, bc), m, n, p)
  {
    hide ViewOf, Accumulated, Dot, Target, PackedUpTo, Unpacked;
    var nmb, nnb, npb := m / CBM, n / CBN, p / CBK;
    var mb := nmb * CBM;
    ghost var f0, wa, wb := ViewOf(c), Window(ViewOf(a), ar, ac), Window(ViewOf(b), br, bc);
    var a1 := new real[npb * nmb * CBM, CBK];
    var b1 := new real[nnb * npb * CBK, CBN];
    var c1 := new real[nnb * nmb * CBM, CBN];
    Pack(a1, nmb, npb, CBM, CBK, a, ar, ac);
    Pack(b1, npb, nnb, CBK, CBN, b, br, bc);
    Pack(c1, nmb, nnb, CBM, CBN, c, cr, cc);
    assert ViewOf(a) == wa.f && ViewOf(b) == wb.f && ViewOf(c) == f0;
    MainLoops(nmb, nnb, npb, n, p, a1, b1, c1, a, ar, ac, b, br, bc, c, cr, cc);
    ghost var f1 := ViewOf(c);
    if mb < m {
      BottomStrip(m - mb, n, p, a, ar + mb, ac, b, br, bc, c, cr + mb, cc);
    } else {
      NothingAccumulated(f1, f1, cr + mb, cc, wa.Shift(mb, 0), wb, m - mb, n, p);
    }
    ghost var f2 := ViewOf(c);
    Unpack(nmb, nnb, c1, c, cr, cc, Target(f0, cr, cc, wa, wb, p));
    PartsMakeWhole(f0, f1, f2, ViewOf(c), cr, cc, wa, wb, m, n, p, nmb, nnb);
  }

  /** `mm`: adds the m x n product of a and b, over p terms, to the window of c, on either
      path, and changes nothing else. */
  method Mm(m: nat, n: nat, p: nat, a: array2<real>, ar: nat, ac: nat, b: array2<real>, br: nat, bc: nat,
            c: array2<real>, cr: nat, cc: nat)
    requires InBounds(m, n, p, a, ar, ac, b, br, bc, c, cr, cc)
    modifies c
    ensures Accumulated(old(ViewOf(c)), ViewOf(c), cr, cc, Window(ViewOf(a), ar, ac), Window(ViewOf(b), br, bc), m, n, p)
    ensures Unit(Window(ViewOf(b), br, bc), p, n) && n <= p ==>
      forall i, j :: cr <= i < cr + m && cc <= j < cc + n ==> c[i, j] == old(c[i, j]) + a[ar + (i - cr), ac + (j - cc)]
    ensures Unit(Window(ViewOf(a), ar, ac), m, p) && m <= p ==>
      forall i, j :: cr <= i < cr + m && cc <= j < cc + n ==> c[i, j] == old(c[i, j]) + b[br + (i - cr), bc + (j - cc)]
    ensures Zero(Window(ViewOf(a), ar, ac), m, p) || Zero(Window(ViewOf(b), br, bc), p, n) ==>
      forall i, j :: 0 <= i < c.Length0 && 0 <= j < c.Length1 ==> c[i, j] == old(c[i, j])
  {
    hide Accumulated, Unit, Zero;
    ghost var f0 := ViewOf(c);
    if m <= 2 * CBM && n <= 2 * CBN && p <= 2 * CBK {
      MmRb(m, n, p, a, ar, ac, b, br, bc, c, cr, cc);
    } else {
      MmCb(m, n, p, a, ar, ac, b, br, bc, c, cr, cc);
    }
    UnitAccumulates(f0, ViewOf(c), cr, cc, Window(ViewOf(a), ar, ac), Window(ViewOf(b), br, bc), m, n, p);
  }
}
