/** The cooperative matrix product of `mt/ae_matmul.c`: n cores transpose B into a shared
    buffer, one barrier per column, then multiply with a barrier per block of four elements.
    Row-major buffers of stride lda are sequences of rows. Element addition and
    multiplication are arbitrary, so nothing below depends on how they round. */
module MatMul {
  import opened Arith
  import opened Barrier

  type Matrix = seq<seq<real>>

  ghost predicate Square(m: Matrix, n: nat) {
    |m| == n && forall r :: 0 <= r < n ==> |m[r]| == n
  }

  datatype Config = Config(n: nat, lda: nat, a: Matrix, b: Matrix,
                           zero: real, add: (real, real) -> real, mul: (real, real) -> real) {
    ghost predicate Valid() {
      && n >= 1 && lda % 8 == 0 && lda <= 32  // lda * lda elements fit `BB[1024]`
      && Square(a, lda) && Square(b, lda)
    }

    /** Rows per core. */
    function Width(): nat
      requires n >= 1
    {
      lda / n
    }

    function First(t: nat): nat
      requires n >= 1
    {
      t * Width()
    }

    /** The rows that core t transposes and computes. */
    ghost predicate InStrip(t: nat, r: nat)
      requires n >= 1
    {
      First(t) <= r < First(t) + Width()
    }

    /** Rows below this bound belong to some core: all of them when n divides lda. */
    function Covered(): nat
      requires n >= 1
    {
      n * Width()
    }

    /** Element (j, i) of A * B, summed over the first k terms in ascending order. */
    ghost function Dot(j: nat, i: nat, k: nat): real
      requires Valid() && j < lda && i < lda && k <= lda
    {
      if k == 0 then zero else add(Dot(j, i, k - 1), mul(a[j][k - 1], b[k - 1][i]))
    }
  }

  /** Element arithmetic without rounding. */
  ghost predicate Exact(c: Config) {
    c.zero == 0.0 && (forall x, y :: c.add(x, y) == x + y) && (forall x, y :: c.mul(x, y) == x * y)
  }

  /** Without rounding, row j of A against the p-th unit column is element p of the row, once that
      term is summed. */
  lemma {:induction false} DotUnit(c: Config, j: nat, i: nat, p: nat, k: nat)
    requires c.Valid() && Exact(c) && j < c.lda && i < c.lda && p < c.lda && k <= c.lda
    requires forall r :: 0 <= r < c.lda ==> c.b[r][i] == if r == p then 1.0 else 0.0
    ensures c.Dot(j, i, k) == if p < k then c.a[j][p] else 0.0
  {
    if k > 0 {
      DotUnit(c, j, i, p, k - 1);
      var y := c.a[j][k - 1];
      assert c.mul(y, c.b[k - 1][i]) == y * c.b[k - 1][i];
      assert c.b[k - 1][i] == if k - 1 == p then 1.0 else 0.0;
    }
  }

  /** Without rounding, the elements of A * B are linear in the columns of B. */
  lemma {:induction false} DotLinear(c: Config, b1: Matrix, b2: Matrix, x: real, j: nat, i: nat, k: nat)
    requires c.Valid() && Exact(c) && Square(b1, c.lda) && Square(b2, c.lda) && j < c.lda && i < c.lda && k <= c.lda
    requires forall r :: 0 <= r < c.lda ==> c.b[r][i] == x * b1[r][i] + b2[r][i]
    ensures c.Dot(j, i, k) == x * c.(b := b1).Dot(j, i, k) + c.(b := b2).Dot(j, i, k)
  {
    if k > 0 {
      DotLinear(c, b1, b2, x, j, i, k - 1);
      Regrouped(c.a[j][k - 1], x, b1[k - 1][i], b2[k - 1][i], c.(b := b1).Dot(j, i, k - 1));
    }
  }

  lemma Regrouped(a: real, x: real, b1: real, b2: real, d: real)
    ensures a * (x * b1 + b2) == x * (a * b1) + a * b2 && x * (d + a * b1) == x * d + x * (a * b1)
  {
  }

  /** Where a core stands in `matmul`: the loop variables, the next of the 32 multiply-adds of the
      unrolled body, the four accumulators, and how many of the four results are stored. */
  datatype Local =
    | Transpose(k: nat, i: nat)
    | Product(i: nat, j: nat, k: nat, e: nat, acc: seq<real>, stored: nat)
    | Returned

  datatype State = State(bar: Barrier.State, locals: seq<Local>, bb: Matrix, out: Matrix) {
    ghost predicate Running(t: nat)
      requires t < |bar.threads|
    {
      bar.threads[t].pc == Outside
    }
  }

  ghost predicate LocalFits(c: Config, t: nat, l: Local)
    requires c.Valid()
  {
    match l
    case Transpose(k, i) => k < c.lda && c.First(t) <= i <= c.First(t) + c.Width()
    case Product(i, j, k, e, acc, stored) =>
      && i < c.lda && i % 4 == 0 && k <= c.lda && k % 8 == 0 && |acc| == 4 && c.InStrip(t, j)
      && e < 32 && stored <= 4 && (if k == c.lda then e == 0 else stored == 0)
    case Returned => true
  }

  ghost predicate WellFormed(c: Config, s: State) {
    && c.Valid()
    && |s.bar.threads| == |s.locals| == c.n
    && Square(s.bb, c.lda) && Square(s.out, c.lda)
    && forall t :: 0 <= t < c.n ==> LocalFits(c, t, s.locals[t])
  }

  function Zeros(c: Config): seq<real> { [c.zero, c.zero, c.zero, c.zero] }

  function Init(c: Config, bb: Matrix, out: Matrix): State
    requires c.n >= 1
  {
    State.State(Barrier.Init(c.n),
                seq(c.n, t requires 0 <= t < c.n => if c.lda > 0 then Transpose(0, c.First(t)) else Returned),
                bb, out)
  }

  /** The loop headers, run when a barrier call returns. */
  function Advance(c: Config, t: nat, l: Local): Local
    requires c.n >= 1
  {
    match l
    case Transpose(k, _) =>
      if k + 1 < c.lda then Transpose(k + 1, c.First(t))
      else if c.Width() > 0 then Product(0, c.First(t), 0, 0, Zeros(c), 0)
      else Returned
    case Product(i, j, _, _, _, _) =>
      if j + 1 < c.First(t) + c.Width() then Product(i, j + 1, 0, 0, Zeros(c), 0)
      else if i + 4 < c.lda then Product(i + 4, c.First(t), 0, 0, Zeros(c), 0)
      else Returned
    case Returned => Returned
  }

  lemma AdvanceFits(c: Config, t: nat, l: Local)
    requires c.Valid() && t < c.n && LocalFits(c, t, l)
    ensures LocalFits(c, t, Advance(c, t, l))
  {
    hide Config.First, Config.Width;
  }

  function CallBarrier(c: Config, s: State, t: nat): (r: State)
    requires WellFormed(c, s) && t < c.n
    ensures WellFormed(c, r)
  {
    AdvanceFits(c, t, s.locals[t]);
    var bar := Barrier.Step(s.bar, t);
    if bar.threads[t].done == s.bar.threads[t].done then s.(bar := bar)
    else s.(bar := bar, locals := s.locals[t := Advance(c, t, s.locals[t])])
  }

  lemma StripInRange(c: Config, t: nat, r: nat)
    requires c.Valid() && t < c.n && r < c.First(t) + c.Width()
    ensures r < c.Covered() <= c.lda
  {
    var w := c.Width();
    MulMono(t + 1, c.n, w);
    Euclid(c.n, c.lda);
    hide Config.Width;
    assert c.First(t) + w == (t + 1) * w;
  }

  function TransposeStep(c: Config, s: State, t: nat): (r: State)
    requires WellFormed(c, s) && t < c.n && s.locals[t].Transpose?
    ensures WellFormed(c, r)
  {
    var l := s.locals[t];
    if l.i < c.First(t) + c.Width() then
      StripInRange(c, t, l.i);
      s.(bb := s.bb[l.i := s.bb[l.i][l.k := c.b[l.k][l.i]]], locals := s.locals[t := Transpose(l.k, l.i + 1)])
    else CallBarrier(c, s, t)
  }

  lemma TurnInRange(c: Config, t: nat, l: Local)
    requires c.Valid() && LocalFits(c, t, l) && l.Product?
    ensures l.i + 4 <= c.lda && (l.k < c.lda ==> l.k + 8 <= c.lda && (l.k + 8) % 8 == 0)
  {
    hide Config.First, Config.Width;
  }

  /** The accumulator and the term of the next multiply-add: eight terms for the first
      accumulator, then eight for the second, and so on. */
  function Row(l: Local): (r: nat)
    requires l.Product? && l.e < 32
    ensures r < 4
  {
    l.e / 8
  }

  function Column(l: Local): (x: nat)
    requires l.Product?
    ensures l.k <= x < l.k + 8
  {
    l.k + l.e % 8
  }

  /** One multiply-add. */
  function Multiply(c: Config, t: nat, l: Local, bb: Matrix): (r: Local)
    requires c.Valid() && Square(bb, c.lda) && l.Product? && LocalFits(c, t, l) && l.k < c.lda && l.j < c.lda
    ensures LocalFits(c, t, r) && r.Product? && r.i == l.i && r.j == l.j && r.stored == l.stored
  {
    hide Config.First, Config.Width;
    TurnInRange(c, t, l);
    var acc := l.acc[Row(l) := c.add(l.acc[Row(l)], c.mul(c.a[l.j][Column(l)], bb[l.i + Row(l)][Column(l)]))];
    if l.e == 31 then l.(k := l.k + 8, e := 0, acc := acc) else l.(e := l.e + 1, acc := acc)
  }

  function ProductStep(c: Config, s: State, t: nat): (r: State)
    requires WellFormed(c, s) && t < c.n && s.locals[t].Product?
    ensures WellFormed(c, r)
  {
    hide Multiply;
    var l := s.locals[t];
    StripInRange(c, t, l.j);
    TurnInRange(c, t, l);
    if l.k < c.lda then
      s.(locals := s.locals[t := Multiply(c, t, l, s.bb)])
    else if l.stored < 4 then
      s.(out := s.out[l.j := s.out[l.j][l.i + l.stored := l.acc[l.stored]]], locals := s.locals[t := l.(stored := l.stored + 1)])
    else CallBarrier(c, s, t)
  }

  function Step(c: Config, s: State, t: nat): (r: State)
    requires WellFormed(c, s) && t < c.n
    ensures WellFormed(c, r)
  {
    if s.bar.threads[t].pc != Outside then CallBarrier(c, s, t)
    else match s.locals[t]
      case Transpose(_, _) => TransposeStep(c, s, t)
      case Product(_, _, _, _, _, _) => ProductStep(c, s, t)
      case Returned => s
  }

  // ----- shared elements touched by the next step: (row, column) pairs

  ghost function BufferReads(c: Config, s: State, t: nat): iset<(nat, nat)>
    requires WellFormed(c, s) && t < c.n
  {
    var l := s.locals[t];
    if s.Running(t) && l.Product? && l.k < c.lda then iset{(l.i + Row(l), Column(l))} else iset{}
  }

  ghost function BufferWrites(c: Config, s: State, t: nat): iset<(nat, nat)>
    requires WellFormed(c, s) && t < c.n
  {
    var l := s.locals[t];
    if s.Running(t) && l.Transpose? && l.i < c.First(t) + c.Width() then iset{(l.i, l.k)} else iset{}
  }

  ghost function OutWrites(c: Config, s: State, t: nat): iset<(nat, nat)>
    requires WellFormed(c, s) && t < c.n
  {
    var l := s.locals[t];
    if s.Running(t) && l.Product? && l.k == c.lda && l.stored < 4 then iset{(l.j, l.i + l.stored)} else iset{}
  }

  /** No element of the buffer or of the result is about to be written by one core while
      another is about to read or write it. */
  ghost predicate RaceFree(c: Config, s: State)
    requires WellFormed(c, s)
  {
    forall t, u {:trigger BufferWrites(c, s, t), BufferReads(c, s, u)} :: 0 <= t < c.n && 0 <= u < c.n && t != u ==>
      && BufferWrites(c, s, t) !! (BufferReads(c, s, u) + BufferWrites(c, s, u))
      && OutWrites(c, s, t) !! OutWrites(c, s, u)
  }

  // ----- the invariant

  /** Barrier calls a core has made when it stands at l. */
  function CallsMade(c: Config, t: nat, l: Local): int
    requires c.n >= 1
  {
    match l
    case Transpose(k, _) => k
    case Product(i, j, _, _, _, _) => c.lda + (i / 4) * c.Width() + (j - c.First(t))
    case Returned => AllCalls(c)
  }

  /** The number of calls each core makes in all. */
  function AllCalls(c: Config): nat
    requires c.n >= 1
  {
    c.lda + (c.lda / 4) * c.Width()
  }

  ghost predicate TurnOver(c: Config, t: nat, l: Local)
    requires c.n >= 1
  {
    match l
    case Transpose(_, i) => i == c.First(t) + c.Width()
    case Product(_, _, k, _, _, stored) => k == c.lda && stored == 4
    case Returned => false
  }

  ghost predicate Calls(c: Config, s: State, t: nat)
    requires WellFormed(c, s) && t < c.n
  {
    && s.bar.threads[t].done == CallsMade(c, t, s.locals[t])
    && (s.bar.threads[t].pc != Outside ==> TurnOver(c, t, s.locals[t]))
  }

  /** Core t has transposed element (r, k) of the buffer. */
  ghost predicate Transposed(l: Local, r: nat, k: nat) {
    match l
    case Transpose(k0, i) => k < k0 || (k == k0 && r < i)
    case _ => true
  }

  ghost predicate Buffer(c: Config, s: State, t: nat, r: nat)
    requires WellFormed(c, s) && t < c.n && r < c.lda
  {
    forall k :: 0 <= k < c.lda && Transposed(s.locals[t], r, k) ==> s.bb[r][k] == c.b[k][r]
  }

  /** How many terms accumulator r has summed. */
  function Terms(l: Local, r: nat): (n: nat)
    requires l.Product? && l.e < 32 && r < 4
    ensures l.k <= n <= l.k + 8
  {
    l.k + if l.e <= 8 * r then 0 else if l.e >= 8 * r + 8 then 8 else l.e - 8 * r
  }

  /** The accumulators of rows of the buffer that some core fills. */
  ghost predicate Accumulators(c: Config, l: Local)
    requires c.Valid() && (l.Product? ==> AccumulatorsFit(c, l))
  {
    l.Product? ==>
      forall r: nat :: r < 4 && l.i + r < c.Covered() && l.i + r < c.lda ==> Accumulated(c, l, r)
  }

  ghost predicate AccumulatorsFit(c: Config, l: Local) {
    l.Product? && l.j < c.lda && |l.acc| == 4 && l.e < 32 && (if l.k < c.lda then l.k + 8 <= c.lda else l.k == c.lda && l.e == 0)
  }

  ghost predicate Accumulated(c: Config, l: Local, r: nat)
    requires c.Valid() && AccumulatorsFit(c, l) && r < 4 && l.i + r < c.lda
  {
    l.acc[r] == c.Dot(l.j, l.i + r, Terms(l, r))
  }

  ghost predicate Stored(l: Local, j: nat, i: nat) {
    match l
    case Transpose(_, _) => false
    case Product(i0, j0, _, _, _, stored) => i < i0 || (i < i0 + 4 && (j < j0 || (j == j0 && i < i0 + stored)))
    case Returned => true
  }

  ghost predicate Out(c: Config, s: State, t: nat, j: nat)
    requires WellFormed(c, s) && t < c.n && j < c.lda
  {
    forall i :: 0 <= i < c.Covered() && i < c.lda && Stored(s.locals[t], j, i) ==>
      s.out[j][i] == c.Dot(j, i, c.lda)
  }

  ghost predicate CoreInv(c: Config, s: State, t: nat)
    requires WellFormed(c, s) && t < c.n
  {
    && Calls(c, s, t)
    && (s.locals[t].Product? ==> AccumulatorsFit(c, s.locals[t]))
    && Accumulators(c, s.locals[t])
    && forall r: nat :: r < c.lda && c.InStrip(t, r) ==> Buffer(c, s, t, r) && Out(c, s, t, r)
  }

  ghost predicate Inv(c: Config, s: State) {
    && WellFormed(c, s)
    && Barrier.Inv(s.bar)
    && forall t :: 0 <= t < c.n ==> CoreInv(c, s, t)
  }

  lemma InitInv(c: Config, bb: Matrix, out: Matrix)
    requires c.Valid() && Square(bb, c.lda) && Square(out, c.lda)
    ensures Inv(c, Init(c, bb, out))
  {
    InitInPhase(c.n);
  }

  lemma StripsDisjoint(c: Config, t: nat, u: nat, r: nat)
    requires c.Valid() && t != u && c.InStrip(t, r)
    ensures !c.InStrip(u, r)
  {
    if t < u { StripOrder(t, u, c.Width()); } else { StripOrder(u, t, c.Width()); }
  }

  lemma StripOrder(t: nat, u: nat, w: nat)
    requires t < u
    ensures t * w + w <= u * w
  {
    MulSucc(t, w);
    MulMono(t + 1, u, w);
  }

  lemma AdvanceCountsOne(c: Config, t: nat, l: Local)
    requires c.Valid() && t < c.n && LocalFits(c, t, l) && !l.Returned?
    ensures CallsMade(c, t, Advance(c, t, l)) == CallsMade(c, t, l) + 1
  {
    var w := c.Width();
    match l
    case Transpose(k, _) =>
      if w == 0 { assert (c.lda / 4) * w == 0; }
    case Product(i, j, _, _, _, _) =>
      assert (i / 4 + 1) * w == (i / 4) * w + w;
      if i + 4 >= c.lda { assert c.lda == i + 4; }
    case Returned =>
  }

  // ----- one lemma per kind of step

  /** The step of core t leaves core u as it is and changes nothing in u's strip. */
  ghost predicate Apart(c: Config, s: State, s': State, u: nat)
    requires WellFormed(c, s) && WellFormed(c, s') && u < c.n
  {
    && s'.bar.threads[u] == s.bar.threads[u] && s'.locals[u] == s.locals[u]
    && forall r: nat :: r < c.lda && c.InStrip(u, r) ==> s'.bb[r] == s.bb[r] && s'.out[r] == s.out[r]
  }

  lemma ApartKeepsCore(c: Config, s: State, s': State, u: nat)
    requires WellFormed(c, s) && WellFormed(c, s') && u < c.n
    requires CoreInv(c, s, u) && Apart(c, s, s', u)
    ensures CoreInv(c, s', u)
  {
    forall r: nat | r < c.lda && c.InStrip(u, r) ensures Buffer(c, s', u, r) && Out(c, s', u, r) {
      assert Buffer(c, s, u, r) && Out(c, s, u, r);
    }
  }

  /** Moving to the next turn of the loops adds no finished element. */
  lemma AdvanceFinishesNothing(c: Config, t: nat, l: Local, r: nat, x: nat)
    requires c.Valid() && t < c.n && LocalFits(c, t, l) && TurnOver(c, t, l)
    requires c.InStrip(t, r) && x < c.lda
    ensures Transposed(Advance(c, t, l), r, x) ==> Transposed(l, r, x)
    ensures Stored(Advance(c, t, l), r, x) ==> Stored(l, r, x)
  {
  }

  lemma EnteredAccumulators(c: Config, t: nat, l: Local)
    requires c.Valid() && t < c.n && LocalFits(c, t, l) && Advance(c, t, l).Product?
    ensures AccumulatorsFit(c, Advance(c, t, l)) ==> Accumulators(c, Advance(c, t, l))
  {
  }

  lemma CallKeepsCore(c: Config, s: State, t: nat)
    requires Inv(c, s) && t < c.n
    requires TurnOver(c, t, s.locals[t])
    ensures CoreInv(c, CallBarrier(c, s, t), t)
  {
    var s', l := CallBarrier(c, s, t), s.locals[t];
    var l' := s'.locals[t];
    assert CoreInv(c, s, t);
    AdvanceCountsOne(c, t, l);
    if l'.Product? {
      StripInRange(c, t, l'.j);
      if l' != l { EnteredAccumulators(c, t, l); }
    }
    forall r: nat | r < c.lda && c.InStrip(t, r) ensures Buffer(c, s', t, r) && Out(c, s', t, r) {
      assert Buffer(c, s, t, r) && Out(c, s, t, r);
      forall x: nat | x < c.lda
        ensures Transposed(l', r, x) ==> Transposed(l, r, x)
        ensures Stored(l', r, x) ==> Stored(l, r, x)
      {
        AdvanceFinishesNothing(c, t, l, r, x);
      }
    }
  }

  lemma TransposeKeepsCore(c: Config, s: State, t: nat)
    requires Inv(c, s) && t < c.n && s.Running(t) && s.locals[t].Transpose?
    requires s.locals[t].i < c.First(t) + c.Width()
    ensures CoreInv(c, Step(c, s, t), t)
  {
    var s', l := Step(c, s, t), s.locals[t];
    StripInRange(c, t, l.i);
    assert CoreInv(c, s, t);
    forall r: nat | r < c.lda && c.InStrip(t, r) ensures Buffer(c, s', t, r) && Out(c, s', t, r) {
      assert Buffer(c, s, t, r) && Out(c, s, t, r);
    }
  }

  /** A core that has arrived in its last transposing call has filled its rows. */
  lemma LateIsFilled(c: Config, u: nat, l: Local, th: Thread, r: nat)
    requires c.Valid() && u < c.n && LocalFits(c, u, l) && c.InStrip(u, r)
    requires th.done == CallsMade(c, u, l) && th.Arrived() >= c.lda && (th.pc != Outside ==> TurnOver(c, u, l))
    ensures forall k :: 0 <= k < c.lda ==> Transposed(l, r, k)
  {
  }

  /** When some core is multiplying, every filled row of the buffer is a full column of B. */
  lemma BufferComplete(c: Config, s: State, t: nat, r: nat)
    requires Inv(c, s) && t < c.n && s.Running(t) && s.locals[t].Product? && r < c.lda && r < c.Covered()
    ensures forall k :: 0 <= k < c.lda ==> s.bb[r][k] == c.b[k][r]
  {
    var u := OwnerOfRow(c, r);
    assert CoreInv(c, s, t) && CoreInv(c, s, u) && LocalFits(c, t, s.locals[t]) && LocalFits(c, u, s.locals[u]);
    NoReturnBeforeArrival(s.bar, t, u);
    hide Inv, Barrier.Inv, Accumulators, Out, Config.Width, Config.Covered, CallsMade, TurnOver, LocalFits, Transposed;
    assert Calls(c, s, t) && Calls(c, s, u);
    ProductIsLate(c, t, s.locals[t]);
    assert Buffer(c, s, u, r);
    LateIsFilled(c, u, s.locals[u], s.bar.threads[u], r);
  }

  lemma OwnerOfRow(c: Config, r: nat) returns (u: nat)
    requires c.Valid() && r < c.Covered()
    ensures u < c.n && c.InStrip(u, r)
  {
    var w := c.Width();
    if w == 0 { MulMono(0, 0, c.n); }
    u := r / w;
    Euclid(w, r);
    if u >= c.n { MulMono(c.n, u, w); }
  }

  lemma NoReturnBeforeArrival(s: Barrier.State, t: nat, u: nat)
    requires Barrier.Inv(s) && t < |s.threads| && u < |s.threads|
    ensures s.threads[t].done <= s.threads[u].Arrived()
  {
    InvSynchronised(s);
  }

  lemma ProductIsLate(c: Config, t: nat, l: Local)
    requires c.Valid() && LocalFits(c, t, l) && l.Product?
    ensures CallsMade(c, t, l) >= c.lda
  {
    assert (l.i / 4) * c.Width() >= 0;
  }

  lemma DotNext(c: Config, j: nat, r: nat, y: seq<real>, k: nat)
    requires c.Valid() && j < c.lda && r < c.lda && k < c.lda == |y|
    requires y[k] == c.b[k][r]
    ensures c.Dot(j, r, k + 1) == c.add(c.Dot(j, r, k), c.mul(c.a[j][k], y[k]))
  {
  }

  lemma FitsAccumulators(c: Config, t: nat, l: Local)
    requires c.Valid() && t < c.n && LocalFits(c, t, l) && l.Product?
    ensures AccumulatorsFit(c, l)
  {
    StripInRange(c, t, l.j);
    TurnInRange(c, t, l);
    hide Config.First, Config.Width;
  }

  /** A multiply-add is for the accumulator that is next, and adds the term that is next to it. */
  lemma NextTerm(l: Local, l': Local, r: nat)
    requires l.Product? && l'.Product? && l.e < 32 && r < 4
    requires if l.e == 31 then l'.k == l.k + 8 && l'.e == 0 else l'.k == l.k && l'.e == l.e + 1
    ensures Terms(l', r) == Terms(l, r) + if r == Row(l) then 1 else 0
    ensures r == Row(l) ==> Terms(l, r) == Column(l)
  {
  }

  /** Each multiply-add extends the dot product of its accumulator by exactly the next term, when
      the rows of the buffer are columns of B. */
  lemma MultiplyIsDot(c: Config, t: nat, l: Local, bb: Matrix)
    requires c.Valid() && t < c.n && Square(bb, c.lda) && l.Product? && LocalFits(c, t, l) && l.k < c.lda && l.j < c.lda
    requires AccumulatorsFit(c, l) && Accumulators(c, l)
    requires forall r: nat, k: nat :: r < c.Covered() && r < c.lda && k < c.lda ==> bb[r][k] == c.b[k][r]
    ensures AccumulatorsFit(c, Multiply(c, t, l, bb)) && Accumulators(c, Multiply(c, t, l, bb))
  {
    var l' := Multiply(c, t, l, bb);
    FitsAccumulators(c, t, l');
    forall r: nat | r < 4 && l'.i + r < c.Covered() && l'.i + r < c.lda ensures Accumulated(c, l', r) {
      assert Accumulated(c, l, r);
      NextTerm(l, l', r);
      if r == Row(l) {
        DotNext(c, l.j, l.i + r, bb[l.i + r], Column(l));
      }
    }
  }

  lemma MultiplyKeepsCore(c: Config, s: State, t: nat)
    requires Inv(c, s) && t < c.n && s.Running(t) && s.locals[t].Product? && s.locals[t].k < c.lda
    ensures CoreInv(c, Step(c, s, t), t)
  {
    var s', l := Step(c, s, t), s.locals[t];
    assert CoreInv(c, s, t) && LocalFits(c, t, l);
    hide Config.Dot, Config.Width, Config.Covered, Accumulators, Multiply, AccumulatorsFit;
    forall r: nat | r < c.Covered() && r < c.lda
      ensures forall k: nat :: k < c.lda ==> s.bb[r][k] == c.b[k][r]
    {
      BufferComplete(c, s, t, r);
    }
    StripInRange(c, t, l.j);
    MultiplyIsDot(c, t, l, s.bb);
    assert s' == s.(locals := s.locals[t := Multiply(c, t, l, s.bb)]);
    forall r: nat | r < c.lda && c.InStrip(t, r) ensures Buffer(c, s', t, r) && Out(c, s', t, r) {
      assert Buffer(c, s, t, r) && Out(c, s, t, r);
    }
  }

  lemma StoreKeepsAccumulators(c: Config, l: Local)
    requires c.Valid() && AccumulatorsFit(c, l) && Accumulators(c, l)
    ensures Accumulators(c, l.(stored := l.stored + 1))
  {
    hide Config.Dot;
    var l' := l.(stored := l.stored + 1);
    forall r: nat | r < 4 && l'.i + r < c.Covered() && l'.i + r < c.lda ensures Accumulated(c, l', r) {
      assert Accumulated(c, l, r);
    }
  }

  lemma StoreKeepsCore(c: Config, s: State, t: nat)
    requires Inv(c, s) && t < c.n && s.Running(t) && s.locals[t].Product?
    requires s.locals[t].k == c.lda && s.locals[t].stored < 4
    ensures CoreInv(c, Step(c, s, t), t)
  {
    var s', l := Step(c, s, t), s.locals[t];
    assert CoreInv(c, s, t);
    StoreKeepsAccumulators(c, l);
    forall r: nat | r < c.lda && c.InStrip(t, r) ensures Buffer(c, s', t, r) && Out(c, s', t, r) {
      assert Buffer(c, s, t, r) && Out(c, s, t, r);
      forall i: nat | i < c.Covered() && i < c.lda && Stored(s'.locals[t], r, i)
        ensures s'.out[r][i] == c.Dot(r, i, c.lda)
      {
        if r == l.j && i == l.i + l.stored {
          assert Accumulated(c, l, l.stored);
        }
      }
    }
  }

  lemma StepKeepsOthers(c: Config, s: State, t: nat, u: nat)
    requires Inv(c, s) && t < c.n && u < c.n && t != u
    ensures Apart(c, s, Step(c, s, t), u)
  {
    var l := s.locals[t];
    if l.Transpose? && c.InStrip(t, l.i) { StripsDisjoint(c, t, u, l.i); }
    if l.Product? { StripsDisjoint(c, t, u, l.j); }
  }

  lemma StepKeepsInv(c: Config, s: State, t: nat)
    requires Inv(c, s) && t < c.n
    ensures Inv(c, Step(c, s, t))
  {
    var l := s.locals[t];
    assert CoreInv(c, s, t);
    var g: nat :| InPhase(s.bar, g);
    StepKeepsPhase(s.bar, t, g);
    if s.bar.threads[t].pc != Outside || TurnOver(c, t, l) {
      CallKeepsCore(c, s, t);
    } else if l.Transpose? {
      TransposeKeepsCore(c, s, t);
    } else if l.Product? && l.k < c.lda {
      MultiplyKeepsCore(c, s, t);
    } else if l.Product? {
      StoreKeepsCore(c, s, t);
    }
    forall u | 0 <= u < c.n ensures CoreInv(c, Step(c, s, t), u) {
      if u != t {
        assert CoreInv(c, s, u);
        StepKeepsOthers(c, s, t, u);
        ApartKeepsCore(c, s, Step(c, s, t), u);
      }
    }
  }

  ghost function Run(c: Config, s: State, sched: Schedule): (r: State)
    requires WellFormed(c, s) && ScheduleOf(c.n, sched)
    ensures WellFormed(c, r)
    decreases |sched|
  {
    if sched == [] then s else Run(c, Step(c, s, sched[0]), sched[1..])
  }

  lemma {:induction false} RunKeepsInv(c: Config, s: State, sched: Schedule)
    requires Inv(c, s) && ScheduleOf(c.n, sched)
    ensures Inv(c, Run(c, s, sched))
    decreases |sched|
  {
    if sched != [] {
      StepKeepsInv(c, s, sched[0]);
      RunKeepsInv(c, Step(c, s, sched[0]), sched[1..]);
    }
  }

  // ----- what every interleaving guarantees

  lemma InvRaceFree(c: Config, s: State)
    requires Inv(c, s)
    ensures RaceFree(c, s)
  {
    forall t, u | 0 <= t < c.n && 0 <= u < c.n && t != u
      ensures BufferWrites(c, s, t) !! (BufferReads(c, s, u) + BufferWrites(c, s, u))
      ensures OutWrites(c, s, t) !! OutWrites(c, s, u)
    {
      var l, m := s.locals[t], s.locals[u];
      assert CoreInv(c, s, t) && CoreInv(c, s, u);
      if l.Transpose? && c.InStrip(t, l.i) { StripsDisjoint(c, t, u, l.i); }
      if l.Product? { StripsDisjoint(c, t, u, l.j); }
      if s.Running(t) && s.Running(u) {
        OutsideAgree(s.bar, t, u);
        assert Calls(c, s, t) && Calls(c, s, u);
        if m.Product? { ProductIsLate(c, u, m); }
      }
    }
  }

  /** No interleaving has a data race on the shared buffer or on the result. */
  lemma NoDataRace(c: Config, bb: Matrix, out: Matrix, sched: Schedule)
    requires c.Valid() && Square(bb, c.lda) && Square(out, c.lda) && ScheduleOf(c.n, sched)
    ensures RaceFree(c, Run(c, Init(c, bb, out), sched))
  {
    InitInv(c, bb, out);
    RunKeepsInv(c, Init(c, bb, out), sched);
    InvRaceFree(c, Run(c, Init(c, bb, out), sched));
  }

  lemma InvReads(c: Config, s: State, t: nat)
    requires Inv(c, s) && t < c.n
    ensures forall r, k :: (r, k) in BufferReads(c, s, t) && r < c.Covered() ==>
      k < c.lda && r < c.lda && s.bb[r][k] == c.b[k][r]
  {
    var l := s.locals[t];
    if s.Running(t) && l.Product? && l.k < c.lda {
      assert LocalFits(c, t, l);
      TurnInRange(c, t, l);
      hide Inv, LocalFits, Config.Covered, Config.Width;
      forall r: nat | r < c.Covered() && r < c.lda
        ensures forall k: nat :: k < c.lda ==> s.bb[r][k] == c.b[k][r]
      {
        BufferComplete(c, s, t, r);
      }
    }
  }

  /** In every interleaving a multiplying core reads only finished columns of B, whatever the
      buffer held before, provided some core owns the row (all rows, if n divides lda). */
  lemma ReadsOnlyTransposed(c: Config, bb: Matrix, out: Matrix, sched: Schedule, t: nat)
    requires c.Valid() && Square(bb, c.lda) && Square(out, c.lda) && ScheduleOf(c.n, sched) && t < c.n
    ensures var s := Run(c, Init(c, bb, out), sched);
      forall r, k :: (r, k) in BufferReads(c, s, t) && r < c.Covered() ==>
        k < c.lda && r < c.lda && s.bb[r][k] == c.b[k][r]
  {
    hide Config.Covered, Config.Width, BufferReads;
    InitInv(c, bb, out);
    RunKeepsInv(c, Init(c, bb, out), sched);
    InvReads(c, Run(c, Init(c, bb, out), sched), t);
  }

  ghost predicate AllReturned(c: Config, s: State) {
    forall t :: 0 <= t < |s.locals| ==> s.locals[t].Returned?
  }

  lemma ReturnedIsProduct(c: Config, s: State)
    requires Inv(c, s) && AllReturned(c, s)
    ensures forall t :: 0 <= t < c.n ==> s.bar.threads[t].done == AllCalls(c) && s.Running(t)
    ensures forall j, i :: 0 <= j < c.lda && 0 <= i < c.lda && j < c.Covered() && i < c.Covered() ==>
      s.out[j][i] == c.Dot(j, i, c.lda)
  {
    forall t | 0 <= t < c.n ensures s.bar.threads[t].done == AllCalls(c) && s.Running(t) {
      assert CoreInv(c, s, t);
    }
    forall j, i | 0 <= j < c.lda && 0 <= i < c.lda && j < c.Covered() && i < c.Covered()
      ensures s.out[j][i] == c.Dot(j, i, c.lda)
    {
      var u := OwnerOfRow(c, j);
      assert CoreInv(c, s, u) && Out(c, s, u, j);
    }
  }

  /** When all cores have returned, each has made the same number of barrier calls, and every
      element whose row and column belong to some core is the full dot product. */
  lemma ResultIsProduct(c: Config, bb: Matrix, out: Matrix, sched: Schedule)
    requires c.Valid() && Square(bb, c.lda) && Square(out, c.lda) && ScheduleOf(c.n, sched)
    requires AllReturned(c, Run(c, Init(c, bb, out), sched))
    ensures var s := Run(c, Init(c, bb, out), sched);
      && (forall t :: 0 <= t < c.n ==> s.bar.threads[t].done == AllCalls(c) && s.Running(t))
      && (forall j, i :: 0 <= j < c.lda && 0 <= i < c.lda && j < c.Covered() && i < c.Covered() ==>
            s.out[j][i] == c.Dot(j, i, c.lda))
  {
    InitInv(c, bb, out);
    RunKeepsInv(c, Init(c, bb, out), sched);
    ReturnedIsProduct(c, Run(c, Init(c, bb, out), sched));
  }

  /** The product is complete whenever n divides lda. */
  lemma CoveredIffDivides(c: Config)
    requires c.Valid()
    ensures c.Covered() == c.lda <==> c.lda % c.n == 0
  {
    assert c.lda == c.n * (c.lda / c.n) + c.lda % c.n;
  }
}
