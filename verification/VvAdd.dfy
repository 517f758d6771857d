/** `thread_entry` of the multi-threaded vector add: n threads run five barrier-separated
    phases over one shared result vector. The element type is `real` with an arbitrary
    addition `add`, so nothing below depends on how the addition rounds. */
module VvAdd {
  import opened Barrier
  import opened BarrierProgress
  import opened Checker
  import opened Arith

  datatype Option<T> = None | Some(value: T)

  /** Number of threads, the two inputs, the reference result, and the element addition. */
  datatype Config = Config(n: nat, x: seq<real>, y: seq<real>, want: seq<real>, add: (real, real) -> real) {
    ghost predicate Valid() {
      n >= 1 && |x| == |y| == |want|
    }

    function Size(): nat { |x| }

    /** The vector both rounds are meant to produce. */
    function Sums(): (s: seq<real>)
      requires Valid()
      ensures |s| == Size()
    {
      seq(Size(), c requires 0 <= c < Size() => add(x[c], y[c]))
    }
  }

  /** Loop index, the value loaded but not yet stored, and whether thread 0 has moved on from
      checking to copying. */
  datatype Local = Local(i: nat, reg: Option<real>, copying: bool)

  datatype State = State(bar: Barrier.State, locals: seq<Local>, mem: seq<real>, exit: Option<nat>) {
    function Phase(t: nat): nat
      requires t < |bar.threads|
    {
      bar.threads[t].done
    }

    ghost predicate Running(t: nat)
      requires t < |bar.threads|
    {
      exit.None? && bar.threads[t].pc == Outside
    }
  }

  ghost predicate WellFormed(c: Config, s: State) {
    && c.Valid()
    && |s.bar.threads| == |s.locals| == c.n
    && |s.mem| == c.Size()
    && forall t :: 0 <= t < c.n && s.locals[t].reg.Some? ==>
         s.locals[t].i + (if s.Phase(t) == 2 || s.Phase(t) == 4 then 1 else 0) < c.Size()
  }

  function Init(c: Config): State
    requires |c.x| == |c.y|
  {
    State.State(Barrier.Init(c.n), seq(c.n, _ => Local(0, None, false)), seq(|c.x|, _ => 0.0), None)
  }

  /** Loop variables on entering a phase: `vvadd` starts at its core number. */
  function Enter(phase: nat, t: nat): Local {
    Local(if phase == 1 || phase == 3 then t else 0, None, false)
  }

  // ----- one atomic step of a thread

  function CallBarrier(s: State, t: nat): State
    requires t < |s.bar.threads| == |s.locals|
  {
    var bar := Barrier.Step(s.bar, t);
    if bar.threads[t].done == s.Phase(t) then s.(bar := bar)
    else s.(bar := bar, locals := s.locals[t := Enter(bar.threads[t].done, t)])
  }

  /** The interleaved loop of `vvadd`, from the core number on in steps of n: a load step and a store step
      per iteration. */
  function VvAddStep(c: Config, s: State, t: nat, xs: seq<real>): (r: State)
    requires WellFormed(c, s) && t < c.n && |xs| == c.Size() && s.Phase(t) in {1, 3}
    ensures WellFormed(c, r)
  {
    var l := s.locals[t];
    match l.reg
    case None =>
      if l.i < c.Size() then s.(locals := s.locals[t := l.(reg := Some(c.add(xs[l.i], c.y[l.i])))])
      else CallBarrier(s, t)
    case Some(v) =>
      s.(mem := s.mem[l.i := v], locals := s.locals[t := l.(i := l.i + c.n, reg := None)])
  }

  predicate Checking(c: Config, l: Local) { !l.copying && l.i < c.Size() }

  /** The unrolled check of a pair, first element and then second, or of the odd last one. */
  function CheckStep(c: Config, s: State): (r: State)
    requires WellFormed(c, s) && Checking(c, s.locals[0]) && (s.Phase(0) == 2 || s.Phase(0) == 4)
    ensures WellFormed(c, r)
  {
    var i := s.locals[0].i;
    match s.locals[0].reg
    case None =>
      if i + 1 < c.Size() then s.(locals := s.locals[0 := Local(i, Some(s.mem[i]), false)])
      else if s.mem[i] != c.want[i] then s.(exit := Some(i + 1))
      else s.(locals := s.locals[0 := Local(i + 1, None, false)])
    case Some(v) =>
      if v != c.want[i] then s.(exit := Some(i + 1))
      else if s.mem[i + 1] != c.want[i + 1] then s.(exit := Some(i + 2))
      else s.(locals := s.locals[0 := Local(i + 2, None, false)])
  }

  function CopyStep(c: Config, s: State): (r: State)
    requires WellFormed(c, s)
    ensures WellFormed(c, r)
  {
    var l := s.locals[0];
    if !l.copying then s.(locals := s.locals[0 := Local(0, None, true)])
    else if l.i < c.Size() then s.(mem := s.mem[l.i := c.x[l.i]], locals := s.locals[0 := Local(l.i + 1, None, true)])
    else CallBarrier(s, 0)
  }

  function Work(c: Config, s: State, t: nat): (r: State)
    requires WellFormed(c, s) && t < c.n
    ensures WellFormed(c, r)
  {
    match s.Phase(t)
    case 0 => CallBarrier(s, t)
    case 1 => VvAddStep(c, s, t, c.x)
    case 2 =>
      if t != 0 then CallBarrier(s, t)
      else if Checking(c, s.locals[0]) then CheckStep(c, s)
      else CopyStep(c, s)
    case 3 => VvAddStep(c, s, t, s.mem)
    case 4 => if t == 0 && Checking(c, s.locals[0]) then CheckStep(c, s) else CallBarrier(s, t)
    case _ => s.(exit := Some(0))
  }

  function Step(c: Config, s: State, t: nat): (r: State)
    requires WellFormed(c, s) && t < c.n
    ensures WellFormed(c, r)
  {
    if s.exit.Some? then s
    else if s.bar.threads[t].pc == Outside then Work(c, s, t)
    else CallBarrier(s, t)
  }

  ghost function Run(c: Config, s: State, sched: Schedule): (r: State)
    requires WellFormed(c, s) && ScheduleOf(c.n, sched)
    ensures WellFormed(c, r)
    decreases |sched|
  {
    if sched == [] then s else Run(c, Step(c, s, sched[0]), sched[1..])
  }

  // ----- which elements the next step touches

  ghost function Reads(c: Config, s: State, t: nat): set<nat>
    requires WellFormed(c, s) && t < c.n
  {
    var l := s.locals[t];
    if !s.Running(t) then {}
    else if s.Phase(t) == 3 && l.reg.None? && l.i < c.Size() then {l.i}
    else if t == 0 && s.Phase(0) in {2, 4} && Checking(c, l) then
      if l.reg.None? then {l.i} else {l.i + 1}
    else {}
  }

  ghost function Writes(c: Config, s: State, t: nat): set<nat>
    requires WellFormed(c, s) && t < c.n
  {
    var l := s.locals[t];
    if !s.Running(t) then {}
    else if s.Phase(t) in {1, 3} && l.reg.Some? then {l.i}
    else if t == 0 && s.Phase(0) == 2 && l.copying && l.i < c.Size() then {l.i}
    else {}
  }

  /** The declared footprint is the true one: a step changes no other element. */
  lemma WritesAreAll(c: Config, s: State, t: nat, e: nat)
    requires WellFormed(c, s) && t < c.n && e < c.Size() && e !in Writes(c, s, t)
    ensures Step(c, s, t).mem[e] == s.mem[e]
  {
  }

  /** ... and apart from the elements it reads, memory has no influence on what it does. */
  lemma ReadsAreAll(c: Config, s: State, t: nat, mem: seq<real>)
    requires WellFormed(c, s) && t < c.n && |mem| == c.Size()
    requires forall e :: 0 <= e < c.Size() && e in Reads(c, s, t) ==> mem[e] == s.mem[e]
    ensures WellFormed(c, s.(mem := mem))
    ensures var r, r' := Step(c, s, t), Step(c, s.(mem := mem), t);
      && r'.(mem := r.mem) == r
      && forall e :: 0 <= e < c.Size() && e in Writes(c, s, t) ==> r'.mem[e] == r.mem[e]
  {
    var s', l := s.(mem := mem), s.locals[t];
    if s.Running(t) {
      if s.Phase(t) == 3 && l.reg.None? && l.i < c.Size() {
        assert l.i in Reads(c, s, t);
      } else if t == 0 && s.Phase(0) in {2, 4} && Checking(c, l) {
        assert (if l.reg.None? then l.i else l.i + 1) in Reads(c, s, t);
        assert CheckStep(c, s').(mem := s.mem) == CheckStep(c, s);
      }
    }
  }

  ghost predicate RaceFree(c: Config, s: State)
    requires WellFormed(c, s)
  {
    forall t, u {:trigger Writes(c, s, t), Reads(c, s, u)} :: 0 <= t < c.n && 0 <= u < c.n && t != u ==>
      Writes(c, s, t) !! (Reads(c, s, u) + Writes(c, s, u))
  }

  // ----- the invariant, phase by phase

  /** Thread t is done with element e in `vvadd` phase k. */
  ghost predicate Passed(s: State, t: nat, k: nat, e: nat)
    requires t < |s.bar.threads| == |s.locals|
  {
    s.Phase(t) == k && (s.bar.threads[t].pc == Outside ==> e < s.locals[t].i)
  }

  /** Element e of thread u holds the sum once u has passed it, and in round 2 x until then. */
  ghost predicate Element(c: Config, s: State, k: nat, u: nat, e: nat)
    requires WellFormed(c, s) && e < c.Size() && u < c.n
  {
    if Passed(s, u, k, e) then s.mem[e] == c.Sums()[e] else k == 3 ==> s.mem[e] == c.x[e]
  }

  function Owner(c: Config, e: nat): (u: nat)
    requires c.n >= 1
    ensures u < c.n
  {
    e % c.n
  }

  ghost predicate LoopLocal(c: Config, s: State, k: nat, t: nat)
    requires WellFormed(c, s) && t < c.n
  {
    var l := s.locals[t];
    s.Phase(t) == k && s.bar.threads[t].pc == Outside ==>
      Owner(c, l.i) == t && (l.reg.Some? ==> l.reg.value == c.Sums()[l.i])
  }

  ghost predicate LoopPhase(c: Config, s: State, k: nat)
    requires WellFormed(c, s)
  {
    && (forall t :: 0 <= t < c.n ==> LoopLocal(c, s, k, t))
    && (forall e :: 0 <= e < c.Size() ==> Element(c, s, k, Owner(c, e), e))
  }

  /** How far thread 0 has compared the sums with the reference vector. */
  ghost predicate Compared(c: Config, l: Local)
    requires c.Valid()
  {
    if l.copying then c.want == c.Sums()
    else l.i <= c.Size() && c.Sums()[..l.i] == c.want[..l.i] && (l.reg.Some? ==> l.i < c.Size() && l.reg.value == c.Sums()[l.i])
  }

  /** Between barriers 2 and 3 only thread 0 works: it checks the sums, then copies x over them. */
  ghost predicate CopyPhase(c: Config, s: State)
    requires WellFormed(c, s)
  {
    var l := s.locals[0];
    if s.Phase(0) < 2 then s.mem == c.Sums()
    else if s.bar.threads[0].pc != Outside then s.mem == c.x && c.want == c.Sums()
    else
      && Compared(c, l)
      && (if l.copying then l.i <= c.Size() && s.mem[..l.i] == c.x[..l.i] else s.mem == c.Sums())
  }

  ghost predicate CheckPhase(c: Config, s: State)
    requires WellFormed(c, s)
  {
    && s.mem == c.Sums() == c.want
    && (s.Phase(0) == 4 && s.bar.threads[0].pc == Outside ==> Compared(c, s.locals[0]))
  }

  ghost predicate Memory(c: Config, s: State, g: nat)
    requires WellFormed(c, s)
  {
    match g
    case 0 => true
    case 1 => LoopPhase(c, s, 1)
    case 2 => CopyPhase(c, s)
    case 3 => LoopPhase(c, s, 3) && c.want == c.Sums()
    case 4 => CheckPhase(c, s)
    case 5 =>
      && s.mem == c.Sums() == c.want
      && forall t :: 0 <= t < c.n && s.Phase(t) == 5 ==> s.bar.threads[t].pc == Outside
    case _ => false
  }

  ghost predicate Inv(c: Config, s: State, g: nat) {
    && WellFormed(c, s)
    && InPhase(s.bar, g)
    && (if s.exit.None? then Memory(c, s, g) else s.exit.value == VerifyCode(c.Sums(), c.want) && s.mem == c.Sums())
  }

  lemma InitInv(c: Config)
    requires c.Valid()
    ensures Inv(c, Init(c), 0)
  {
    InitInPhase(c.n);
  }

  /** Indices of one thread are n apart. */
  lemma NextOfSameThread(n: nat, i: nat, e: nat)
    requires n >= 1 && e % n == i % n && e < i + n
    ensures e <= i
  {
    var a, b := e / n, i / n;
    assert e == n * a + e % n && i == n * b + i % n;
    assert e - i == n * (a - b);
    if a > b {
      MulMono(1, a - b, n);
    } else {
      assert n * (b - a) >= 0;
    }
  }

  lemma StepOfSameThread(n: nat, i: nat)
    requires n >= 1
    ensures (i + n) % n == i % n
  {
    var q, r := i / n, i % n;
    assert i + n == n * (q + 1) + r;
    DivModUnique(n, i + n, q + 1, r);
  }

  // ----- one lemma per kind of step

  lemma CallSteps(c: Config, s: State, t: nat, g: nat)
    requires Inv(c, s, g) && t < c.n && s.exit.None?
    ensures var s' := CallBarrier(s, t);
      && s'.bar == Barrier.Step(s.bar, t) && s'.mem == s.mem && s'.exit == s.exit
      && InPhase(s'.bar, NextPhase(s.bar.threads[t], g))
      && WellFormed(c, s')
      && forall u :: 0 <= u < c.n && u != t ==>
           s'.bar.threads[u] == s.bar.threads[u] && s'.locals[u] == s.locals[u]
  {
    hide Memory, InPhase, VerifyCode;
    StepKeepsPhase(s.bar, t, g);
  }

  /** The last arrival publishes when all threads are done with the phase. */
  ghost predicate AtPublish(c: Config, s: State, t: nat, g: nat) {
    && Inv(c, s, g) && t < c.n && s.exit.None?
    && LeaderAt(s.bar, g, t) && s.bar.threads[t].pc == Publishing
  }

  lemma LoopPhaseEnds(c: Config, s: State, t: nat, g: nat)
    requires AtPublish(c, s, t, g) && (g == 1 || g == 3)
    ensures s.mem == c.Sums()
  {
    forall e | 0 <= e < c.Size() ensures s.mem[e] == c.Sums()[e] {
      var u := Owner(c, e);
      assert Element(c, s, g, u, e);
      assert s.Phase(u) == g && s.bar.threads[u].pc != Outside;
    }
  }

  lemma FirstOfThread(n: nat, e: nat)
    requires n >= 1
    ensures e >= e % n
  {
    assert e == n * (e / n) + e % n;
  }

  lemma OwnerOfFirst(c: Config, t: nat)
    requires t < c.n
    ensures Owner(c, t) == t
  {
  }

  lemma LoopPhaseBegins(c: Config, s: State, t: nat, g: nat)
    requires AtPublish(c, s, t, g) && (g == 0 || g == 2)
    requires WellFormed(c, CallBarrier(s, t))
    ensures LoopPhase(c, CallBarrier(s, t), g + 1)
  {
    var s' := CallBarrier(s, t);
    OwnerOfFirst(c, t);
    forall e: nat {:trigger Owner(c, e)} | e < c.Size() ensures Element(c, s', g + 1, Owner(c, e), e) {
      FirstOfThread(c.n, e);
    }
  }

  lemma PublishKeepsInv(c: Config, s: State, t: nat, g: nat)
    requires AtPublish(c, s, t, g)
    ensures Inv(c, CallBarrier(s, t), g + 1)
  {
    CallSteps(c, s, t, g);
    if g == 0 || g == 2 {
      LoopPhaseBegins(c, s, t, g);
    } else if g == 1 || g == 3 {
      LoopPhaseEnds(c, s, t, g);
    }
  }

  lemma WaitKeepsElement(c: Config, s: State, t: nat, g: nat, u: nat, e: nat)
    requires Inv(c, s, g) && t < c.n && s.exit.None? && (g == 1 || g == 3)
    requires s.bar.threads[t].pc in {Flipped, Resetting, Spinning}
    requires WellFormed(c, CallBarrier(s, t))
    requires u <= e < c.Size() && u < c.n && Element(c, s, g, u, e)
    ensures Element(c, CallBarrier(s, t), g, u, e)
  {
  }

  lemma WaitKeepsLocal(c: Config, s: State, t: nat, g: nat, u: nat)
    requires Inv(c, s, g) && t < c.n && s.exit.None? && (g == 1 || g == 3)
    requires s.bar.threads[t].pc in {Flipped, Resetting, Spinning}
    requires WellFormed(c, CallBarrier(s, t))
    requires u < c.n && LoopLocal(c, s, g, u)
    ensures LoopLocal(c, CallBarrier(s, t), g, u)
  {
    OwnerOfFirst(c, t);
    if u == t && CallBarrier(s, t).Phase(t) != s.Phase(t) {
      assert CallBarrier(s, t).locals[t] == Enter(CallBarrier(s, t).Phase(t), t);
    }
  }

  lemma WaitInLoopPhase(c: Config, s: State, t: nat, g: nat)
    requires Inv(c, s, g) && t < c.n && s.exit.None? && (g == 1 || g == 3)
    requires s.bar.threads[t].pc in {Flipped, Resetting, Spinning}
    requires WellFormed(c, CallBarrier(s, t))
    ensures LoopPhase(c, CallBarrier(s, t), g)
  {
    forall e: nat | e < c.Size() ensures Element(c, CallBarrier(s, t), g, Owner(c, e), e) {
      FirstOfThread(c.n, e);
      WaitKeepsElement(c, s, t, g, Owner(c, e), e);
    }
    forall u | 0 <= u < c.n ensures LoopLocal(c, CallBarrier(s, t), g, u) {
      WaitKeepsLocal(c, s, t, g, u);
    }
  }

  /** Inside a call nothing but the barrier moves; a released spinner enters phase g. */
  lemma WaitKeepsInv(c: Config, s: State, t: nat, g: nat)
    requires Inv(c, s, g) && t < c.n && s.exit.None?
    requires s.bar.threads[t].pc in {Flipped, Resetting, Spinning}
    ensures Inv(c, CallBarrier(s, t), g)
  {
    CallSteps(c, s, t, g);
    if g == 1 || g == 3 {
      WaitInLoopPhase(c, s, t, g);
    }
  }

  lemma OutsideInPhase(s: State, t: nat, g: nat)
    requires InPhase(s.bar, g) && t < |s.bar.threads| && s.bar.threads[t].pc == Outside
    ensures s.Phase(t) == g
  {
  }

  lemma LoopStepKeepsElement(c: Config, s: State, t: nat, g: nat, u: nat, e: nat)
    requires Inv(c, s, g) && t < c.n && s.Running(t) && (g == 1 || g == 3)
    requires e < c.Size() && u == Owner(c, e) && Element(c, s, g, u, e)
    requires LoopLocal(c, s, g, t) && s.Phase(t) == g
    ensures Element(c, Work(c, s, t), g, u, e)
  {
    var l := s.locals[t];
    if l.reg.Some? && u == t && e < l.i + c.n {
      NextOfSameThread(c.n, l.i, e);
    }
  }

  lemma LoopStepKeepsLocal(c: Config, s: State, t: nat, g: nat)
    requires Inv(c, s, g) && t < c.n && s.Running(t) && (g == 1 || g == 3)
    requires LoopLocal(c, s, g, t) && s.Phase(t) == g
    ensures LoopLocal(c, Work(c, s, t), g, t)
  {
    var l := s.locals[t];
    if l.i < c.Size() {
      assert Element(c, s, g, Owner(c, l.i), l.i);
    }
    StepOfSameThread(c.n, l.i);
  }

  lemma LoopStepKeepsInv(c: Config, s: State, t: nat, g: nat)
    requires Inv(c, s, g) && t < c.n && s.Running(t) && (g == 1 || g == 3)
    ensures Inv(c, Work(c, s, t), g)
  {
    var s' := Work(c, s, t);
    StepKeepsPhase(s.bar, t, g);
    assert LoopLocal(c, s, g, t);
    forall u | 0 <= u < c.n ensures LoopLocal(c, s', g, u) {
      if u == t { LoopStepKeepsLocal(c, s, t, g); } else { assert LoopLocal(c, s, g, u); }
    }
    forall e: nat | e < c.Size() ensures Element(c, s', g, Owner(c, e), e) {
      LoopStepKeepsElement(c, s, t, g, Owner(c, e), e);
    }
  }

  /** While thread 0 checks, the memory holds the sums and those behind its index agree. */
  lemma CheckingIs(c: Config, s: State, g: nat)
    requires Inv(c, s, g) && s.Running(0) && (g == 2 || g == 4) && Checking(c, s.locals[0])
    ensures var l := s.locals[0];
      && s.exit.None? && s.Phase(0) == g && s.mem == c.Sums() && c.Sums()[..l.i] == c.want[..l.i]
      && (l.reg.Some? ==> l.reg.value == c.Sums()[l.i])
  {
    assert ThreadInPhase(s.bar.threads[0], g);
  }

  lemma CheckStepKeepsInv(c: Config, s: State, g: nat)
    requires Inv(c, s, g) && s.Running(0) && (g == 2 || g == 4) && Checking(c, s.locals[0])
    ensures Inv(c, CheckStep(c, s), g)
  {
    CheckingIs(c, s, g);
    hide InPhase;
    var s', i := CheckStep(c, s), s.locals[0].i;
    var sums := c.Sums();
    if s'.exit.Some? {
      VerifyCodeIsFirst(sums, c.want, s'.exit.value - 1);
    } else {
      var j := s'.locals[0].i;
      forall e | 0 <= e < j ensures sums[e] == c.want[e] {
        if e < i { assert sums[..i][e] == c.want[..i][e]; }
      }
      assert sums[..j] == c.want[..j];
    }
  }

  lemma CopyStepKeepsInv(c: Config, s: State)
    requires Inv(c, s, 2) && s.Running(0) && !Checking(c, s.locals[0])
    ensures Inv(c, CopyStep(c, s), 2)
  {
    var s', l := CopyStep(c, s), s.locals[0];
    StepKeepsPhase(s.bar, 0, 2);
    if !l.copying {
      assert c.Sums()[..l.i] == c.Sums() && c.want[..l.i] == c.want;
    } else if l.i < c.Size() {
      assert s'.mem[..l.i + 1] == s.mem[..l.i] + [c.x[l.i]];
      assert c.x[..l.i + 1] == c.x[..l.i] + [c.x[l.i]];
    } else {
      assert s.mem[..l.i] == s.mem && c.x[..l.i] == c.x;
    }
  }

  lemma WorkKeepsInv(c: Config, s: State, t: nat, g: nat)
    requires Inv(c, s, g) && t < c.n && s.Running(t)
    ensures Inv(c, Work(c, s, t), g)
  {
    OutsideInPhase(s, t, g);
    StepKeepsPhase(s.bar, t, g);
    if g == 1 || g == 3 {
      LoopStepKeepsInv(c, s, t, g);
    } else if (g == 2 || g == 4) && t == 0 && Checking(c, s.locals[0]) {
      CheckStepKeepsInv(c, s, g);
    } else if g == 2 && t == 0 {
      CopyStepKeepsInv(c, s);
    }
  }

  /** The phase after thread t's step. */
  lemma StepKeepsInv(c: Config, s: State, t: nat, g: nat) returns (g': nat)
    requires Inv(c, s, g) && t < c.n
    ensures Inv(c, Step(c, s, t), g')
  {
    g' := g;
    if s.exit.None? {
      if s.bar.threads[t].pc == Outside {
        WorkKeepsInv(c, s, t, g);
      } else if s.bar.threads[t].pc == Publishing {
        g' := g + 1;
        LeaderKeepsPhase(s.bar, t, g);
        PublishKeepsInv(c, s, t, g);
      } else {
        WaitKeepsInv(c, s, t, g);
      }
    }
  }

  lemma {:induction false} RunKeepsInv(c: Config, s: State, g: nat, sched: Schedule) returns (g': nat)
    requires Inv(c, s, g) && ScheduleOf(c.n, sched)
    ensures Inv(c, Run(c, s, sched), g')
    decreases |sched|
  {
    if sched == [] {
      g' := g;
    } else {
      g' := StepKeepsInv(c, s, sched[0], g);
      g' := RunKeepsInv(c, Step(c, s, sched[0]), g', sched[1..]);
    }
  }

  // ----- what every interleaving guarantees

  lemma InvRaceFree(c: Config, s: State, g: nat)
    requires Inv(c, s, g)
    ensures RaceFree(c, s)
  {
    forall t, u | 0 <= t < c.n && 0 <= u < c.n && t != u
      ensures Writes(c, s, t) !! (Reads(c, s, u) + Writes(c, s, u))
    {
      if s.Running(t) && s.Running(u) {
        OutsideInPhase(s, t, g);
        OutsideInPhase(s, u, g);
        if g == 1 || g == 3 {
          assert LoopLocal(c, s, g, t) && LoopLocal(c, s, g, u);
        }
      }
    }
  }

  /** No two threads are ever about to touch one element, one of them writing, at any number
      of threads and any vector length, in every interleaving. */
  lemma NoDataRace(c: Config, sched: Schedule)
    requires c.Valid() && ScheduleOf(c.n, sched)
    ensures RaceFree(c, Run(c, Init(c), sched))
  {
    InitInv(c);
    var g := RunKeepsInv(c, Init(c), 0, sched);
    InvRaceFree(c, Run(c, Init(c), sched), g);
  }

  /** Every element thread 0 compares holds x + y, in the out-of-place and the in-place round. */
  lemma CheckerSeesSums(c: Config, sched: Schedule)
    requires c.Valid() && ScheduleOf(c.n, sched)
    ensures var s := Run(c, Init(c), sched);
      s.Running(0) && s.Phase(0) in {2, 4} && Checking(c, s.locals[0]) ==>
        forall e :: e in Reads(c, s, 0) ==> e < c.Size() && s.mem[e] == c.add(c.x[e], c.y[e])
  {
    InitInv(c);
    var g := RunKeepsInv(c, Init(c), 0, sched);
    var s := Run(c, Init(c), sched);
    if s.Running(0) {
      OutsideInPhase(s, 0, g);
    }
  }

  /** The exit code does not depend on the interleaving: it is 0 exactly when the reference
      vector is the element-wise sum, and else one more than the first index that differs. */
  lemma ExitCodeIsVerdict(c: Config, sched: Schedule)
    requires c.Valid() && ScheduleOf(c.n, sched)
    ensures var s := Run(c, Init(c), sched);
      s.exit.Some? ==>
        && s.exit.value == VerifyCode(c.Sums(), c.want)
        && (s.exit.value == 0 <==> c.want == c.Sums())
        && s.mem == c.Sums()
  {
    InitInv(c);
    var g := RunKeepsInv(c, Init(c), 0, sched);
  }

  // ----- and that it stops

  /** Bound on the steps a thread can still take in its current phase. */
  function PhaseWork(c: Config, phase: nat, l: Local): int {
    var left := if l.i < |c.x| then |c.x| - l.i else 0;
    if phase == 1 || phase == 3 then 2 * left + (if l.reg.Some? then 0 else 1)
    else if l.copying then left
    else 2 * left + |c.x| + 2 - (if l.reg.Some? then 1 else 0)
  }

  function PhaseLimit(c: Config): nat { 3 * |c.x| + 8 }

  function ThreadWork(c: Config, th: Thread, l: Local): int {
    (6 - th.done) * PhaseLimit(c)
      + (match th.pc
         case Outside => 4 + PhaseWork(c, th.done, l)
         case Flipped => 3
         case Spinning => 2
         case Resetting => 2
         case Publishing => 1)
  }

  function WorkLeft(c: Config, s: State, m: nat): int
    requires m <= |s.bar.threads| == |s.locals|
  {
    if m == 0 then 0 else WorkLeft(c, s, m - 1) + ThreadWork(c, s.bar.threads[m - 1], s.locals[m - 1])
  }

  lemma {:induction false} WorkLeftDrops(c: Config, s: State, s': State, t: nat, m: nat)
    requires t < |s.bar.threads| == |s.locals| == |s'.bar.threads| == |s'.locals| && m <= |s.locals|
    requires forall u :: 0 <= u < |s.locals| && u != t ==>
      s'.bar.threads[u] == s.bar.threads[u] && s'.locals[u] == s.locals[u]
    requires ThreadWork(c, s'.bar.threads[t], s'.locals[t]) < ThreadWork(c, s.bar.threads[t], s.locals[t])
    ensures WorkLeft(c, s', m) <= WorkLeft(c, s, m) - (if t < m then 1 else 0)
  {
    if m > 0 {
      WorkLeftDrops(c, s, s', t, m - 1);
    }
  }

  lemma CallUsesWork(c: Config, s: State, t: nat)
    requires WellFormed(c, s) && t < c.n && CallBarrier(s, t) != s
    ensures var s' := CallBarrier(s, t);
      ThreadWork(c, s'.bar.threads[t], s'.locals[t]) < ThreadWork(c, s.bar.threads[t], s.locals[t])
  {
    var th, th' := s.bar.threads[t], CallBarrier(s, t).bar.threads[t];
    if th'.done == th.done + 1 {
      assert (6 - th'.done) * PhaseLimit(c) == (6 - th.done) * PhaseLimit(c) - PhaseLimit(c);
    } else {
      assert (6 - th'.done) * PhaseLimit(c) == (6 - th.done) * PhaseLimit(c);
    }
  }

  lemma LoopUsesWork(c: Config, s: State, t: nat, xs: seq<real>)
    requires WellFormed(c, s) && t < c.n && |xs| == c.Size() && s.Phase(t) in {1, 3}
    requires s.bar.threads[t].pc == Outside
    ensures var s' := VvAddStep(c, s, t, xs);
      ThreadWork(c, s'.bar.threads[t], s'.locals[t]) < ThreadWork(c, s.bar.threads[t], s.locals[t])
  {
    if s.locals[t].reg.None? && s.locals[t].i >= c.Size() { CallUsesWork(c, s, t); }
  }

  lemma SoloUsesWork(c: Config, s: State, t: nat)
    requires WellFormed(c, s) && t < c.n && s.exit.None? && s.Phase(t) !in {1, 3}
    requires s.bar.threads[t].pc == Outside
    requires Step(c, s, t).exit.None? && Step(c, s, t) != s
    ensures var s' := Step(c, s, t);
      ThreadWork(c, s'.bar.threads[t], s'.locals[t]) < ThreadWork(c, s.bar.threads[t], s.locals[t])
  {
    if Step(c, s, t) == CallBarrier(s, t) { CallUsesWork(c, s, t); }
  }

  /** A step that changes anything halts the program or uses up work. */
  lemma StepUsesWork(c: Config, s: State, t: nat, g: nat)
    requires Inv(c, s, g) && t < c.n && s.exit.None?
    requires Step(c, s, t).exit.None? && Step(c, s, t) != s
    ensures WorkLeft(c, Step(c, s, t), c.n) < WorkLeft(c, s, c.n)
  {
    hide PhaseLimit, ThreadWork, WorkLeft;
    var s' := Step(c, s, t);
    if s.bar.threads[t].pc == Outside {
      OutsideInPhase(s, t, g);
      if g == 1 { LoopUsesWork(c, s, t, c.x); }
      else if g == 3 { LoopUsesWork(c, s, t, s.mem); }
      else { SoloUsesWork(c, s, t); }
    } else {
      CallUsesWork(c, s, t);
    }
    WorkLeftDrops(c, s, s', t, c.n);
  }

  lemma NoDeadlock(c: Config, s: State, g: nat) returns (t: nat)
    requires Inv(c, s, g) && s.exit.None?
    ensures t < c.n && Step(c, s, t) != s
  {
    hide Memory, VerifyCode;
    if i :| 0 <= i < c.n && s.bar.threads[i].pc != Spinning {
      t := i;
    } else if i :| 0 <= i < c.n && s.Phase(i) + 1 == g {
      t := i;
    } else {
      forall i | 0 <= i < c.n ensures Counted(g)(s.bar.threads[i]) == 1 {
        assert ThreadInPhase(s.bar.threads[i], g) && s.Phase(i) + 1 != g;
      }
      TotalConstant(Counted(g), s.bar.threads, 1);
      assert false;
    }
  }

  lemma {:induction false} WorkLeftBounds(c: Config, s: State, m: nat)
    requires WellFormed(c, s) && m <= c.n
    requires forall t :: 0 <= t < c.n ==> s.Phase(t) <= 5
    ensures 0 <= WorkLeft(c, s, m) <= m * (7 * PhaseLimit(c))
  {
    if m > 0 {
      WorkLeftBounds(c, s, m - 1);
      var done := s.Phase(m - 1);
      MulMono(1, 6 - done, PhaseLimit(c));
      MulMono(6 - done, 6, PhaseLimit(c));
      assert m * (7 * PhaseLimit(c)) == (m - 1) * (7 * PhaseLimit(c)) + 7 * PhaseLimit(c);
    }
  }

  lemma {:induction false} RunUsesWork(c: Config, s: State, g: nat, sched: Schedule)
    requires Inv(c, s, g) && ScheduleOf(c.n, sched)
    ensures var s' := Run(c, s, sched);
      s'.exit.Some? || (s.exit.None? && WorkLeft(c, s', c.n) <= WorkLeft(c, s, c.n))
    decreases |sched|
  {
    if sched != [] {
      var g' := StepKeepsInv(c, s, sched[0], g);
      RunUsesWork(c, Step(c, s, sched[0]), g', sched[1..]);
      if Step(c, s, sched[0]) != s && Step(c, s, sched[0]).exit.None? {
        StepUsesWork(c, s, sched[0], g);
      }
    }
  }

  lemma {:induction false} RoundUsesWork(c: Config, s: State, g: nat, r: Schedule, t: nat)
    requires Inv(c, s, g) && s.exit.None? && ScheduleOf(c.n, r) && t in r && Step(c, s, t) != s
    ensures Run(c, s, r).exit.Some? || WorkLeft(c, Run(c, s, r), c.n) < WorkLeft(c, s, c.n)
    decreases |r|
  {
    var s' := Step(c, s, r[0]);
    if s' == s {
      assert t in r[1..];
      RoundUsesWork(c, s, g, r[1..], t);
    } else {
      var g' := StepKeepsInv(c, s, r[0], g);
      RunUsesWork(c, s', g', r[1..]);
      if s'.exit.None? { StepUsesWork(c, s, r[0], g); }
    }
  }

  ghost function RunRounds(c: Config, s: State, rounds: seq<Schedule>): (r: State)
    requires WellFormed(c, s)
    requires forall k :: 0 <= k < |rounds| ==> Round(c.n, rounds[k])
    ensures WellFormed(c, r)
    decreases |rounds|
  {
    if rounds == [] then s else assert Round(c.n, rounds[0]); RunRounds(c, Run(c, s, rounds[0]), rounds[1..])
  }

  lemma {:induction false} RoundsHalt(c: Config, s: State, g: nat, rounds: seq<Schedule>)
    requires Inv(c, s, g)
    requires forall k :: 0 <= k < |rounds| ==> Round(c.n, rounds[k])
    requires s.exit.None? ==> WorkLeft(c, s, c.n) < |rounds|
    ensures RunRounds(c, s, rounds).exit.Some?
    ensures exists g' :: Inv(c, RunRounds(c, s, rounds), g')
    decreases |rounds|
  {
    if rounds == [] {
      if s.exit.None? { InvBoundsWork(c, s, g); }
    } else {
      assert Round(c.n, rounds[0]);
      var s' := Run(c, s, rounds[0]);
      var g' := RunKeepsInv(c, s, g, rounds[0]);
      if s.exit.None? {
        var t := NoDeadlock(c, s, g);
        RoundUsesWork(c, s, g, rounds[0], t);
      } else {
        HaltedStays(c, s, rounds[0]);
      }
      RoundsHalt(c, s', g', rounds[1..]);
    }
  }

  lemma {:induction false} HaltedStays(c: Config, s: State, sched: Schedule)
    requires WellFormed(c, s) && s.exit.Some? && ScheduleOf(c.n, sched)
    ensures Run(c, s, sched) == s
    decreases |sched|
  {
    if sched != [] { HaltedStays(c, s, sched[1..]); }
  }

  lemma InvBoundsWork(c: Config, s: State, g: nat)
    requires Inv(c, s, g) && s.exit.None?
    ensures 0 <= WorkLeft(c, s, c.n) <= c.n * (7 * PhaseLimit(c))
  {
    forall t | 0 <= t < c.n ensures s.Phase(t) <= 5 {
      assert ThreadInPhase(s.bar.threads[t], g);
    }
    WorkLeftBounds(c, s, c.n);
  }

  /** Total correctness under fairness: any schedule of more than 7n(3|x| + 8) rounds, each
      giving every thread a turn, ends the program with the verdict of `verifyDouble`. */
  lemma FairRunHalts(c: Config, rounds: seq<Schedule>)
    requires c.Valid() && |rounds| > c.n * (7 * PhaseLimit(c))
    requires forall k :: 0 <= k < |rounds| ==> Round(c.n, rounds[k])
    ensures RunRounds(c, Init(c), rounds).exit == Some(VerifyCode(c.Sums(), c.want))
    ensures RunRounds(c, Init(c), rounds).mem == c.Sums()
  {
    InitInv(c);
    InvBoundsWork(c, Init(c), 0);
    RoundsHalt(c, Init(c), 0, rounds);
  }
}
