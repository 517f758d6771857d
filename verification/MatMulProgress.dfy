/** The cooperative matrix product finishes: no core waits forever at a barrier, and every fair
    schedule makes all cores return, so that what they leave is the whole product. */
module MatMulProgress {
  import opened Arith
  import opened Barrier
  import opened BarrierProgress
  import M = MatMul

  type Config = M.Config
  type State = M.State

  /** Bound on the steps a core can still take before its next barrier call. */
  function TurnWork(c: Config, t: nat, l: M.Local): int
    requires c.n >= 1
  {
    match l
    case Transpose(_, i) => c.First(t) + c.Width() - i
    case Product(_, _, k, e, _, stored) => 4 * (c.lda - k) - e + 4 - stored
    case Returned => 0
  }

  function TurnLimit(c: Config): nat { 4 * c.lda + 8 }

  /** At most so much work for one core, all its turns together. */
  function CoreLimit(c: Config): int
    requires c.n >= 1
  {
    (M.AllCalls(c) + 1) * TurnLimit(c)
  }

  function CallWork(pc: Pc): int {
    match pc
    case Outside => 4
    case Flipped => 3
    case Spinning => 2
    case Resetting => 2
    case Publishing => 1
  }

  /** Bound on the steps, failed spins apart, that a core can still take. */
  function CoreWork(c: Config, t: nat, th: Thread, l: M.Local): int
    requires c.n >= 1
  {
    if l.Returned? then 0
    else (M.AllCalls(c) - M.CallsMade(c, t, l)) * TurnLimit(c) + CallWork(th.pc) + if th.pc == Outside then TurnWork(c, t, l) else 0
  }

  lemma WidthFits(c: Config)
    requires c.Valid()
    ensures c.Width() <= c.lda
  {
    Euclid(c.n, c.lda);
    MulMono(1, c.n, c.Width());
  }

  lemma CallsToGo(c: Config, t: nat, l: M.Local)
    requires c.Valid() && t < c.n && M.LocalFits(c, t, l) && !l.Returned?
    ensures 0 <= M.CallsMade(c, t, l) < M.AllCalls(c)
  {
    var w := c.Width();
    hide M.Config.First, M.Config.Width;
    if l.Transpose? {
      MulMono(0, c.lda / 4, w);
    } else {
      FourMore(l.i, c.lda);
      var q := l.i / 4;
      MulMono(0, q, w);
      MulMono(q + 1, c.lda / 4, w);
      assert (q + 1) * w == q * w + w;
    }
  }

  lemma FourMore(i: nat, lda: nat)
    requires i < lda && i % 4 == 0 && lda % 8 == 0
    ensures i / 4 + 1 <= lda / 4
  {
  }

  lemma TurnWorkBound(c: Config, t: nat, l: M.Local)
    requires c.Valid() && t < c.n && M.LocalFits(c, t, l)
    ensures 0 <= TurnWork(c, t, l) <= 4 * c.lda + 4
  {
    WidthFits(c);
    if l.Product? { M.TurnInRange(c, t, l); }
    hide M.Config.First, M.Config.Width;
  }

  /** A call that is not a failed spin uses up work. */
  lemma CallUsesWork(c: Config, s: State, t: nat)
    requires M.Inv(c, s) && t < c.n && M.TurnOver(c, t, s.locals[t]) && M.CallBarrier(c, s, t) != s
    ensures var s' := M.CallBarrier(c, s, t);
      CoreWork(c, t, s'.bar.threads[t], s'.locals[t]) < CoreWork(c, t, s.bar.threads[t], s.locals[t])
  {
    var s', l := M.CallBarrier(c, s, t), s.locals[t];
    assert M.LocalFits(c, t, l) && M.LocalFits(c, t, s'.locals[t]);
    CallsToGo(c, t, l);
    if s'.bar.threads[t].done == s.bar.threads[t].done {
      assert s'.locals[t] == l;
    } else {
      var l' := M.Advance(c, t, l);
      assert s'.locals[t] == l';
      assert s'.bar.threads[t].pc == Outside;
      AdvanceUsesWork(c, t, l, s'.bar.threads[t], s.bar.threads[t]);
    }
  }

  lemma AdvanceUsesWork(c: Config, t: nat, l: M.Local, th': Thread, th: Thread)
    requires c.Valid() && t < c.n && M.LocalFits(c, t, l) && !l.Returned? && th'.pc == Outside && th.pc != Outside
    ensures CoreWork(c, t, th', M.Advance(c, t, l)) < CoreWork(c, t, th, l)
  {
    var l' := M.Advance(c, t, l);
    CallsToGo(c, t, l);
    M.AdvanceCountsOne(c, t, l);
    M.AdvanceFits(c, t, l);
    TurnWorkBound(c, t, l');
    var a := M.AllCalls(c) - M.CallsMade(c, t, l);
    hide M.Advance, M.AllCalls, M.CallsMade, M.LocalFits, TurnWork;
    MulMono(0, a, TurnLimit(c));
    assert (a - 1) * TurnLimit(c) == a * TurnLimit(c) - TurnLimit(c);
  }

  /** A step inside a turn uses up work. */
  lemma TurnUsesWork(c: Config, s: State, t: nat)
    requires M.Inv(c, s) && t < c.n && s.Running(t) && !s.locals[t].Returned? && !M.TurnOver(c, t, s.locals[t])
    ensures var s' := M.Step(c, s, t);
      CoreWork(c, t, s'.bar.threads[t], s'.locals[t]) < CoreWork(c, t, s.bar.threads[t], s.locals[t])
  {
    assert M.LocalFits(c, t, s.locals[t]);
    hide M.AllCalls, M.Multiply;
  }

  function WorkLeft(c: Config, s: State, m: nat): int
    requires c.n >= 1 && m <= |s.bar.threads| == |s.locals|
  {
    if m == 0 then 0 else WorkLeft(c, s, m - 1) + CoreWork(c, m - 1, s.bar.threads[m - 1], s.locals[m - 1])
  }

  lemma {:induction false} WorkLeftDrops(c: Config, s: State, s': State, t: nat, m: nat)
    requires c.n >= 1 && t < |s.bar.threads| == |s.locals| == |s'.bar.threads| == |s'.locals| && m <= |s.locals|
    requires forall u :: 0 <= u < |s.locals| && u != t ==>
      s'.bar.threads[u] == s.bar.threads[u] && s'.locals[u] == s.locals[u]
    requires CoreWork(c, t, s'.bar.threads[t], s'.locals[t]) < CoreWork(c, t, s.bar.threads[t], s.locals[t])
    ensures WorkLeft(c, s', m) <= WorkLeft(c, s, m) - (if t < m then 1 else 0)
  {
    if m > 0 {
      hide CoreWork;
      WorkLeftDrops(c, s, s', t, m - 1);
    }
  }

  lemma StepUsesWork(c: Config, s: State, t: nat)
    requires M.Inv(c, s) && t < c.n && M.Step(c, s, t) != s
    ensures WorkLeft(c, M.Step(c, s, t), c.n) < WorkLeft(c, s, c.n)
  {
    var s', l := M.Step(c, s, t), s.locals[t];
    assert M.CoreInv(c, s, t);
    if s.bar.threads[t].pc != Outside || M.TurnOver(c, t, l) {
      assert s' == M.CallBarrier(c, s, t);
      CallUsesWork(c, s, t);
    } else {
      TurnUsesWork(c, s, t);
    }
    OthersUntouched(c, s, t);
    hide M.Inv, M.Step, CoreWork;
    WorkLeftDrops(c, s, s', t, c.n);
  }

  lemma OthersUntouched(c: Config, s: State, t: nat)
    requires M.WellFormed(c, s) && t < c.n
    ensures var s' := M.Step(c, s, t);
      forall u :: 0 <= u < c.n && u != t ==> s'.bar.threads[u] == s.bar.threads[u] && s'.locals[u] == s.locals[u]
  {
  }

  /** Until all cores have returned, some core has a step that is not a failed spin. */
  lemma NoDeadlock(c: Config, s: State) returns (t: nat)
    requires M.Inv(c, s) && !M.AllReturned(c, s)
    ensures t < c.n && M.Step(c, s, t) != s
  {
    var g: nat :| InPhase(s.bar, g);
    if i :| 0 <= i < c.n && s.bar.threads[i].pc !in {Spinning, Outside} {
      t := i;
    } else if i :| 0 <= i < c.n && s.bar.threads[i].pc == Outside && !s.locals[i].Returned? {
      t := i;
      RunningMoves(c, s, t);
    } else {
      SomeoneReleased(c, s, g);
      t :| 0 <= t < c.n && s.bar.threads[t].done + 1 == g;
      assert ThreadInPhase(s.bar.threads[t], g);
    }
  }

  lemma RunningMoves(c: Config, s: State, t: nat)
    requires M.Inv(c, s) && t < c.n && s.Running(t) && !s.locals[t].Returned?
    ensures M.Step(c, s, t) != s
  {
    if M.TurnOver(c, t, s.locals[t]) {
      assert M.Step(c, s, t).bar.threads[t].pc == Flipped;
    } else {
      TurnUsesWork(c, s, t);
    }
  }

  /** If every core waits or has returned, somebody waits in a call that is already over. */
  lemma SomeoneReleased(c: Config, s: State, g: nat)
    requires M.Inv(c, s) && InPhase(s.bar, g) && !M.AllReturned(c, s)
    requires forall i :: 0 <= i < c.n ==> s.bar.threads[i].pc in {Spinning, Outside}
    requires forall i :: 0 <= i < c.n && s.bar.threads[i].pc == Outside ==> s.locals[i].Returned?
    ensures exists i :: 0 <= i < c.n && s.bar.threads[i].done + 1 == g
  {
    if forall i :: 0 <= i < c.n ==> s.bar.threads[i].done + 1 != g {
      var u :| 0 <= u < c.n && !s.locals[u].Returned?;
      assert M.CoreInv(c, s, u) && M.LocalFits(c, u, s.locals[u]);
      CallsToGo(c, u, s.locals[u]);
      forall i | 0 <= i < c.n ensures Counted(g)(s.bar.threads[i]) == 1 {
        assert M.CoreInv(c, s, i) && ThreadInPhase(s.bar.threads[i], g) && ThreadInPhase(s.bar.threads[u], g);
      }
      TotalConstant(Counted(g), s.bar.threads, 1);
      assert false;
    }
  }

  // ----- fair schedules

  lemma {:induction false} RunUsesWork(c: Config, s: State, sched: Schedule)
    requires M.Inv(c, s) && ScheduleOf(c.n, sched)
    ensures WorkLeft(c, M.Run(c, s, sched), c.n) <= WorkLeft(c, s, c.n)
    decreases |sched|
  {
    if sched != [] {
      hide M.Step, WorkLeft;
      M.StepKeepsInv(c, s, sched[0]);
      RunUsesWork(c, M.Step(c, s, sched[0]), sched[1..]);
      if M.Step(c, s, sched[0]) != s { StepUsesWork(c, s, sched[0]); }
    }
  }

  lemma {:induction false} RoundUsesWork(c: Config, s: State, r: Schedule, t: nat)
    requires M.Inv(c, s) && ScheduleOf(c.n, r) && t in r && M.Step(c, s, t) != s
    ensures WorkLeft(c, M.Run(c, s, r), c.n) < WorkLeft(c, s, c.n)
    decreases |r|
  {
    hide M.Step, WorkLeft;
    var s' := M.Step(c, s, r[0]);
    if s' == s {
      assert t in r[1..];
      RoundUsesWork(c, s, r[1..], t);
    } else {
      M.StepKeepsInv(c, s, r[0]);
      StepUsesWork(c, s, r[0]);
      RunUsesWork(c, s', r[1..]);
    }
  }

  ghost function RunRounds(c: Config, s: State, rounds: seq<Schedule>): (r: State)
    requires M.WellFormed(c, s)
    requires forall k :: 0 <= k < |rounds| ==> Round(c.n, rounds[k])
    ensures M.WellFormed(c, r)
    decreases |rounds|
  {
    if rounds == [] then s else assert Round(c.n, rounds[0]); RunRounds(c, M.Run(c, s, rounds[0]), rounds[1..])
  }

  lemma {:induction false} WorkLeftBounds(c: Config, s: State, m: nat)
    requires M.WellFormed(c, s) && m <= c.n
    ensures 0 <= WorkLeft(c, s, m) <= m * CoreLimit(c)
  {
    if m > 0 {
      WorkLeftBounds(c, s, m - 1);
      CoreWorkBound(c, m - 1, s.bar.threads[m - 1], s.locals[m - 1]);
      hide CoreWork, CoreLimit;
      MulSucc(m - 1, CoreLimit(c));
    }
  }

  lemma CoreWorkBound(c: Config, t: nat, th: Thread, l: M.Local)
    requires c.Valid() && t < c.n && M.LocalFits(c, t, l)
    ensures 0 <= CoreWork(c, t, th, l) <= CoreLimit(c)
  {
    MulMono(0, M.AllCalls(c) + 1, TurnLimit(c));
    if !l.Returned? {
      CallsToGo(c, t, l);
      TurnWorkBound(c, t, l);
      var a, b := M.AllCalls(c) - M.CallsMade(c, t, l), M.AllCalls(c);
      hide M.AllCalls, M.CallsMade;
      MulMono(0, a, TurnLimit(c));
      MulMono(a, b, TurnLimit(c));
      MulSucc(b, TurnLimit(c));
    }
  }

  lemma {:induction false} RoundsReturn(c: Config, s: State, rounds: seq<Schedule>)
    requires M.Inv(c, s)
    requires forall k :: 0 <= k < |rounds| ==> Round(c.n, rounds[k])
    requires WorkLeft(c, s, c.n) <= |rounds|
    ensures M.Inv(c, RunRounds(c, s, rounds)) && M.AllReturned(c, RunRounds(c, s, rounds))
    decreases |rounds|
  {
    hide M.Step, M.AllCalls;
    if !M.AllReturned(c, s) {
      var t := NoDeadlock(c, s);
      StepUsesWork(c, s, t);
      M.StepKeepsInv(c, s, t);
      WorkLeftBounds(c, M.Step(c, s, t), c.n);
      assert Round(c.n, rounds[0]);
      RoundUsesWork(c, s, rounds[0], t);
    }
    if rounds != [] {
      assert Round(c.n, rounds[0]);
      M.RunKeepsInv(c, s, rounds[0]);
      RunUsesWork(c, s, rounds[0]);
      if M.AllReturned(c, s) { ReturnedNoWork(c, M.Run(c, s, rounds[0]), s, rounds[0]); }
      RoundsReturn(c, M.Run(c, s, rounds[0]), rounds[1..]);
    }
  }

  lemma ReturnedNoWork(c: Config, s': State, s: State, r: Schedule)
    requires M.Inv(c, s) && M.AllReturned(c, s) && ScheduleOf(c.n, r) && s' == M.Run(c, s, r)
    ensures WorkLeft(c, s', c.n) <= 0
  {
    NoWork(c, s, c.n);
    RunUsesWork(c, s, r);
  }

  lemma {:induction false} NoWork(c: Config, s: State, m: nat)
    requires M.WellFormed(c, s) && M.AllReturned(c, s) && m <= c.n
    ensures WorkLeft(c, s, m) == 0
  {
    if m > 0 { NoWork(c, s, m - 1); }
  }

  /** Total correctness under fairness: after n * (calls + 1) * (4 * lda + 8) rounds that each give
      every core a turn, all cores have returned, and with n dividing lda the result is A * B. */
  lemma FairRunMultiplies(c: Config, bb: M.Matrix, out: M.Matrix, rounds: seq<Schedule>)
    requires c.Valid() && M.Square(bb, c.lda) && M.Square(out, c.lda) && c.lda % c.n == 0
    requires forall k :: 0 <= k < |rounds| ==> Round(c.n, rounds[k])
    ensures |rounds| >= c.n * CoreLimit(c) ==>
      var s := RunRounds(c, M.Init(c, bb, out), rounds);
      && M.AllReturned(c, s)
      && forall j, i :: 0 <= j < c.lda && 0 <= i < c.lda ==> s.out[j][i] == c.Dot(j, i, c.lda)
  {
    var s0 := M.Init(c, bb, out);
    M.InitInv(c, bb, out);
    WorkLeftBounds(c, s0, c.n);
    hide M.Init, CoreLimit, WorkLeft, RunRounds;
    if |rounds| >= c.n * CoreLimit(c) {
      RoundsReturn(c, s0, rounds);
      M.CoveredIffDivides(c);
      M.ReturnedIsProduct(c, RunRounds(c, s0, rounds));
    }
  }
}
