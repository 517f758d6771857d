/** The sense-reversing barrier of `benchmarks/common/util.h`, run by n threads.
    One step is one access to the shared words `sense` and `count`; a schedule names the
    thread that takes each step, so "every interleaving" is "every schedule". */
module Barrier {

  /** Where a thread stands: outside the call, after flipping its own sense, after the
      fetch-add that made it the last arrival, after clearing `count`, or in the spin loop. */
  datatype Pc = Outside | Flipped | Resetting | Publishing | Spinning

  /** `sense` is the thread-local `threadsense`; `done` counts calls that have returned. */
  datatype Thread = Thread(pc: Pc, sense: bool, done: nat) {
    /** Number of calls whose fetch-add this thread has performed. */
    function Arrived(): nat {
      if pc in {Resetting, Publishing, Spinning} then done + 1 else done
    }
  }

  datatype State = State(sense: bool, count: int, threads: seq<Thread>) {
    function With(t: nat, th: Thread): State
      requires t < |threads|
    {
      this.(threads := threads[t := th])
    }
  }

  type Schedule = seq<nat>

  ghost predicate ScheduleOf(n: nat, sched: Schedule) {
    forall k :: 0 <= k < |sched| ==> sched[k] < n
  }

  function Init(n: nat): State {
    State(false, 0, seq(n, _ => Thread(Outside, false, 0)))
  }

  /** Thread t's next atomic step. A spin that sees the old sense leaves the state alone. */
  function Step(s: State, t: nat): (r: State)
    requires t < |s.threads|
    ensures |r.threads| == |s.threads|
  {
    var th := s.threads[t];
    match th.pc
    case Outside => s.With(t, th.(pc := Flipped, sense := !th.sense))
    case Flipped =>
      var last := s.count == |s.threads| - 1;
      s.With(t, th.(pc := if last then Resetting else Spinning)).(count := s.count + 1)
    case Resetting => s.With(t, th.(pc := Publishing)).(count := 0)
    case Publishing => s.With(t, th.(pc := Outside, done := th.done + 1)).(sense := th.sense)
    case Spinning =>
      if s.sense == th.sense then s.With(t, th.(pc := Outside, done := th.done + 1)) else s
  }

  /** The state after a schedule; the last entry is the last step. */
  ghost function Run(n: nat, sched: Schedule): (s: State)
    requires ScheduleOf(n, sched)
    ensures |s.threads| == n
  {
    if sched == [] then Init(n) else Step(Run(n, sched[..|sched| - 1]), sched[|sched| - 1])
  }

  // ----- sums over threads

  function Total(w: Thread -> int, ths: seq<Thread>): int {
    if ths == [] then 0 else Total(w, ths[..|ths| - 1]) + w(ths[|ths| - 1])
  }

  lemma {:induction false} TotalUpdate(w: Thread -> int, ths: seq<Thread>, t: nat, th: Thread)
    requires t < |ths|
    ensures Total(w, ths[t := th]) == Total(w, ths) - w(ths[t]) + w(th)
  {
    var m := |ths| - 1;
    if t == m {
      assert ths[t := th][..m] == ths[..m];
    } else {
      assert ths[t := th][..m] == ths[..m][t := th];
      TotalUpdate(w, ths[..m], t, th);
    }
  }

  lemma {:induction false} TotalConstant(w: Thread -> int, ths: seq<Thread>, c: int)
    requires forall i :: 0 <= i < |ths| ==> w(ths[i]) == c
    ensures Total(w, ths) == c * |ths|
  {
    if ths != [] {
      TotalConstant(w, ths[..|ths| - 1], c);
    }
  }

  /** A sum of 0/1 weights reaches its length only when every weight is 1. */
  lemma {:induction false} TotalOfBits(w: Thread -> int, ths: seq<Thread>)
    requires forall i :: 0 <= i < |ths| ==> 0 <= w(ths[i]) <= 1
    ensures 0 <= Total(w, ths) <= |ths|
    ensures Total(w, ths) == |ths| ==> forall i :: 0 <= i < |ths| ==> w(ths[i]) == 1
  {
    if ths != [] {
      TotalOfBits(w, ths[..|ths| - 1]);
    }
  }

  // ----- the invariant

  /** 1 for a thread that has arrived in phase g and whose arrival `count` still holds. */
  function Counted(g: nat): Thread -> int {
    (th: Thread) => if th.done == g && th.pc in {Spinning, Resetting, Publishing} then 1 else 0
  }

  ghost predicate Leading(th: Thread) { th.pc == Resetting || th.pc == Publishing }

  function Odd(g: nat): bool { g % 2 == 1 }

  /** A thread in phase g has made g calls, or is a released spinner of phase g - 1. */
  ghost predicate ThreadInPhase(th: Thread, g: nat) {
    if th.done == g then th.sense == ((th.pc == Outside) == Odd(g))
    else th.done + 1 == g && th.pc == Spinning && th.sense == Odd(g)
  }

  /** The barrier has been published g times. */
  ghost predicate InPhase(s: State, g: nat) {
    && s.sense == Odd(g)
    && (forall i :: 0 <= i < |s.threads| ==> ThreadInPhase(s.threads[i], g))
    && (exists i :: 0 <= i < |s.threads| && s.threads[i].done == g)
    && (if exists i :: 0 <= i < |s.threads| && Leading(s.threads[i]) then
          exists i :: LeaderAt(s, g, i)
        else
          s.count == Total(Counted(g), s.threads) < |s.threads|)
  }

  /** Thread i is the last arrival: everyone else waits in the spin loop of the same phase. */
  ghost predicate LeaderAt(s: State, g: nat, i: nat) {
    && i < |s.threads|
    && Leading(s.threads[i]) && s.threads[i].done == g
    && s.count == (if s.threads[i].pc == Resetting then |s.threads| else 0)
    && forall j :: 0 <= j < |s.threads| && j != i ==>
         s.threads[j].pc == Spinning && s.threads[j].done == g
  }

  ghost predicate Inv(s: State) { exists g: nat :: InPhase(s, g) }

  lemma InitInPhase(n: nat)
    requires n >= 1
    ensures InPhase(Init(n), 0)
  {
    TotalConstant(Counted(0), Init(n).threads, 0);
  }

  /** Only the store to `sense` moves the barrier to its next phase. */
  function NextPhase(th: Thread, g: nat): nat {
    if th.pc == Publishing then g + 1 else g
  }

  lemma FetchAddKeepsPhase(s: State, t: nat, g: nat)
    requires InPhase(s, g) && t < |s.threads| && s.threads[t].pc == Flipped
    ensures InPhase(Step(s, t), NextPhase(s.threads[t], g))
  {
    var s', n := Step(s, t), |s.threads|;
    TotalUpdate(Counted(g), s.threads, t, s'.threads[t]);
    assert s'.threads[t].done == g;
    assert !exists i :: 0 <= i < n && Leading(s.threads[i]);
    TotalOfBits(Counted(g), s'.threads);
    if s.count == n - 1 {
      forall j | 0 <= j < n && j != t
        ensures s'.threads[j].pc == Spinning && s'.threads[j].done == g
      {
        assert Counted(g)(s'.threads[j]) == 1;
      }
      assert LeaderAt(s', g, t);
    } else {
      assert forall i :: 0 <= i < n && i != t ==> s'.threads[i] == s.threads[i];
    }
  }

  lemma LeaderKeepsPhase(s: State, t: nat, g: nat)
    requires InPhase(s, g) && t < |s.threads| && Leading(s.threads[t])
    ensures LeaderAt(s, g, t)
    ensures InPhase(Step(s, t), NextPhase(s.threads[t], g))
  {
    var s' := Step(s, t);
    var i :| LeaderAt(s, g, i);
    assert i == t;
    if s.threads[t].pc == Resetting {
      assert LeaderAt(s', g, t);
    } else {
      assert s'.threads[t].done == g + 1;
      TotalConstant(Counted(g + 1), s'.threads, 0);
    }
  }

  lemma LocalStepKeepsPhase(s: State, t: nat, g: nat)
    requires InPhase(s, g) && t < |s.threads|
    requires s.threads[t].pc == Outside || s.threads[t].pc == Spinning
    ensures InPhase(Step(s, t), NextPhase(s.threads[t], g))
  {
    var s', n := Step(s, t), |s.threads|;
    TotalUpdate(Counted(g), s.threads, t, s'.threads[t]);
    if exists i :: 0 <= i < n && Leading(s.threads[i]) {
      var i :| LeaderAt(s, g, i);
      assert s' == s;
    } else {
      assert forall i :: 0 <= i < n && i != t ==> s'.threads[i] == s.threads[i];
    }
  }

  lemma StepKeepsPhase(s: State, t: nat, g: nat)
    requires InPhase(s, g) && t < |s.threads|
    ensures InPhase(Step(s, t), NextPhase(s.threads[t], g))
  {
    match s.threads[t].pc
    case Outside => LocalStepKeepsPhase(s, t, g);
    case Spinning => LocalStepKeepsPhase(s, t, g);
    case Flipped => FetchAddKeepsPhase(s, t, g);
    case Resetting => LeaderKeepsPhase(s, t, g);
    case Publishing => LeaderKeepsPhase(s, t, g);
  }

  lemma {:induction false} RunKeepsInv(n: nat, sched: Schedule)
    requires n >= 1 && ScheduleOf(n, sched)
    ensures Inv(Run(n, sched))
  {
    if sched == [] {
      InitInPhase(n);
    } else {
      var before := sched[..|sched| - 1];
      RunKeepsInv(n, before);
      var g: nat :| InPhase(Run(n, before), g);
      StepKeepsPhase(Run(n, before), sched[|sched| - 1], g);
    }
  }

  // ----- safety

  /** Nobody returns from a call before everybody has arrived in it, and no two threads
      are more than one call apart. */
  ghost predicate Synchronised(s: State) {
    forall i, j {:trigger s.threads[i], s.threads[j]} ::
      0 <= i < |s.threads| && 0 <= j < |s.threads| ==>
        && s.threads[j].done <= s.threads[i].Arrived()
        && s.threads[j].done <= s.threads[i].done + 1
  }

  lemma InvSynchronised(s: State)
    requires Inv(s)
    ensures Synchronised(s)
    ensures 0 <= s.count <= |s.threads|
  {
    var g: nat :| InPhase(s, g);
    TotalOfBits(Counted(g), s.threads);
  }

  lemma Safety(n: nat, sched: Schedule)
    requires n >= 1 && ScheduleOf(n, sched)
    ensures Synchronised(Run(n, sched))
    ensures 0 <= Run(n, sched).count <= n
  {
    RunKeepsInv(n, sched);
    InvSynchronised(Run(n, sched));
  }

  /** Two threads that are both outside `barrier` have completed the same number of calls:
      code between barriers only ever overlaps with code of the same phase. */
  lemma OutsideAgree(s: State, i: nat, j: nat)
    requires Inv(s) && i < |s.threads| && j < |s.threads|
    requires s.threads[i].pc == Outside && s.threads[j].pc == Outside
    ensures s.threads[i].done == s.threads[j].done
  {
    var g: nat :| InPhase(s, g);
  }

  /** `count = 0` never loses an arrival: at that store the counter holds all n arrivals of
      this call, and every other thread is spinning on the unpublished sense, so none can
      fetch-add before `sense` is published. */
  lemma ResetLosesNothing(s: State, t: nat)
    requires Inv(s) && t < |s.threads| && Leading(s.threads[t])
    ensures s.threads[t].pc == Resetting ==> s.count == |s.threads|
    ensures forall j :: 0 <= j < |s.threads| && j != t ==>
      s.threads[j].pc == Spinning && s.threads[j].done == s.threads[t].done && Step(s, j) == s
  {
    var g: nat :| InPhase(s, g);
    LeaderKeepsPhase(s, t, g);
  }

  /** A spinner whose call somebody has already returned from sees the new sense: no wake-up
      is lost when the barrier is reused, and no spinner leaves early. */
  lemma SpinnerReleasedIff(s: State, t: nat)
    requires Inv(s) && t < |s.threads| && s.threads[t].pc == Spinning
    ensures Step(s, t) != s <==>
      exists j :: 0 <= j < |s.threads| && s.threads[j].done > s.threads[t].done
  {
    var g: nat :| InPhase(s, g);
  }
}
