/** What a barrier is for, as an abstract machine, and the proof that the shared-word protocol
    of `Barrier` refines it, never deadlocks and costs an exact number of steps. */
module BarrierProgress {
  import opened Barrier

  // ----- refinement of an ideal barrier

  /** Per thread: calls arrived in, and calls returned from. */
  datatype Ticket = Ticket(arrived: nat, returned: nat)

  ghost function View(s: State): (v: seq<Ticket>)
  {
    seq(|s.threads|, i requires 0 <= i < |s.threads| =>
      Ticket(s.threads[i].Arrived(), s.threads[i].done))
  }

  ghost predicate Arrive(v: seq<Ticket>, v': seq<Ticket>, t: nat) {
    && t < |v| && v[t].arrived == v[t].returned
    && v' == v[t := v[t].(arrived := v[t].arrived + 1)]
  }

  /** A thread may return only when all threads have arrived in the call it returns from. */
  ghost predicate Return(v: seq<Ticket>, v': seq<Ticket>, t: nat) {
    && t < |v| && v[t].arrived == v[t].returned + 1
    && (forall i :: 0 <= i < |v| ==> v[i].arrived > v[t].returned)
    && v' == v[t := v[t].(returned := v[t].returned + 1)]
  }

  lemma ViewOfStep(s: State, t: nat)
    requires t < |s.threads|
    ensures View(Step(s, t)) == View(s)[t := Ticket(Step(s, t).threads[t].Arrived(), Step(s, t).threads[t].done)]
  {
  }

  /** A thread that returns does so when all threads have arrived in its call. */
  lemma ReturnAllowed(s: State, t: nat)
    requires Inv(s) && t < |s.threads| && Step(s, t).threads[t].done > s.threads[t].done
    ensures forall i :: 0 <= i < |s.threads| ==> s.threads[i].Arrived() > s.threads[t].done
  {
    var g: nat :| InPhase(s, g);
    if s.threads[t].pc == Publishing {
      LeaderKeepsPhase(s, t, g);
    }
  }

  /** Each step of the protocol is an arrival, a return that an ideal barrier allows, or
      invisible. */
  lemma StepRefinesIdeal(s: State, t: nat)
    requires Inv(s) && t < |s.threads|
    ensures var v, v' := View(s), View(Step(s, t));
      match s.threads[t].pc
      case Flipped => Arrive(v, v', t)
      case Publishing => Return(v, v', t)
      case Spinning => if Step(s, t) == s then v' == v else Return(v, v', t)
      case _ => v' == v
  {
    ViewOfStep(s, t);
    var th, th' := s.threads[t], Step(s, t).threads[t];
    assert View(s)[t] == Ticket(th.Arrived(), th.done);
    if th'.done > th.done {
      ReturnAllowed(s, t);
    }
  }

  /** One step of the ideal barrier, or none. */
  ghost predicate IdealStep(v: seq<Ticket>, v': seq<Ticket>) {
    v' == v || exists t: nat :: Arrive(v, v', t) || Return(v, v', t)
  }

  /** A run of the ideal barrier by n threads that start with no call made. */
  ghost predicate IdealRun(n: nat, views: seq<seq<Ticket>>) {
    && views != []
    && if |views| == 1 then views[0] == seq(n, _ => Ticket(0, 0))
       else IdealRun(n, views[..|views| - 1]) && IdealStep(views[|views| - 2], views[|views| - 1])
  }

  /** What is seen of a run: the tickets at the start and after each step. */
  ghost function Views(n: nat, sched: Schedule): (r: seq<seq<Ticket>>)
    requires ScheduleOf(n, sched)
    ensures r != [] && r[|r| - 1] == View(Run(n, sched))
  {
    if sched == [] then [View(Init(n))]
    else Views(n, sched[..|sched| - 1]) + [View(Run(n, sched))]
  }

  /** Whatever the schedule, a run of the protocol is a run of the ideal barrier. */
  lemma {:induction false} RunRefinesIdeal(n: nat, sched: Schedule)
    requires n >= 1 && ScheduleOf(n, sched)
    ensures IdealRun(n, Views(n, sched))
  {
    var views := Views(n, sched);
    if sched == [] {
      assert View(Init(n)) == seq(n, _ => Ticket(0, 0));
    } else {
      var before, t := sched[..|sched| - 1], sched[|sched| - 1];
      RunRefinesIdeal(n, before);
      RunKeepsInv(n, before);
      StepIsIdeal(Run(n, before), t);
      assert views[..|views| - 1] == Views(n, before);
    }
  }

  lemma StepIsIdeal(s: State, t: nat)
    requires Inv(s) && t < |s.threads|
    ensures IdealStep(View(s), View(Step(s, t)))
  {
    StepRefinesIdeal(s, t);
    hide View, Step, Inv, Arrive, Return;
  }

  // ----- every thread makes exactly `calls` calls

  /** As `Step`, but a thread that has returned from its last call stays outside. */
  function StepUpTo(calls: nat, s: State, t: nat): (r: State)
    requires t < |s.threads|
    ensures |r.threads| == |s.threads|
  {
    if s.threads[t].pc == Outside && s.threads[t].done >= calls then s else Step(s, t)
  }

  ghost function RunUpTo(calls: nat, s: State, sched: Schedule): (r: State)
    requires ScheduleOf(|s.threads|, sched)
    ensures |r.threads| == |s.threads|
    decreases |sched|
  {
    if sched == [] then s else RunUpTo(calls, StepUpTo(calls, s, sched[0]), sched[1..])
  }

  /** How many steps of the schedule change the state, that is, are not failed spins. */
  ghost function Effective(calls: nat, s: State, sched: Schedule): nat
    requires ScheduleOf(|s.threads|, sched)
    decreases |sched|
  {
    if sched == [] then 0 else
      var s' := StepUpTo(calls, s, sched[0]);
      (if s' == s then 0 else 1) + Effective(calls, s', sched[1..])
  }

  ghost predicate Finished(calls: nat, s: State) {
    forall i :: 0 <= i < |s.threads| ==> s.threads[i].pc == Outside && s.threads[i].done == calls
  }

  ghost predicate Within(calls: nat, s: State, g: nat) {
    && |s.threads| >= 1
    && InPhase(s, g)
    && forall i :: 0 <= i < |s.threads| ==>
         if s.threads[i].pc == Outside then s.threads[i].done <= calls else s.threads[i].done < calls
  }

  /** An unfinished state always has a thread whose next step is not a failed spin. */
  lemma NoDeadlock(calls: nat, s: State, g: nat) returns (t: nat)
    requires Within(calls, s, g) && !Finished(calls, s)
    ensures t < |s.threads| && StepUpTo(calls, s, t) != s
  {
    var n := |s.threads|;
    if i :| 0 <= i < n && (Leading(s.threads[i]) || s.threads[i].pc == Flipped) {
      t := i;
    } else if i :| 0 <= i < n && s.threads[i].pc == Outside && s.threads[i].done < calls {
      t := i;
    } else if i :| 0 <= i < n && s.threads[i].done + 1 == g {
      t := i;
    } else {
      if g < calls {
        forall i | 0 <= i < n ensures Counted(g)(s.threads[i]) == 1 { }
        TotalConstant(Counted(g), s.threads, 1);
      }
      assert false;
    }
  }

  // ----- the exact cost of a complete run

  function Offset(pc: Pc): nat {
    match pc
    case Outside => 0
    case Flipped => 1
    case Spinning => 2
    case Resetting => 2
    case Publishing => 3
  }

  function Cost(): Thread -> int {
    (th: Thread) => 3 * th.done + Offset(th.pc)
  }

  ghost function Spent(s: State, g: nat): int {
    Total(Cost(), s.threads) + g
  }

  lemma StepStaysWithin(calls: nat, s: State, g: nat, t: nat)
    requires Within(calls, s, g) && t < |s.threads|
    requires InPhase(Step(s, t), NextPhase(s.threads[t], g)) && StepUpTo(calls, s, t) != s
    ensures Within(calls, Step(s, t), NextPhase(s.threads[t], g))
  {
    hide InPhase;
  }

  lemma StepCosts(s: State, t: nat, g: nat)
    requires t < |s.threads| && Step(s, t) != s
    ensures Spent(Step(s, t), NextPhase(s.threads[t], g)) == Spent(s, g) + 1
  {
    TotalUpdate(Cost(), s.threads, t, Step(s, t).threads[t]);
  }

  lemma StepSpendsOne(calls: nat, s: State, g: nat, t: nat) returns (g': nat)
    requires Within(calls, s, g) && t < |s.threads|
    ensures var s' := StepUpTo(calls, s, t);
      && Within(calls, s', g')
      && Spent(s', g') == Spent(s, g) + (if s' == s then 0 else 1)
  {
    hide InPhase, Spent, Step;
    var s' := StepUpTo(calls, s, t);
    if s' == s {
      g' := g;
    } else {
      g' := NextPhase(s.threads[t], g);
      StepKeepsPhase(s, t, g);
      StepStaysWithin(calls, s, g, t);
      StepCosts(s, t, g);
    }
  }

  lemma {:induction false} RunSpends(calls: nat, s: State, g: nat, sched: Schedule) returns (g': nat)
    requires Within(calls, s, g) && ScheduleOf(|s.threads|, sched)
    ensures var s' := RunUpTo(calls, s, sched);
      && Within(calls, s', g')
      && Spent(s', g') == Spent(s, g) + Effective(calls, s, sched)
    decreases |sched|
  {
    if sched == [] {
      g' := g;
    } else {
      g' := StepSpendsOne(calls, s, g, sched[0]);
      g' := RunSpends(calls, StepUpTo(calls, s, sched[0]), g', sched[1..]);
    }
  }

  lemma {:induction false} TotalAtMost(w: Thread -> int, ths: seq<Thread>, c: int)
    requires forall i :: 0 <= i < |ths| ==> w(ths[i]) <= c
    ensures Total(w, ths) <= c * |ths|
    ensures Total(w, ths) == c * |ths| ==> forall i :: 0 <= i < |ths| ==> w(ths[i]) == c
  {
    if ths != [] {
      var rest := ths[..|ths| - 1];
      TotalAtMost(w, rest, c);
      assert c * |ths| == c * |rest| + c;
    }
  }

  lemma SpentBound(calls: nat, s: State, g: nat)
    requires Within(calls, s, g)
    ensures Spent(s, g) <= calls * (3 * |s.threads| + 1)
    ensures Spent(s, g) == calls * (3 * |s.threads| + 1) <==> Finished(calls, s)
  {
    var n := |s.threads|;
    TotalAtMost(Cost(), s.threads, 3 * calls);
    assert calls * (3 * n + 1) == 3 * calls * n + calls;
    if Finished(calls, s) {
      TotalConstant(Cost(), s.threads, 3 * calls);
    }
  }

  lemma InitWithin(n: nat, calls: nat)
    requires n >= 1
    ensures Within(calls, Init(n), 0) && Spent(Init(n), 0) == 0
  {
    InitInPhase(n);
    TotalConstant(Cost(), Init(n).threads, 0);
  }

  /** Whatever the schedule, at most calls * (3n + 1) steps are not failed spins, and exactly
      that many have been taken when, and only when, every thread has returned from all its
      calls. */
  lemma CostOfRun(n: nat, calls: nat, sched: Schedule)
    requires n >= 1 && ScheduleOf(n, sched)
    ensures Effective(calls, Init(n), sched) <= calls * (3 * n + 1)
    ensures Effective(calls, Init(n), sched) == calls * (3 * n + 1)
      <==> Finished(calls, RunUpTo(calls, Init(n), sched))
  {
    InitWithin(n, calls);
    var g := RunSpends(calls, Init(n), 0, sched);
    SpentBound(calls, RunUpTo(calls, Init(n), sched), g);
  }

  // ----- fair schedules finish

  ghost predicate Round(n: nat, r: Schedule) {
    ScheduleOf(n, r) && forall t :: 0 <= t < n ==> t in r
  }

  ghost function Flatten(rounds: seq<Schedule>): Schedule {
    if rounds == [] then [] else rounds[0] + Flatten(rounds[1..])
  }

  lemma {:induction false} FlattenSchedule(n: nat, rounds: seq<Schedule>)
    requires forall k :: 0 <= k < |rounds| ==> Round(n, rounds[k])
    ensures ScheduleOf(n, Flatten(rounds))
  {
    if rounds != [] {
      assert Round(n, rounds[0]);
      FlattenSchedule(n, rounds[1..]);
    }
  }

  lemma {:induction false} RunSplit(calls: nat, s: State, a: Schedule, b: Schedule)
    requires ScheduleOf(|s.threads|, a) && ScheduleOf(|s.threads|, b)
    ensures ScheduleOf(|s.threads|, a + b)
    ensures RunUpTo(calls, s, a + b) == RunUpTo(calls, RunUpTo(calls, s, a), b)
    ensures Effective(calls, s, a + b)
      == Effective(calls, s, a) + Effective(calls, RunUpTo(calls, s, a), b)
    decreases |a|
  {
    if a == [] {
      assert a + b == b;
    } else {
      assert (a + b)[1..] == a[1..] + b;
      RunSplit(calls, StepUpTo(calls, s, a[0]), a[1..], b);
    }
  }

  /** A schedule that gives a ready thread a turn is not all failed spins. */
  lemma {:induction false} RoundMakesProgress(calls: nat, s: State, r: Schedule, t: nat)
    requires ScheduleOf(|s.threads|, r) && t in r && StepUpTo(calls, s, t) != s
    ensures Effective(calls, s, r) >= 1
  {
    if StepUpTo(calls, s, r[0]) == s {
      assert t in r[1..];
      RoundMakesProgress(calls, s, r[1..], t);
    }
  }

  lemma {:induction false} RoundsSpend(calls: nat, s: State, g: nat, rounds: seq<Schedule>)
    requires Within(calls, s, g)
    requires forall k :: 0 <= k < |rounds| ==> Round(|s.threads|, rounds[k])
    ensures ScheduleOf(|s.threads|, Flatten(rounds))
    ensures Finished(calls, RunUpTo(calls, s, Flatten(rounds)))
      || Effective(calls, s, Flatten(rounds)) >= |rounds|
    decreases |rounds|
  {
    FlattenSchedule(|s.threads|, rounds);
    if rounds != [] {
      var r, rest := rounds[0], Flatten(rounds[1..]);
      assert Round(|s.threads|, r);
      FlattenSchedule(|s.threads|, rounds[1..]);
      RunSplit(calls, s, r, rest);
      var g' := RunSpends(calls, s, g, r);
      RoundsSpend(calls, RunUpTo(calls, s, r), g', rounds[1..]);
      if Finished(calls, s) {
        FinishedStays(calls, s, Flatten(rounds));
      } else {
        var t := NoDeadlock(calls, s, g);
        RoundMakesProgress(calls, s, r, t);
      }
    }
  }

  lemma {:induction false} FinishedStays(calls: nat, s: State, sched: Schedule)
    requires Finished(calls, s) && ScheduleOf(|s.threads|, sched)
    ensures RunUpTo(calls, s, sched) == s
  {
    if sched != [] {
      FinishedStays(calls, s, sched[1..]);
    }
  }

  /** Liveness: any schedule made of calls * (3n + 1) rounds that each give every thread a
      turn, in any order and any number of times, completes all calls of all threads. */
  lemma FairRunFinishes(n: nat, calls: nat, rounds: seq<Schedule>)
    requires n >= 1 && |rounds| >= calls * (3 * n + 1)
    requires forall k :: 0 <= k < |rounds| ==> Round(n, rounds[k])
    ensures ScheduleOf(n, Flatten(rounds))
    ensures Finished(calls, RunUpTo(calls, Init(n), Flatten(rounds)))
  {
    InitWithin(n, calls);
    RoundsSpend(calls, Init(n), 0, rounds);
    CostOfRun(n, calls, Flatten(rounds));
  }
}
