/** The Towers of Hanoi as a puzzle: pegs of discs, moves, and the recursive solution. */
module Hanoi {
  import opened Arith

  /** Three pegs; the top disc comes first. */
  type Pegs = p: seq<seq<int>> | |p| == 3 witness [[], [], []]
  type Peg = i: nat | i < 3

  datatype Move = Move(src: Peg, dst: Peg)

  predicate Distinct(s: Peg, t: Peg, d: Peg) { s != t && t != d && s != d }

  /** Takes the top disc of one peg to another. From an empty peg there is nothing to take. */
  function Apply(p: Pegs, m: Move): Pegs {
    if p[m.src] == [] then p
    else
      var q := p[m.src := p[m.src][1..]];
      q[m.dst := [p[m.src][0]] + q[m.dst]]
  }

  function Play(p: Pegs, ms: seq<Move>): Pegs
    decreases ms
  {
    if ms == [] then p else Play(Apply(p, ms[0]), ms[1..])
  }

  /** The positions after each of the moves. */
  function Positions(p: Pegs, ms: seq<Move>): (r: seq<Pegs>)
    ensures |r| == |ms|
    decreases ms
  {
    if ms == [] then [] else [Apply(p, ms[0])] + Positions(Apply(p, ms[0]), ms[1..])
  }

  lemma {:induction false} PositionsEnd(p: Pegs, ms: seq<Move>)
    ensures ([p] + Positions(p, ms))[|ms|] == Play(p, ms)
    decreases ms
  {
    if ms != [] { PositionsEnd(Apply(p, ms[0]), ms[1..]); }
  }

  lemma {:induction false} PositionsBoth(p: Pegs, a: seq<Move>, b: seq<Move>)
    ensures Positions(p, a + b) == Positions(p, a) + Positions(Play(p, a), b)
    decreases a
  {
    if a == [] {
      assert a + b == b;
    } else {
      assert (a + b)[1..] == a[1..] + b;
      PositionsBoth(Apply(p, a[0]), a[1..], b);
    }
  }

  /** There is a disc to take, and it is not laid on a smaller one. */
  predicate Legal(p: Pegs, m: Move) {
    p[m.src] != [] && m.src != m.dst && (p[m.dst] == [] || p[m.src][0] < p[m.dst][0])
  }

  predicate LegalRun(p: Pegs, ms: seq<Move>)
    decreases ms
  {
    ms == [] || (Legal(p, ms[0]) && LegalRun(Apply(p, ms[0]), ms[1..]))
  }

  lemma {:induction false} PlayBoth(p: Pegs, a: seq<Move>, b: seq<Move>)
    ensures Play(p, a + b) == Play(Play(p, a), b)
    ensures LegalRun(p, a) && LegalRun(Play(p, a), b) ==> LegalRun(p, a + b)
    decreases a
  {
    if a == [] {
      assert a + b == b;
    } else {
      assert (a + b)[1..] == a[1..] + b;
      PlayBoth(Apply(p, a[0]), a[1..], b);
    }
  }

  /** The moves of `towers_solve_h`. */
  function Solution(n: nat, s: Peg, t: Peg, d: Peg): seq<Move>
    requires n >= 1
  {
    if n == 1 then [Move(s, d)]
    else Solution(n - 1, s, d, t) + [Move(s, d)] + Solution(n - 1, t, s, d)
  }

  lemma {:induction false} SolutionLength(n: nat, s: Peg, t: Peg, d: Peg)
    requires n >= 1
    ensures |Solution(n, s, t, d)| == Pow2(n) - 1
  {
    if n > 1 {
      SolutionLength(n - 1, s, d, t);
      SolutionLength(n - 1, t, s, d);
    } else {
      assert Pow2(1) == 2 * Pow2(0);
    }
  }

  function Transferred(p: Pegs, n: nat, s: Peg, d: Peg): Pegs
    requires n <= |p[s]| && s != d
  {
    p[s := p[s][n..]][d := p[s][..n] + p[d]]
  }

  /** The solution takes the top n discs from s to d in their order, whatever they are. */
  lemma {:induction false} SolutionTransfers(p: Pegs, n: nat, s: Peg, t: Peg, d: Peg)
    requires 1 <= n <= |p[s]| && Distinct(s, t, d)
    ensures Play(p, Solution(n, s, t, d)) == Transferred(p, n, s, d)
    decreases n
  {
    if n > 1 {
      SolutionSplits(p, n, s, t, d);
      SolutionTransfers(p, n - 1, s, d, t);
      var q := Apply(Transferred(p, n - 1, s, t), Move(s, d));
      ThreeMoves(p, n, s, t, d);
      SolutionTransfers(q, n - 1, t, s, d);
    } else {
      OneMove(p, Move(s, d));
      assert [p[s][0]] == p[s][..1];
    }
  }

  lemma SolutionSplits(p: Pegs, n: nat, s: Peg, t: Peg, d: Peg)
    requires n > 1
    ensures var q := Play(p, Solution(n - 1, s, d, t));
      Play(p, Solution(n, s, t, d)) == Play(Apply(q, Move(s, d)), Solution(n - 1, t, s, d))
  {
    var a, m, b := Solution(n - 1, s, d, t), [Move(s, d)], Solution(n - 1, t, s, d);
    PlayBoth(p, a + m, b);
    PlayBoth(p, a, m);
    OneMove(Play(p, a), Move(s, d));
  }

  lemma ThreeMoves(p: Pegs, n: nat, s: Peg, t: Peg, d: Peg)
    requires 1 < n <= |p[s]| && Distinct(s, t, d)
    ensures var q := Apply(Transferred(p, n - 1, s, t), Move(s, d));
      n - 1 <= |q[t]| && Transferred(q, n - 1, t, d) == Transferred(p, n, s, d)
  {
    var p1 := Transferred(p, n - 1, s, t);
    var q := Apply(p1, Move(s, d));
    assert p1[s][0] == p[s][n - 1] && p1[s][1..] == p[s][n..];
    assert q[t][..n - 1] == p[s][..n - 1] && q[t][n - 1..] == p[t];
    assert p[s][..n - 1] + ([p[s][n - 1]] + p[d]) == p[s][..n] + p[d];
  }

  predicate Increasing(x: seq<int>) { forall i, j :: 0 <= i < j < |x| ==> x[i] < x[j] }

  predicate AllBelow(x: seq<int>, y: seq<int>) { forall i, j :: 0 <= i < |x| && 0 <= j < |y| ==> x[i] < y[j] }

  predicate Ordered(p: Pegs) { forall i: Peg :: Increasing(p[i]) }

  /** The top n discs of s are a tower smaller than everything it may be laid on. */
  predicate Movable(p: Pegs, n: nat, s: Peg, t: Peg, d: Peg) {
    n <= |p[s]| && Increasing(p[s][..n])
    && AllBelow(p[s][..n], p[s][n..]) && AllBelow(p[s][..n], p[t]) && AllBelow(p[s][..n], p[d])
  }

  /** No move of the solution lays a disc on a smaller one. */
  lemma {:induction false} SolutionIsLegal(p: Pegs, n: nat, s: Peg, t: Peg, d: Peg)
    requires 1 <= n && Distinct(s, t, d) && Movable(p, n, s, t, d)
    ensures LegalRun(p, Solution(n, s, t, d))
    decreases n
  {
    if n > 1 {
      var a, m, b := Solution(n - 1, s, d, t), [Move(s, d)], Solution(n - 1, t, s, d);
      var p1 := Transferred(p, n - 1, s, t);
      var q := Apply(p1, Move(s, d));
      SubtowerMovable(p, n, s, t, d);
      SolutionIsLegal(p, n - 1, s, d, t);
      SolutionTransfers(p, n - 1, s, d, t);
      SolutionIsLegal(q, n - 1, t, s, d);
      OneMove(p1, Move(s, d));
      PlayBoth(p, a, m);
      PlayBoth(p, a + m, b);
    } else {
      OneMove(p, Move(s, d));
      assert p[s][..1][0] == p[s][0];
    }
  }

  lemma OneMove(p: Pegs, m: Move)
    ensures Play(p, [m]) == Apply(p, m) && (Legal(p, m) ==> LegalRun(p, [m]))
  {
    assert [m][1..] == [];
  }

  lemma SubtowerMovable(p: Pegs, n: nat, s: Peg, t: Peg, d: Peg)
    requires 1 < n && Distinct(s, t, d) && Movable(p, n, s, t, d)
    ensures Movable(p, n - 1, s, d, t)
    ensures var p1 := Transferred(p, n - 1, s, t);
      Legal(p1, Move(s, d)) && Movable(Apply(p1, Move(s, d)), n - 1, t, s, d)
  {
    var x := p[s][..n];
    var p1 := Transferred(p, n - 1, s, t);
    var q := Apply(p1, Move(s, d));
    var y := x[..n - 1];
    assert y == p[s][..n - 1] && p1[s] == [x[n - 1]] + p[s][n..] && p[s][n - 1..] == [x[n - 1]] + p[s][n..];
    assert q[t] == y + p[t] && q[s] == p[s][n..] && q[d] == [x[n - 1]] + p[d];
    assert q[t][..n - 1] == y && q[t][n - 1..] == p[t];
    assert AllBelow(y, [x[n - 1]]);
  }

  /** Legal play never leaves a disc above a smaller one, at any point of it. */
  lemma {:induction false} LegalKeepsOrder(p: Pegs, ms: seq<Move>, k: nat)
    requires Ordered(p) && LegalRun(p, ms) && k <= |ms|
    ensures Ordered(Play(p, ms[..k]))
    decreases k
  {
    if k > 0 {
      var q := Apply(p, ms[0]);
      forall i: Peg ensures Increasing(q[i]) {
        assert Increasing(p[i]) && Increasing(p[ms[0].src]);
      }
      assert ms[..k][1..] == ms[1..][..k - 1];
      LegalKeepsOrder(q, ms[1..], k - 1);
    }
  }

  /** Discs 1 to n, the smallest on top. */
  function Tower(n: nat): (r: seq<int>)
    ensures |r| == n && forall i :: 0 <= i < n ==> r[i] == i + 1
  {
    seq(n, i => i + 1)
  }

  /** A solution played from start, with the position before the first move and after each one:
      every move is legal, and no disc ever lies on a smaller one. */
  ghost predicate SafeGame(log: seq<Move>, seen: seq<Pegs>) {
    && |seen| == |log| + 1
    && (forall k :: 0 <= k < |seen| ==> Ordered(seen[k]))
    && (forall k :: 0 <= k < |log| ==> Legal(seen[k], log[k]) && seen[k + 1] == Apply(seen[k], log[k]))
  }

  lemma {:induction false} LegalRunIsSafe(p: Pegs, ms: seq<Move>)
    requires Ordered(p) && LegalRun(p, ms)
    ensures SafeGame(ms, [p] + Positions(p, ms))
    decreases ms
  {
    if ms != [] {
      var q := Apply(p, ms[0]);
      LegalKeepsOrder(p, ms, 1);
      OneMove(p, ms[0]);
      assert ms[..1] == [ms[0]];
      LegalRunIsSafe(q, ms[1..]);
      var seen, rest := [p] + Positions(p, ms), [q] + Positions(q, ms[1..]);
      assert seen == [p] + rest;
      forall k | 0 <= k < |ms| ensures Legal(seen[k], ms[k]) && seen[k + 1] == Apply(seen[k], ms[k]) {
        if k > 0 { assert Legal(rest[k - 1], ms[1..][k - 1]); }
      }
    }
  }

  lemma TowerOrdered(n: nat)
    ensures Ordered([Tower(n), [], []])
  {
  }

  /** The whole puzzle: 2^n - 1 moves, never a disc on a smaller one, the tower from peg 0 to peg 2. */
  lemma PuzzleSolved(n: nat)
    requires n >= 1
    ensures var start: Pegs, ms := [Tower(n), [], []], Solution(n, 0, 1, 2);
      |ms| == Pow2(n) - 1 && LegalRun(start, ms) && Play(start, ms) == [[], [], Tower(n)]
      && forall k :: 0 <= k <= |ms| ==> Ordered(Play(start, ms[..k]))
  {
    var start: Pegs, ms := [Tower(n), [], []], Solution(n, 0, 1, 2);
    assert start[0][..n] == Tower(n) && start[0][n..] == [];
    hide Play, LegalRun, Solution;
    SolutionLength(n, 0, 1, 2);
    SolutionIsLegal(start, n, 0, 1, 2);
    SolutionTransfers(start, n, 0, 1, 2);
    assert Transferred(start, n, 0, 2)[2] == Tower(n) + [] == Tower(n);
    forall k | 0 <= k <= |ms| ensures Ordered(Play(start, ms[..k])) {
      LegalKeepsOrder(start, ms, k);
    }
  }
}
