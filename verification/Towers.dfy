/** `benchmarks/towers`: pegs as linked lists that share one free list over a fixed pool of nodes. */
module Towers {
  import opened Arith
  import opened Hanoi

  class Node {
    var val: int
    var next: Node?
  }

  ghost predicate Chain(head: Node?, nodes: seq<Node>)
    reads nodes`next
  {
    if nodes == [] then head == null
    else head == nodes[0] && Chain(nodes[0].next, nodes[1..])
  }

  ghost function Vals(nodes: seq<Node>): (r: seq<int>)
    reads nodes`val
    ensures |r| == |nodes|
  {
    if nodes == [] then [] else [nodes[0].val] + Vals(nodes[1..])
  }

  class List {
    var size: int
    var head: Node?
    ghost var nodes: seq<Node>

    /** `list_init` */
    method Init()
      modifies this
      ensures size == 0 && nodes == [] && Chain(head, nodes)
    {
      size, head, nodes := 0, null, [];
    }

    /** `list_push`: the first free node becomes the head. */
    method Push(free: List, val: int)
      requires free != this && free.nodes != [] && Chain(free.head, free.nodes) && Chain(head, nodes)
      requires free.nodes[0] !in free.nodes[1..] && free.nodes[0] !in nodes
      modifies this, free, free.head
      ensures free.nodes == old(free.nodes[1..]) && nodes == [old(free.nodes[0])] + old(nodes)
      ensures Chain(free.head, free.nodes) && Chain(head, nodes)
      ensures Vals(nodes) == [val] + old(Vals(nodes)) && size == old(size) + 1
    {
      var newNode := free.head;
      free.head := free.head.next;
      ghost var was := nodes;
      free.nodes, nodes := free.nodes[1..], [newNode] + nodes;
      newNode.next := head;
      head := newNode;
      head.val := val;
      size := size + 1;
      assert nodes[1..] == was;
    }

    /** `list_pop`: the head goes back to the front of the free list. */
    method Pop(free: List) returns (val: int)
      requires free != this && nodes != [] && Chain(free.head, free.nodes) && Chain(head, nodes)
      requires nodes[0] !in nodes[1..] && nodes[0] !in free.nodes
      modifies this, free, head`next
      ensures free.nodes == [old(nodes[0])] + old(free.nodes) && nodes == old(nodes[1..])
      ensures Chain(free.head, free.nodes) && Chain(head, nodes)
      ensures [val] + Vals(nodes) == old(Vals(nodes)) && size == old(size) - 1
    {
      val := head.val;
      var freedNode := head;
      head := head.next;
      ghost var was := free.nodes;
      free.nodes, nodes := [freedNode] + free.nodes, nodes[1..];
      freedNode.next := free.head;
      free.head := freedNode;
      size := size - 1;
      assert free.nodes[1..] == was;
    }
  }

  /** The free list and three pegs share out the pool: every node is on exactly one of them. */
  ghost predicate Shared(pool: set<Node>, f: List, a: List, b: List, c: List)
    reads f, a, b, c, f.nodes`next, a.nodes`next, b.nodes`next, c.nodes`next
  {
    && f != a && f != b && f != c && a != b && a != c && b != c
    && Chain(f.head, f.nodes) && Chain(a.head, a.nodes) && Chain(b.head, b.nodes) && Chain(c.head, c.nodes)
    && a.size == |a.nodes| && b.size == |b.nodes| && c.size == |c.nodes|
    && multiset(f.nodes) + multiset(a.nodes) + multiset(b.nodes) + multiset(c.nodes) == multiset(pool)
  }

  lemma Apart(pool: set<Node>, f: seq<Node>, a: seq<Node>, b: seq<Node>, c: seq<Node>)
    requires multiset(f) + multiset(a) + multiset(b) + multiset(c) == multiset(pool) && a != []
    ensures a[0] in pool && a[0] !in a[1..] && a[0] !in f && a[0] !in b && a[0] !in c
  {
    HeadCounted(a);
    assert multiset(pool)[a[0]] <= 1;
    assert multiset(f)[a[0]] + multiset(a)[a[0]] + multiset(b)[a[0]] + multiset(c)[a[0]] == multiset(pool)[a[0]];
  }

  lemma HeadCounted(s: seq<Node>)
    requires s != []
    ensures multiset(s) == multiset{s[0]} + multiset(s[1..])
    ensures multiset(s)[s[0]] == 1 + multiset(s[1..])[s[0]]
  {
    assert s == [s[0]] + s[1..];
  }

  lemma NodeMoves(pool: set<Node>, f: seq<Node>, a: seq<Node>, b: seq<Node>, c: seq<Node>)
    requires multiset(f) + multiset(a) + multiset(b) + multiset(c) == multiset(pool) && a != []
    ensures multiset(f) + multiset(a[1..]) + multiset(b) + multiset([a[0]] + c) == multiset(pool)
  {
    HeadCounted(a);
  }

  lemma HeadIs(head: Node?, nodes: seq<Node>)
    requires Chain(head, nodes) && nodes != []
    ensures head == nodes[0]
  {
  }

  /** What lies on the three pegs, whichever of them plays which part. */
  ghost function Table(s: Peg, start: List, t: Peg, temp: List, d: Peg, dest: List): (p: Pegs)
    requires Distinct(s, t, d)
    reads start, temp, dest, start.nodes`val, temp.nodes`val, dest.nodes`val
    ensures p[s] == Vals(start.nodes) && p[t] == Vals(temp.nodes) && p[d] == Vals(dest.nodes)
  {
    [[], [], []][s := Vals(start.nodes)][t := Vals(temp.nodes)][d := Vals(dest.nodes)]
  }

  lemma TableMoved(p: Pegs, q: Pegs, s: Peg, t: Peg, d: Peg)
    requires Distinct(s, t, d) && p[s] != []
    requires q[s] == p[s][1..] && q[t] == p[t] && q[d] == [p[s][0]] + p[d]
    ensures q == Apply(p, Move(s, d))
  {
  }

  lemma OneRun(p: Pegs, s: Peg, t: Peg, d: Peg)
    ensures Solution(1, s, t, d) == [Move(s, d)] && Play(p, [Move(s, d)]) == Apply(p, Move(s, d))
    ensures Positions(p, [Move(s, d)]) == [Apply(p, Move(s, d))]
  {
    OneMove(p, Move(s, d));
  }

  lemma TableHolds(s: Peg, start: List, t: Peg, temp: List, d: Peg, dest: List)
    requires Distinct(s, t, d)
    ensures var p := Table(s, start, t, temp, d, dest);
      p[s] == Vals(start.nodes) && p[t] == Vals(temp.nodes) && p[d] == Vals(dest.nodes)
  {
  }

  lemma AnyOrder(pool: set<Node>, f: List, start: List, temp: List, dest: List)
    requires Shared(pool, f, start, temp, dest)
    ensures Shared(pool, f, start, dest, temp) && Shared(pool, f, temp, start, dest)
  {
    hide Chain, Vals;
  }

  lemma ThreeRuns(p: Pegs, n: nat, s: Peg, t: Peg, d: Peg)
    requires n > 1
    ensures var a, b, c := Solution(n - 1, s, d, t), Solution(1, s, t, d), Solution(n - 1, t, s, d);
      && Solution(n, s, t, d) == a + b + c && Play(p, a + b + c) == Play(Play(Play(p, a), b), c)
      && Positions(p, a + b + c) == Positions(p, a) + Positions(Play(p, a), b) + Positions(Play(Play(p, a), b), c)
  {
    var a, b, c := Solution(n - 1, s, d, t), Solution(1, s, t, d), Solution(n - 1, t, s, d);
    PositionsBoth(p, a + b, c);
    PositionsBoth(p, a, b);
    PlayBoth(p, a, b);
    hide Positions;
    SolutionSplits(p, n, s, t, d);
    OneMove(Play(p, Solution(n - 1, s, d, t)), Move(s, d));
  }

  class Game {
    var numDiscs: nat
    var numMoves: int
    ghost var log: seq<Move>
    ghost var seen: seq<Pegs>
    const pegA: List
    const pegB: List
    const pegC: List

    constructor ()
      ensures fresh(pegA) && fresh(pegB) && fresh(pegC) && pegA != pegB && pegB != pegC && pegA != pegC
    {
      pegA, pegB, pegC := new List, new List, new List;
    }

    /** Peg number i. */
    ghost function PegAt(i: Peg): List { if i == 0 then pegA else if i == 1 then pegB else pegC }

    ghost predicate Seated(s: Peg, start: List, t: Peg, temp: List, d: Peg, dest: List) {
      Distinct(s, t, d) && start == PegAt(s) && temp == PegAt(t) && dest == PegAt(d)
    }

    /** The three pegs as the puzzle sees them. */
    ghost function Discs(): Pegs
      reads pegA, pegB, pegC, pegA.nodes`val, pegB.nodes`val, pegC.nodes`val
    {
      Table(0, pegA, 1, pegB, 2, pegC)
    }

    lemma DiscsAre(s: Peg, start: List, t: Peg, temp: List, d: Peg, dest: List)
      requires Seated(s, start, t, temp, d, dest)
      ensures Discs() == Table(s, start, t, temp, d, dest)
    {
      hide Vals;
    }

    /** A disc travels with its node. */
    method CarryDisc(free: List, start: List, temp: List, dest: List, ghost pool: set<Node>)
      requires Shared(pool, free, start, temp, dest) && start.nodes != []
      modifies free, start, dest, pool
      ensures Shared(pool, free, start, temp, dest) && free.nodes == old(free.nodes)
      ensures Vals(start.nodes) == old(Vals(start.nodes)[1..]) && Vals(temp.nodes) == old(Vals(temp.nodes))
      ensures Vals(dest.nodes) == [old(Vals(start.nodes)[0])] + old(Vals(dest.nodes))
    {
      hide Chain, Vals;
      ghost var f, a, b, c := free.nodes, start.nodes, temp.nodes, dest.nodes;
      Apart(pool, f, a, b, c);
      NodeMoves(pool, f, a, b, c);
      HeadIs(start.head, a);
      var val := start.Pop(free);
      HeadIs(free.head, free.nodes);
      dest.Push(free, val);
      assert free.nodes == f && start.nodes == a[1..] && dest.nodes == [a[0]] + c;
    }

    /** The move of `towers_solve_h` for one disc; the position it leaves is written down from the pegs. */
    method MoveDisc(free: List, start: List, temp: List, dest: List, ghost pool: set<Node>, ghost m: Move, ghost t: Peg)
      requires Shared(pool, free, start, temp, dest) && start.nodes != []
      requires Seated(m.src, start, t, temp, m.dst, dest)
      modifies this`numMoves, this`log, this`seen, free, start, dest, pool
      ensures Shared(pool, free, start, temp, dest) && free.nodes == old(free.nodes) && numMoves == old(numMoves) + 1
      ensures Discs() == Apply(old(Discs()), m)
      ensures log == old(log) + [m] && seen == old(seen) + [Discs()]
      ensures |start.nodes| == old(|start.nodes|) - 1 && |temp.nodes| == old(|temp.nodes|)
      ensures |dest.nodes| == old(|dest.nodes|) + 1
    {
      hide Chain, Vals, Discs, Table, Shared;
      ghost var was := Discs();
      DiscsAre(m.src, start, t, temp, m.dst, dest);
      TableHolds(m.src, start, t, temp, m.dst, dest);
      CarryDisc(free, start, temp, dest, pool);
      TableHolds(m.src, start, t, temp, m.dst, dest);
      DiscsAre(m.src, start, t, temp, m.dst, dest);
      TableMoved(was, Discs(), m.src, t, m.dst);
      assert m == Move(m.src, m.dst);
      numMoves, log, seen := numMoves + 1, log + [m], seen + [Discs()];
    }

    /** `towers_solve_h` */
    method SolveH(free: List, n: nat, start: List, temp: List, dest: List, ghost pool: set<Node>, ghost s: Peg, ghost t: Peg, ghost d: Peg)
      requires Shared(pool, free, start, temp, dest) && 1 <= n <= |start.nodes| && Seated(s, start, t, temp, d, dest)
      modifies this`numMoves, this`log, this`seen, free, start, temp, dest, pool
      ensures Shared(pool, free, start, temp, dest) && free.nodes == old(free.nodes)
      ensures Discs() == Play(old(Discs()), Solution(n, s, t, d))
      ensures seen == old(seen) + Positions(old(Discs()), Solution(n, s, t, d))
      ensures numMoves == old(numMoves) + |Solution(n, s, t, d)| && log == old(log) + Solution(n, s, t, d)
      ensures |start.nodes| == old(|start.nodes|) - n && |temp.nodes| == old(|temp.nodes|) && |dest.nodes| == old(|dest.nodes|) + n
      decreases n
    {
      hide Chain, Vals, Play, Positions, Solution, Apply, Shared, Discs;
      ghost var was := Discs();
      if n == 1 {
        MoveDisc(free, start, temp, dest, pool, Move(s, d), t);
        OneRun(was, s, t, d);
      } else {
        AnyOrder(pool, free, start, temp, dest);
        SolveH(free, n - 1, start, dest, temp, pool, s, d, t);
        AnyOrder(pool, free, start, dest, temp);
        SolveH(free, 1, start, temp, dest, pool, s, t, d);
        AnyOrder(pool, free, start, temp, dest);
        SolveH(free, n - 1, temp, start, dest, pool, t, s, d);
        AnyOrder(pool, free, temp, start, dest);
        ThreeRuns(was, n, s, t, d);
      }
    }

    ghost predicate Playing(free: List, pool: set<Node>)
      reads free, pegA, pegB, pegC, free.nodes`next, pegA.nodes`next, pegB.nodes`next, pegC.nodes`next
    {
      Shared(pool, free, pegA, pegB, pegC)
    }

    method StackDisc(free: List, disc: int, ghost pool: set<Node>)
      requires Playing(free, pool) && free.nodes != []
      modifies free, pegA, pool
      ensures Playing(free, pool) && |free.nodes| == old(|free.nodes|) - 1
      ensures Vals(pegA.nodes) == [disc] + old(Vals(pegA.nodes))
      ensures Vals(pegB.nodes) == old(Vals(pegB.nodes)) && Vals(pegC.nodes) == old(Vals(pegC.nodes))
    {
      hide Chain, Vals;
      ghost var f, a := free.nodes, pegA.nodes;
      Apart(pool, a, f, pegB.nodes, pegC.nodes);
      NodeMoves(pool, pegB.nodes, f, pegC.nodes, a);
      HeadIs(free.head, f);
      pegA.Push(free, disc);
      assert free.nodes == f[1..] && pegA.nodes == [f[0]] + a;
    }

    method Forget(free: List, n: nat, ghost pool: set<Node>)
      requires Chain(free.head, free.nodes) && multiset(free.nodes) == multiset(pool)
      requires free != pegA && free != pegB && free != pegC && pegA != pegB && pegB != pegC && pegA != pegC
      modifies this, pegA, pegB, pegC
      ensures Playing(free, pool) && numDiscs == n && numMoves == 0 && log == [] && seen == []
      ensures pegA.nodes == pegB.nodes == pegC.nodes == []
    {
      hide Chain;
      numDiscs, numMoves, log, seen := n, 0, [], [];
      pegA.Init();
      pegB.Init();
      pegC.Init();
    }

    /** `towers_init`: forgets the pegs, and stacks n discs from the free nodes. */
    method Init(free: List, n: nat, ghost pool: set<Node>)
      requires Chain(free.head, free.nodes) && multiset(free.nodes) == multiset(pool) && n <= |free.nodes|
      requires free != pegA && free != pegB && free != pegC && pegA != pegB && pegB != pegC && pegA != pegC
      modifies this, free, pegA, pegB, pegC, pool
      ensures Playing(free, pool) && Discs() == [Tower(n), [], []]
      ensures numDiscs == n && numMoves == 0 && log == [] && seen == [Discs()]
    {
      hide Chain, Vals, Table, Playing;
      Forget(free, n, pool);
      NoVals();
      for i := 0 to n
        invariant Playing(free, pool) && numDiscs == n && numMoves == 0 && log == []
        invariant |free.nodes| >= n - i
        invariant Vals(pegA.nodes) == Tower(n)[n - i..] && Vals(pegB.nodes) == [] && Vals(pegC.nodes) == []
      {
        StackDisc(free, n - i, pool);
        NextDisc(n, i);
      }
      TableHolds(0, pegA, 1, pegB, 2, pegC);
      seen := [Discs()];
    }

    /** One turn of the loop in `list_clear`. */
    method FreeTop(free: List, a: List, b: List, c: List, ghost pool: set<Node>)
      requires Shared(pool, free, a, b, c) && a.nodes != []
      modifies free, a, pool
      ensures Shared(pool, free, a, b, c) && a.nodes == old(a.nodes[1..])
    {
      hide Chain, Vals;
      ghost var f, x := free.nodes, a.nodes;
      Apart(pool, f, x, b.nodes, c.nodes);
      NodeMoves(pool, b.nodes, x, c.nodes, f);
      HeadIs(a.head, x);
      var _ := a.Pop(free);
      assert free.nodes == [x[0]] + f && a.nodes == x[1..];
    }

    /** `list_clear` for the peg a. */
    method ClearPeg(free: List, a: List, b: List, c: List, ghost pool: set<Node>)
      requires Shared(pool, free, a, b, c)
      modifies free, a, pool
      ensures Shared(pool, free, a, b, c) && a.nodes == []
    {
      hide Chain;
      while a.size > 0
        invariant Shared(pool, free, a, b, c) && b.nodes == old(b.nodes) && c.nodes == old(c.nodes)
        decreases |a.nodes|
      {
        FreeTop(free, a, b, c, pool);
      }
    }

    /** `towers_clear` */
    method Clear(free: List, ghost pool: set<Node>)
      requires Playing(free, pool) && numDiscs <= |pool|
      modifies this, free, pegA, pegB, pegC, pool
      ensures Playing(free, pool) && Discs() == [Tower(numDiscs), [], []]
      ensures numDiscs == old(numDiscs) && numMoves == 0 && log == [] && seen == [Discs()]
    {
      hide Chain, Vals, Tower, Table;
      ClearPeg(free, pegA, pegB, pegC, pool);
      ClearPeg(free, pegB, pegA, pegC, pool);
      ClearPeg(free, pegC, pegA, pegB, pool);
      assert multiset(free.nodes) == multiset(pool);
      assert |free.nodes| == |multiset(free.nodes)| == |multiset(pool)| == |pool|;
      Init(free, numDiscs, pool);
    }

    /** `towers_solve`, from the position that `towers_init` sets up: 2^n - 1 moves carry the tower to
        the third peg, and whenever the pegs are looked at between two of them they are in order. */
    method Solve(free: List, ghost pool: set<Node>)
      requires Playing(free, pool) && numDiscs >= 1 && Discs() == [Tower(numDiscs), [], []]
      requires numMoves == 0 && log == [] && seen == [Discs()]
      modifies this`numMoves, this`log, this`seen, free, pegA, pegB, pegC, pool
      ensures Playing(free, pool) && Discs() == [[], [], Tower(numDiscs)] && numMoves == Pow2(numDiscs) - 1
      ensures log == Solution(numDiscs, 0, 1, 2) && |log| == numMoves
      ensures SafeGame(log, seen) && seen[0] == old(Discs()) && seen[|log|] == Discs()
    {
      hide Chain, Vals, Play, Positions, Solution, LegalRun, Ordered, SafeGame;
      ghost var was, ms := Discs(), Solution(numDiscs, 0, 1, 2);
      PuzzleSolved(numDiscs);
      TowerOrdered(numDiscs);
      LegalRunIsSafe(was, ms);
      PositionsEnd(was, ms);
      SolveH(free, numDiscs, pegA, pegB, pegC, pool, 0, 1, 2);
    }

    /** `towers_verify` */
    method Verify(free: List, ghost pool: set<Node>) returns (code: int)
      requires Playing(free, pool)
      ensures code == 0 <==> Discs() == [[], [], Tower(numDiscs)] && numMoves == Pow2(numDiscs) - 1
      ensures code == 2 <==> Discs()[0] != []
      ensures code == 3 <==> Discs()[0] == [] && Discs()[1] != []
      ensures code == 4 <==> Discs()[0] == [] && Discs()[1] == [] && |Discs()[2]| != numDiscs
      ensures code == 5 <==> Discs()[0] == [] && Discs()[1] == [] && |Discs()[2]| == numDiscs && Discs()[2] != Tower(numDiscs)
      ensures code in {0, 2, 3, 4, 5, 6}
    {
      hide Chain, Vals, Table;
      TableHolds(0, pegA, 1, pegB, 2, pegC);
      if pegA.size != 0 { return 2; }
      if pegB.size != 0 { return 3; }
      if pegC.size != numDiscs { return 4; }
      ghost var c := pegC.nodes;
      var ptr, count := pegC.head, 0;
      assert c[0..] == c;
      while ptr != null
        invariant 0 <= count <= |c| && Chain(ptr, c[count..])
        invariant Vals(c)[..count] == Tower(numDiscs)[..count]
        decreases |c| - count
      {
        ChainStep(ptr, c[count..]);
        ValAt(c, count);
        count := count + 1;
        if ptr.val != count { return 5; }
        ptr := ptr.next;
        assert c[count - 1..][1..] == c[count..];
      }
      ChainEnds(c[count..]);
      assert Vals(c)[..count] == Vals(c) && Tower(numDiscs)[..count] == Tower(numDiscs);
      assert Discs() == [Discs()[0], Discs()[1], Discs()[2]];
      if numMoves != Pow2(numDiscs) - 1 { return 6; }
      return 0;
    }
  }

  lemma ChainStep(ptr: Node?, nodes: seq<Node>)
    requires Chain(ptr, nodes) && ptr != null
    ensures nodes != [] && ptr == nodes[0] && Chain(ptr.next, nodes[1..])
  {
  }

  lemma ChainEnds(nodes: seq<Node>)
    requires Chain(null, nodes)
    ensures nodes == []
  {
  }

  lemma {:induction false} ValAt(nodes: seq<Node>, k: nat)
    requires k < |nodes|
    ensures Vals(nodes)[k] == nodes[k].val
  {
    if k > 0 {
      ValAt(nodes[1..], k - 1);
    }
  }

  lemma NoVals()
    ensures Vals([]) == []
  {
  }

  lemma NextDisc(n: nat, i: nat)
    requires i < n
    ensures [n - i] + Tower(n)[n - i..] == Tower(n)[n - i - 1..]
  {
  }

  lemma {:induction false} LinksChain(nodes: seq<Node>, k: nat)
    requires k <= |nodes|
    requires forall i :: 0 <= i < |nodes| ==> nodes[i].next == NodeAt(nodes, i + 1)
    ensures Chain(NodeAt(nodes, k), nodes[k..])
    decreases |nodes| - k
  {
    if k < |nodes| {
      LinksChain(nodes, k + 1);
      assert nodes[k..][1..] == nodes[k + 1..];
    }
  }

  function NodeAt(nodes: seq<Node>, i: nat): Node? {
    if i < |nodes| then nodes[i] else null
  }

  /** The first part of `main`: n nodes, linked into the free list. */
  method MakePool(n: nat) returns (free: List, ghost pool: set<Node>)
    requires n >= 1
    ensures fresh(free) && fresh(pool) && |pool| == n
    ensures Chain(free.head, free.nodes) && multiset(free.nodes) == multiset(pool) && |free.nodes| == n
  {
    var nodes: seq<Node> := [];
    for i := 0 to n
      invariant |nodes| == i && fresh(nodes) && forall j, k :: 0 <= j < k < i ==> nodes[j] != nodes[k]
    {
      var node := new Node;
      nodes := nodes + [node];
    }
    free := new List;
    free.Init();
    free.head, free.size := nodes[0], n;
    nodes[n - 1].next, nodes[n - 1].val := null, 99;
    for i := 0 to n - 1
      invariant nodes[n - 1].next == null && free.head == nodes[0]
      invariant forall j :: 0 <= j < i ==> nodes[j].next == NodeAt(nodes, j + 1)
    {
      nodes[i].next, nodes[i].val := nodes[i + 1], i;
    }
    free.nodes := nodes;
    LinksChain(nodes, 0);
    assert nodes[0..] == nodes;
    pool := set x | x in nodes;
    DistinctPool(nodes, pool);
  }

  lemma {:induction false} DistinctPool(nodes: seq<Node>, pool: set<Node>)
    requires forall j, k :: 0 <= j < k < |nodes| ==> nodes[j] != nodes[k]
    requires forall x :: x in pool <==> x in nodes
    ensures multiset(nodes) == multiset(pool) && |pool| == |nodes|
  {
    if nodes == [] {
      assert pool == {};
    } else {
      HeadCounted(nodes);
      DistinctPool(nodes[1..], pool - {nodes[0]});
      assert multiset(pool) == multiset(pool - {nodes[0]}) + multiset{nodes[0]};
    }
  }

  /** `main`, with or without the warm-up run: always 0; the timed run makes the 2^n - 1 moves of the
      solution, each of them legal on the pegs as they are, and never has a disc on a smaller one. */
  method Benchmark(n: nat, preallocate: bool) returns (code: int, ghost log: seq<Move>, ghost seen: seq<Pegs>)
    requires n >= 1
    ensures code == 0
    ensures log == Solution(n, 0, 1, 2) && |log| == Pow2(n) - 1 && SafeGame(log, seen)
    ensures seen[0] == [Tower(n), [], []] && seen[|log|] == [[], [], Tower(n)]
  {
    hide Chain, Vals, Table, Shared, Play, Solution, LegalRun, Ordered, SafeGame;
    ghost var pool;
    var free;
    free, pool := MakePool(n);
    var towers := new Game();
    towers.Init(free, n, pool);
    if preallocate {
      towers.Solve(free, pool);
    }
    towers.Clear(free, pool);
    towers.Solve(free, pool);
    log, seen := towers.log, towers.seen;
    code := towers.Verify(free, pool);
  }
}
