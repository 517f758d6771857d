/** `core_state.c`: the scanner over a block of memory, and the benchmark that scans it,
    corrupts it, scans it again and undoes the corruption. */
module StateMachine {
  import opened Arith
  import opened BitOps
  import opened MachineTypes
  import opened Tokens
  import Crc = Crc16

  // ----- core_state_transition

  function Slot(s: State): (i: nat)
    ensures i < 8
  {
    match s
    case Start => 0
    case Invalid => 1
    case S1 => 2
    case S2 => 3
    case Int => 4
    case Float => 5
    case Exponent => 6
    case Scientific => 7
  }

  type Counts = c: seq<nat> | |c| == 8 witness seq(8, _ => 0)

  function Bumped(c: Counts, s: State): Counts { c[Slot(s) := c[Slot(s)] + 1] }

  /** What one byte adds to the transition counters: nothing while the state stays, otherwise
      one for the state left; a bad first byte also counts as invalid, and a bad byte in an
      exponent counts as invalid only. */
  function Counted(c: Counts, s: State, b: byte): Counts {
    if Next(s, b) == s then c
    else if s == Start && Next(s, b) == Invalid then Bumped(Bumped(c, Invalid), Start)
    else if s == Scientific then Bumped(c, Invalid)
    else Bumped(c, s)
  }

  function Tally(c: Counts, t: seq<byte>): Counts {
    if t == [] then c else Counted(Tally(c, t[..|t| - 1]), Run(t[..|t| - 1]), t[|t| - 1])
  }

  /** t is the token at p: it ends at a comma, at the terminator, or with the first byte that
      no accepted token allows. */
  ghost predicate TokenAt(mem: seq<byte>, p: nat, n: nat) {
    && p + n < |mem|
    && (forall k :: p <= k < p + n ==> mem[k] != 0 && mem[k] != COMMA)
    && (forall k: nat :: k < n ==> Run(mem[p..][..k]) != Invalid)
    && (mem[p + n] == 0 || mem[p + n] == COMMA || Run(mem[p..p + n]) == Invalid)
  }

  function Total(c: Counts): nat { c[0] + c[1] + c[2] + c[3] + c[4] + c[5] + c[6] + c[7] }

  /** The number of bytes of t that change the state. */
  function Changes(t: seq<byte>): nat {
    if t == [] then 0 else Changes(t[..|t| - 1]) + if Run(t) == Run(t[..|t| - 1]) then 0 else 1
  }

  /** The counters together count the changes of state, and a bad first byte twice. */
  lemma {:induction false} TallyTotal(c: Counts, t: seq<byte>)
    ensures Total(Tally(c, t)) == Total(c) + Changes(t) + if t != [] && Next(Start, t[0]) == Invalid then 1 else 0
  {
    if t != [] {
      var r := t[..|t| - 1];
      TallyTotal(c, r);
      if Run(r) == Start { StateMeans(r, Start); }
    }
  }

  /** Byte k of t takes the automaton out of state s. */
  predicate Leaves(t: seq<byte>, s: State, k: nat) { k < |t| && Run(t[..k]) == s && Run(t[..k + 1]) != s }

  /** Where in t it leaves state s. */
  function Leaving(t: seq<byte>, s: State): set<nat> { set k: nat | k < |t| && Leaves(t, s, k) }

  lemma LeavesKept(t: seq<byte>, b: byte, s: State, k: nat)
    requires k < |t|
    ensures Leaves(t + [b], s, k) <==> Leaves(t, s, k)
  {
    hide Run;
    assert (t + [b])[..k] == t[..k] && (t + [b])[..k + 1] == t[..k + 1];
  }

  lemma LeavesLast(t: seq<byte>, b: byte, s: State)
    ensures Leaves(t + [b], s, |t|) <==> Run(t) == s && Next(s, b) != s
  {
    RunSnoc(t, b);
    hide Run, Next;
    assert (t + [b])[..|t|] == t && (t + [b])[..|t| + 1] == t + [b];
  }

  lemma LeavingSnoc(t: seq<byte>, b: byte, s: State)
    ensures |Leaving(t + [b], s)| == |Leaving(t, s)| + if Run(t) == s && Next(s, b) != s then 1 else 0
  {
    hide Run, Next, Leaves;
    LeavesLast(t, b, s);
    forall k: nat | k < |t| ensures Leaves(t + [b], s, k) <==> Leaves(t, s, k) { LeavesKept(t, b, s, k); }
    assert Leaving(t + [b], s) == Leaving(t, s) + if Leaves(t + [b], s, |t|) then {|t|} else {};
  }

  /** Whether the first byte of a token leads nowhere: no digit, sign or point. */
  predicate BadStart(t: seq<byte>) { t != [] && !Digit(t[0]) && !SignByte(t[0]) && t[0] != POINT }

  /** What each of the eight counters gains over a token: the changes of state away from its own
      state, but a change away from the scientific state counts as invalid, and so does a bad first
      byte. */
  lemma {:induction false} TallyCounts(c: Counts, t: seq<byte>)
    ensures var d := Tally(c, t);
      && d[0] == c[0] + |Leaving(t, Start)|
      && d[1] == c[1] + |Leaving(t, Scientific)| + (if BadStart(t) then 1 else 0)
      && d[2] == c[2] + |Leaving(t, S1)| && d[3] == c[3] + |Leaving(t, S2)|
      && d[4] == c[4] + |Leaving(t, Int)| && d[5] == c[5] + |Leaving(t, Float)|
      && d[6] == c[6] + |Leaving(t, Exponent)| && d[7] == c[7]
  {
    if t == [] {
      NoneLeft([]);
    } else {
      var r, b := t[..|t| - 1], t[|t| - 1];
      assert t == r + [b];
      TallyCounts(c, r);
      LeftBy(r, b);
      OneMore(c, r, b);
      BadFirst(r, b);
      CountedBy(Tally(c, r), Run(r), b);
      hide Run, Tally, Leaving, BadStart, Counted, Next;
    }
  }

  lemma CountedBy(c: Counts, s: State, b: byte)
    ensures var d, moves := Counted(c, s, b), if Next(s, b) != s then 1 else 0;
      && d[0] == c[0] + (if s == Start then moves else 0)
      && d[1] == c[1] + (if s == Scientific then moves else 0) + (if s == Start && Next(s, b) == Invalid then 1 else 0)
      && d[2] == c[2] + (if s == S1 then moves else 0) && d[3] == c[3] + (if s == S2 then moves else 0)
      && d[4] == c[4] + (if s == Int then moves else 0) && d[5] == c[5] + (if s == Float then moves else 0)
      && d[6] == c[6] + (if s == Exponent then moves else 0) && d[7] == c[7]
  {
  }

  lemma NoneLeft(t: seq<byte>)
    requires t == []
    ensures forall s :: |Leaving(t, s)| == 0
  {
    forall s ensures Leaving(t, s) == {} { }
  }

  lemma LeftBy(t: seq<byte>, b: byte)
    ensures forall s :: |Leaving(t + [b], s)| == |Leaving(t, s)| + if Run(t) == s && Next(s, b) != s then 1 else 0
  {
    hide Run, Next, Leaving;
    forall s ensures |Leaving(t + [b], s)| == |Leaving(t, s)| + if Run(t) == s && Next(s, b) != s then 1 else 0 {
      LeavingSnoc(t, b, s);
    }
  }

  lemma BadFirst(t: seq<byte>, b: byte)
    ensures BadStart(t + [b]) <==> if Run(t) == Start then Next(Start, b) == Invalid else BadStart(t)
  {
    StateMeans(t, Start);
    if t != [] { assert (t + [b])[0] == t[0]; } else { assert Run(t) == Start; }
  }

  /** The switch: the new state, and the counters that the old one leads to. */
  method Switch(state: State, c: byte, counts: array<nat>) returns (next: State)
    requires counts.Length == 8 && state != Invalid
    modifies counts
    ensures next == Next(state, c) && counts[..] == Counted(old(counts[..]), state, c)
  {
    next := state;
    match state
    case Start =>
      if Digit(c) {
        next := Int;
      } else if c == PLUS || c == MINUS {
        next := S1;
      } else if c == POINT {
        next := Float;
      } else {
        next := Invalid;
        counts[Slot(Invalid)] := counts[Slot(Invalid)] + 1;
      }
      counts[Slot(Start)] := counts[Slot(Start)] + 1;
    case S1 =>
      if Digit(c) {
        next := Int;
      } else if c == POINT {
        next := Float;
      } else {
        next := Invalid;
      }
      counts[Slot(S1)] := counts[Slot(S1)] + 1;
    case Int =>
      if c == POINT {
        next := Float;
        counts[Slot(Int)] := counts[Slot(Int)] + 1;
      } else if !Digit(c) {
        next := Invalid;
        counts[Slot(Int)] := counts[Slot(Int)] + 1;
      }
    case Float =>
      if c == 0x45 || c == 0x65 {
        next := S2;
        counts[Slot(Float)] := counts[Slot(Float)] + 1;
      } else if !Digit(c) {
        next := Invalid;
        counts[Slot(Float)] := counts[Slot(Float)] + 1;
      }
    case S2 =>
      next := if c == PLUS || c == MINUS then Exponent else Invalid;
      counts[Slot(S2)] := counts[Slot(S2)] + 1;
    case Exponent =>
      next := if Digit(c) then Scientific else Invalid;
      counts[Slot(Exponent)] := counts[Slot(Exponent)] + 1;
    case Scientific =>
      if !Digit(c) {
        next := Invalid;
        counts[Slot(Invalid)] := counts[Slot(Invalid)] + 1;
      }
  }

  /** Where the next token starts. */
  ghost function After(mem: seq<byte>, p: nat, n: nat): nat
    requires TokenAt(mem, p, n)
  {
    if mem[p + n] == COMMA && Run(mem[p..p + n]) != Invalid then p + n + 1 else p + n
  }

  /** `core_state_transition`, on a block with a terminator somewhere at z. */
  method Transition(mem: array<byte>, p: nat, counts: array<nat>, ghost z: nat) returns (str: nat, state: State, ghost n: nat)
    requires p <= z < mem.Length && mem[z] == 0 && counts.Length == 8
    modifies counts
    ensures TokenAt(mem[..], p, n) && str == After(mem[..], p, n) <= z
    ensures state == Run(mem[p..p + n])
    ensures counts[..] == Tally(old(counts[..]), mem[p..p + n])
    ensures mem[p] != 0 ==> str > p
  {
    hide Run, Tally;
    str, state := p, Start;
    ghost var m := mem[..];
    Empty(counts[..], m[p..p]);
    while mem[str] != 0 && state != Invalid
      invariant p <= str <= z && mem[..] == m && state == Run(m[p..str])
      invariant counts[..] == Tally(old(counts[..]), m[p..str])
      invariant forall k :: p <= k < str ==> m[k] != 0 && m[k] != COMMA
      invariant forall k: nat :: k < str - p ==> Run(m[p..][..k]) != Invalid
      decreases z - str
    {
      var symbol := mem[str];
      if symbol == COMMA {
        n := str - p;
        str := str + 1;
        return;
      }
      assert m[p..][..str - p] == m[p..str];
      state := Switch(state, symbol, counts);
      assert m[p..str + 1] == m[p..str] + [symbol];
      OneMore(old(counts[..]), m[p..str], symbol);
      str := str + 1;
    }
    n := str - p;
  }

  lemma Empty(c: Counts, t: seq<byte>)
    requires t == []
    ensures Run(t) == Start && Tally(c, t) == c
  {
  }

  lemma OneMore(c: Counts, t: seq<byte>, b: byte)
    ensures Run(t + [b]) == Next(Run(t), b) && Tally(c, t + [b]) == Counted(Tally(c, t), Run(t), b)
  {
    assert (t + [b])[..|t|] == t;
  }

  /** What the token at p is depends on the memory alone. */
  lemma TokenUnique(mem: seq<byte>, p: nat, n: nat, n': nat)
    requires TokenAt(mem, p, n) && TokenAt(mem, p, n')
    ensures n == n'
  {
    hide Run;
    assert mem[p..][..n] == mem[p..p + n] && mem[p..][..n'] == mem[p..p + n'];
  }

  // ----- One scan of the block

  datatype Lexeme = Lexeme(from: nat, size: nat, to: nat, state: State)

  ghost predicate IsLexeme(mem: seq<byte>, x: Lexeme) {
    && TokenAt(mem, x.from, x.size) && x.from < x.to == After(mem, x.from, x.size)
    && x.state == Run(mem[x.from..x.from + x.size])
  }

  function EndOf(xs: seq<Lexeme>): nat { if xs == [] then 0 else xs[|xs| - 1].to }

  /** xs are tokens one after the other from the start of the block. */
  ghost predicate Scanned(mem: seq<byte>, xs: seq<Lexeme>) {
    xs == [] || (IsLexeme(mem, xs[|xs| - 1]) && xs[|xs| - 1].from == EndOf(xs[..|xs| - 1]) && Scanned(mem, xs[..|xs| - 1]))
  }

  /** All tokens of the block: they reach its terminator. */
  ghost predicate Lexed(mem: seq<byte>, xs: seq<Lexeme>) {
    Scanned(mem, xs) && EndOf(xs) < |mem| && mem[EndOf(xs)] == 0
  }

  function Finals(c: Counts, xs: seq<Lexeme>): Counts {
    if xs == [] then c else Bumped(Finals(c, xs[..|xs| - 1]), xs[|xs| - 1].state)
  }

  ghost function Tracks(c: Counts, mem: seq<byte>, xs: seq<Lexeme>): Counts
    requires Scanned(mem, xs)
  {
    if xs == [] then c
    else var x := xs[|xs| - 1]; Tally(Tracks(c, mem, xs[..|xs| - 1]), mem[x.from..x.from + x.size])
  }

  /** Which tokens end in state s. */
  function Ending(xs: seq<Lexeme>, s: State): set<nat> { set i: nat | i < |xs| && xs[i].state == s }

  lemma EndingSnoc(xs: seq<Lexeme>, x: Lexeme)
    ensures forall s :: |Ending([], s)| == 0
    ensures forall s :: |Ending(xs + [x], s)| == |Ending(xs, s)| + if x.state == s then 1 else 0
  {
    forall s
      ensures |Ending([], s)| == 0
      ensures |Ending(xs + [x], s)| == |Ending(xs, s)| + if x.state == s then 1 else 0
    {
      assert Ending([], s) == {};
      assert Ending(xs + [x], s) == Ending(xs, s) + if x.state == s then {|xs|} else {};
    }
  }

  /** The final counters: how many tokens end in each of the eight states. */
  lemma {:induction false} FinalCounts(c: Counts, xs: seq<Lexeme>)
    ensures var d := Finals(c, xs);
      && d[0] == c[0] + |Ending(xs, Start)| && d[1] == c[1] + |Ending(xs, Invalid)|
      && d[2] == c[2] + |Ending(xs, S1)| && d[3] == c[3] + |Ending(xs, S2)|
      && d[4] == c[4] + |Ending(xs, Int)| && d[5] == c[5] + |Ending(xs, Float)|
      && d[6] == c[6] + |Ending(xs, Exponent)| && d[7] == c[7] + |Ending(xs, Scientific)|
  {
    if xs == [] {
      EndingSnoc([], Lexeme(0, 0, 0, Start));
    } else {
      var r, x := xs[..|xs| - 1], xs[|xs| - 1];
      assert xs == r + [x];
      FinalCounts(c, r);
      EndingSnoc(r, x);
      BumpedAt(Finals(c, r), x.state);
      assert Finals(c, xs) == Bumped(Finals(c, r), x.state);
      hide Finals, Ending, Bumped;
    }
  }

  lemma BumpedAt(c: Counts, s: State)
    ensures var d := Bumped(c, s);
      && d[0] == c[0] + (if s == Start then 1 else 0) && d[1] == c[1] + (if s == Invalid then 1 else 0)
      && d[2] == c[2] + (if s == S1 then 1 else 0) && d[3] == c[3] + (if s == S2 then 1 else 0)
      && d[4] == c[4] + (if s == Int then 1 else 0) && d[5] == c[5] + (if s == Float then 1 else 0)
      && d[6] == c[6] + (if s == Exponent then 1 else 0) && d[7] == c[7] + (if s == Scientific then 1 else 0)
  {
  }

  /** All changes of state away from s in the tokens. */
  ghost function LeavingIn(mem: seq<byte>, xs: seq<Lexeme>, s: State): nat
    requires Scanned(mem, xs)
  {
    if xs == [] then 0
    else var x := xs[|xs| - 1]; LeavingIn(mem, xs[..|xs| - 1], s) + |Leaving(mem[x.from..x.from + x.size], s)|
  }

  ghost function BadStarts(mem: seq<byte>, xs: seq<Lexeme>): nat
    requires Scanned(mem, xs)
  {
    if xs == [] then 0
    else
      var x := xs[|xs| - 1];
      BadStarts(mem, xs[..|xs| - 1]) + if BadStart(mem[x.from..x.from + x.size]) then 1 else 0
  }

  /** The transition counters over all tokens. */
  lemma {:induction false} TrackCounts(c: Counts, mem: seq<byte>, xs: seq<Lexeme>)
    requires Scanned(mem, xs)
    ensures var d := Tracks(c, mem, xs);
      && d[0] == c[0] + LeavingIn(mem, xs, Start)
      && d[1] == c[1] + LeavingIn(mem, xs, Scientific) + BadStarts(mem, xs)
      && d[2] == c[2] + LeavingIn(mem, xs, S1) && d[3] == c[3] + LeavingIn(mem, xs, S2)
      && d[4] == c[4] + LeavingIn(mem, xs, Int) && d[5] == c[5] + LeavingIn(mem, xs, Float)
      && d[6] == c[6] + LeavingIn(mem, xs, Exponent) && d[7] == c[7]
  {
    if xs != [] {
      var r, x := xs[..|xs| - 1], xs[|xs| - 1];
      hide Tally, Leaving, BadStart, Run, TokenAt;
      TrackCounts(c, mem, r);
      TallyCounts(Tracks(c, mem, r), mem[x.from..x.from + x.size]);
    }
  }

  /** Scans token after token: it ends, within the block, at a terminator. */
  method Scan(mem: array<byte>, final: array<nat>, track: array<nat>, ghost z: nat) returns (ghost xs: seq<Lexeme>)
    requires z < mem.Length && mem[z] == 0 && final.Length == track.Length == 8 && final != track
    modifies final, track
    ensures Lexed(mem[..], xs) && EndOf(xs) <= z
    ensures final[..] == Finals(old(final[..]), xs) && track[..] == Tracks(old(track[..]), mem[..], xs)
  {
    hide Run, Tally, TokenAt, After;
    var p := 0;
    xs := [];
    while mem[p] != 0
      invariant p == EndOf(xs) <= z && Scanned(mem[..], xs)
      invariant final[..] == Finals(old(final[..]), xs) && track[..] == Tracks(old(track[..]), mem[..], xs)
      decreases z - p
    {
      var str, state;
      ghost var n;
      str, state, n := Transition(mem, p, track, z);
      final[Slot(state)] := final[Slot(state)] + 1;
      ghost var x := Lexeme(p, n, str, state);
      assert (xs + [x])[..|xs|] == xs;
      xs := xs + [x];
      p := str;
    }
  }

  /** The tokens of a block are determined by its contents. */
  lemma LexedUnique(mem: seq<byte>, xs: seq<Lexeme>, ys: seq<Lexeme>)
    requires Lexed(mem, xs) && Lexed(mem, ys)
    ensures xs == ys
  {
    hide Scanned;
    if |xs| <= |ys| {
      NoneAfter(mem, xs, ys);
    } else {
      NoneAfter(mem, ys, xs);
    }
  }

  lemma NoneAfter(mem: seq<byte>, xs: seq<Lexeme>, ys: seq<Lexeme>)
    requires Lexed(mem, xs) && Scanned(mem, ys) && |xs| <= |ys|
    ensures xs == ys
  {
    hide Scanned;
    SamePrefix(mem, xs, ys);
    if |xs| < |ys| {
      StartsAtByte(mem, ys, |xs|);
    }
  }

  lemma StartsAtByte(mem: seq<byte>, xs: seq<Lexeme>, n: nat)
    requires Scanned(mem, xs) && n < |xs|
    ensures EndOf(xs[..n]) < |mem| && mem[EndOf(xs[..n])] != 0
  {
    hide Run;
    ScannedPrefix(mem, xs, n + 1);
    assert xs[..n + 1][..n] == xs[..n];
  }

  lemma {:induction false} ScannedPrefix(mem: seq<byte>, xs: seq<Lexeme>, n: nat)
    requires Scanned(mem, xs) && n <= |xs|
    ensures Scanned(mem, xs[..n])
  {
    if n < |xs| {
      assert xs[..|xs| - 1][..n] == xs[..n];
      ScannedPrefix(mem, xs[..|xs| - 1], n);
    } else {
      assert xs[..n] == xs;
    }
  }

  lemma {:induction false} SamePrefix(mem: seq<byte>, xs: seq<Lexeme>, ys: seq<Lexeme>)
    requires Scanned(mem, xs) && Scanned(mem, ys) && |xs| <= |ys|
    ensures xs == ys[..|xs|]
  {
    hide Run, TokenAt, After;
    if xs != [] {
      var n := |xs| - 1;
      ScannedPrefix(mem, ys, n + 1);
      assert ys[..n + 1][..n] == ys[..n];
      SamePrefix(mem, xs[..n], ys);
      TokenUnique(mem, xs[n].from, xs[n].size, ys[n].size);
      assert xs == xs[..n] + [xs[n]] && ys[..n + 1] == ys[..n] + [ys[n]];
    }
  }

  // ----- Corruption

  predicate Visited(i: nat, blksize: nat, step: nat)
    requires step > 0
  {
    i < blksize && i % step == 0
  }

  /** One pass: every visited byte but the commas has the mask mixed in. */
  function Masked(mem: seq<byte>, blksize: nat, step: nat, mask: byte): (r: seq<byte>)
    requires step > 0
    ensures |r| == |mem|
    ensures forall i :: 0 <= i < |mem| ==>
      r[i] == if Visited(i, blksize, step) && mem[i] != COMMA then Xor8(mem[i], mask) else mem[i]
  {
    seq(|mem|, i requires 0 <= i < |mem| =>
      if Visited(i, blksize, step) && mem[i] != COMMA then Xor8(mem[i], mask) else mem[i])
  }

  method Mask(mem: array<byte>, blksize: nat, step: nat, seed: int16)
    requires blksize <= mem.Length && step > 0
    modifies mem
    ensures mem[..] == Masked(old(mem[..]), blksize, step, LowByte(seed))
  {
    hide Xor8;
    var p := 0;
    ghost var k := 0;
    while p < blksize
      invariant p == k * step
      invariant forall i :: 0 <= i < mem.Length ==> (mem[i] ==
        if i < p && Visited(i, blksize, step) && old(mem[i]) != COMMA then Xor8(old(mem[i]), LowByte(seed)) else old(mem[i]))
      decreases blksize - p
    {
      if mem[p] != COMMA {
        mem[p] := Xor8(mem[p], LowByte(seed));
      }
      NextVisit(k, step);
      p, k := p + step, k + 1;
    }
  }

  /** Between one visited position and the next there is no other. */
  lemma NextVisit(k: nat, step: nat)
    requires step > 0
    ensures k * step + step == (k + 1) * step
    ensures forall i :: k * step <= i < k * step + step ==> (i % step == 0 <==> i == k * step)
  {
    forall i | k * step <= i < k * step + step ensures i % step == 0 <==> i == k * step {
      DivModUnique(step, i, k, i - k * step);
    }
  }

  /** The undo pass restores the block exactly when the two masks agree and corruption made no
      visited byte a comma, or there was nothing to corrupt. */
  lemma RestoredIff(mem: seq<byte>, blksize: nat, step: nat, s1: byte, s2: byte)
    requires step > 0
    ensures Masked(Masked(mem, blksize, step, s1), blksize, step, s2) == mem <==>
      forall i :: 0 <= i < |mem| && Visited(i, blksize, step) && mem[i] != COMMA ==> s1 == s2 && Xor8(mem[i], s1) != COMMA
  {
    hide Xor8, Visited;
    var r := Masked(Masked(mem, blksize, step, s1), blksize, step, s2);
    forall i | 0 <= i < |mem|
      ensures r[i] == mem[i] <==>
        (Visited(i, blksize, step) && mem[i] != COMMA ==> s1 == s2 && Xor8(mem[i], s1) != COMMA)
    {
      Xor8Twice(mem[i], s1, s2);
    }
  }

  // ----- core_bench_state

  function CrcOfCounts(final: Counts, track: Counts, n: nat, crc: bv16): bv16
    requires n <= 8
  {
    if n == 0 then crc else Crc.Crcu32(track[n - 1], Crc.Crcu32(final[n - 1], CrcOfCounts(final, track, n - 1, crc)))
  }

  /** The 32 bits of each counter, final and transition counters of one state after the other. */
  function CountBits(final: Counts, track: Counts, n: nat): seq<bool>
    requires n <= 8
  {
    if n == 0 then [] else CountBits(final, track, n - 1) + Crc.Bits(final[n - 1], 32) + Crc.Bits(track[n - 1], 32)
  }

  /** The result is the remainder of the division through all of them. */
  lemma {:induction false} CountsDivided(final: Counts, track: Counts, n: nat, crc: bv16)
    requires n <= 8
    ensures Crc.Reverse(CrcOfCounts(final, track, n, crc)) == Crc.Register(Crc.Reverse(crc), CountBits(final, track, n))
  {
    hide Crc.Reverse, Crc.Register, Crc.Bits, Crc.Crcu32;
    if n == 0 {
      Crc.RegisterSnoc(Crc.Reverse(crc), [], true);
    } else {
      var r, f, t := Crc.Reverse(crc), Crc.Bits(final[n - 1], 32), Crc.Bits(track[n - 1], 32);
      var c := CrcOfCounts(final, track, n - 1, crc);
      CountsDivided(final, track, n - 1, crc);
      Crc.Crcu32Divides(final[n - 1], c);
      Crc.Crcu32Divides(track[n - 1], Crc.Crcu32(final[n - 1], c));
      Crc.RegisterBoth(r, CountBits(final, track, n - 1), f);
      Crc.RegisterBoth(r, CountBits(final, track, n - 1) + f, t);
    }
  }

  /** Of two neighbouring positions at most one is visited, so a pass leaves a terminator. */
  lemma TerminatorSurvives(mem: seq<byte>, blksize: nat, step: nat, mask: byte)
    requires 2 <= step && 2 <= blksize <= |mem| && mem[blksize - 2] == mem[blksize - 1] == 0
    ensures var m := Masked(mem, blksize, step, mask); m[blksize - 2] == 0 || m[blksize - 1] == 0
  {
    hide Xor8;
    var i := blksize - 2;
    if i % step == 0 {
      NextVisit(i / step, step);
      Euclid(step, i);
    }
  }

  const NO_COUNTS: Counts := seq(8, _ => 0)

  /** `core_bench_state`. The block ends in two zeros, as `core_init_state` leaves it, and both
      scans stay inside it, whatever the corruption does to one of them. */
  method BenchState(blksize: nat, mem: array<byte>, seed1: int16, seed2: int16, step: nat, crc0: bv16)
    returns (crc: bv16, ghost xs: seq<Lexeme>, ghost ys: seq<Lexeme>)
    requires 2 <= blksize <= mem.Length && mem[blksize - 2] == mem[blksize - 1] == 0 && 2 <= step
    modifies mem
    ensures var m1 := old(mem[..]); var m2 := Masked(m1, blksize, step, LowByte(seed1));
      && Lexed(m1, xs) && Lexed(m2, ys) && EndOf(xs) < blksize && EndOf(ys) < blksize
      && mem[..] == Masked(m2, blksize, step, LowByte(seed2))
      && crc == CrcOfCounts(Finals(Finals(NO_COUNTS, xs), ys), Tracks(Tracks(NO_COUNTS, m1, xs), m2, ys), 8, crc0)
  {
    hide Scanned, Masked, Crc.Crcu32, Finals, Tracks;
    var final, track := new nat[8](_ => 0), new nat[8](_ => 0);
    assert final[..] == NO_COUNTS && track[..] == NO_COUNTS;
    ghost var m1 := mem[..];
    xs := Scan(mem, final, track, blksize - 1);
    TerminatorSurvives(m1, blksize, step, LowByte(seed1));
    Mask(mem, blksize, step, seed1);
    ghost var z := if mem[blksize - 2] == 0 then blksize - 2 else blksize - 1;
    ys := Scan(mem, final, track, z);
    ghost var f, t := final[..], track[..];
    Mask(mem, blksize, step, seed2);
    crc := crc0;
    for i := 0 to 8
      invariant crc == CrcOfCounts(f, t, i, crc0) && final[..] == f && track[..] == t
    {
      crc := Crc.Crcu32(final[i], crc);
      crc := Crc.Crcu32(track[i], crc);
    }
  }
}
