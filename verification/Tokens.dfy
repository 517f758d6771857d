/** The number tokens of `core_state.c`: the automaton of `core_state_transition`, and the
    languages that its accepting states stand for. */
module Tokens {
  import opened MachineTypes

  const COMMA: byte := 0x2C
  const PLUS: byte := 0x2B
  const MINUS: byte := 0x2D
  const POINT: byte := 0x2E

  predicate Digit(c: byte) { 0x30 <= c <= 0x39 }

  predicate SignByte(c: byte) { c == PLUS || c == MINUS }

  predicate ExpByte(c: byte) { c == 0x45 || c == 0x65 }

  // ----- The languages

  predicate Digits(t: seq<byte>) { forall c :: c in t ==> Digit(c) }

  function Unsigned(t: seq<byte>): seq<byte> {
    if t != [] && SignByte(t[0]) then t[1..] else t
  }

  /** [+-]?d+ */
  predicate IsInt(t: seq<byte>) { Unsigned(t) != [] && Digits(Unsigned(t)) }

  predicate PointAt(u: seq<byte>, k: nat) { k < |u| && u[k] == POINT && Digits(u[..k]) && Digits(u[k + 1..]) }

  /** [+-]?d*.d* */
  ghost predicate IsFloat(t: seq<byte>) { exists k: nat :: PointAt(Unsigned(t), k) }

  ghost predicate ExpAt(t: seq<byte>, k: nat) { k < |t| && ExpByte(t[k]) && IsFloat(t[..k]) }

  predicate Tail(t: seq<byte>, k: nat) { k + 2 < |t| && SignByte(t[k + 1]) && Digits(t[k + 2..]) }

  /** A float, e or E, a sign, and at least one digit. */
  ghost predicate IsScientific(t: seq<byte>) {
    exists k: nat :: ExpAt(t, k) && Tail(t, k)
  }

  ghost predicate Accepted(t: seq<byte>) { IsInt(t) || IsFloat(t) || IsScientific(t) }

  // ----- The automaton

  datatype State = Start | Invalid | S1 | S2 | Int | Float | Exponent | Scientific

  /** The switch of `core_state_transition`. */
  function Next(s: State, c: byte): State {
    match s
    case Start => if Digit(c) then Int else if SignByte(c) then S1 else if c == POINT then Float else Invalid
    case S1 => if Digit(c) then Int else if c == POINT then Float else Invalid
    case Int => if c == POINT then Float else if Digit(c) then Int else Invalid
    case Float => if ExpByte(c) then S2 else if Digit(c) then Float else Invalid
    case S2 => if SignByte(c) then Exponent else Invalid
    case Exponent => if Digit(c) then Scientific else Invalid
    case Scientific => if Digit(c) then Scientific else Invalid
    case Invalid => Invalid
  }

  function Run(t: seq<byte>): State {
    if t == [] then Start else Next(Run(t[..|t| - 1]), t[|t| - 1])
  }

  ghost predicate Means(s: State, t: seq<byte>) {
    match s
    case Start => t == []
    case S1 => |t| == 1 && SignByte(t[0])
    case Int => IsInt(t)
    case Float => IsFloat(t)
    case S2 => |t| > 0 && ExpAt(t, |t| - 1)
    case Exponent => |t| > 1 && ExpAt(t, |t| - 2) && SignByte(t[|t| - 1])
    case Scientific => IsScientific(t)
    case Invalid => true
  }

  // ----- One more byte

  lemma UnsignedSnoc(t: seq<byte>, c: byte)
    ensures t != [] ==> Unsigned(t + [c]) == Unsigned(t) + [c]
    ensures t == [] ==> Unsigned(t + [c]) == if SignByte(c) then [] else [c]
  {
  }

  lemma DigitsSnoc(u: seq<byte>, c: byte)
    ensures Digits(u + [c]) <==> Digits(u) && Digit(c)
  {
    assert forall x :: x in u ==> x in u + [c];
    assert c in u + [c];
  }

  lemma IntSnoc(t: seq<byte>, c: byte)
    ensures IsInt(t + [c]) <==> Digit(c) && (IsInt(t) || Means(Start, t) || Means(S1, t))
  {
    UnsignedSnoc(t, c);
    if t != [] {
      DigitsSnoc(Unsigned(t), c);
    }
  }

  lemma PointSnoc(u: seq<byte>, c: byte, k: nat)
    ensures PointAt(u + [c], k) <==> (c == POINT && k == |u| && Digits(u)) || (Digit(c) && PointAt(u, k))
  {
    var v := u + [c];
    if k < |u| {
      assert v[..k] == u[..k] && v[k + 1..] == u[k + 1..] + [c];
      DigitsSnoc(u[k + 1..], c);
    } else if k == |u| {
      assert v[..k] == u;
    }
  }

  lemma FloatSnoc(t: seq<byte>, c: byte)
    ensures IsFloat(t + [c]) <==>
      (c == POINT && (IsInt(t) || Means(Start, t) || Means(S1, t))) || (Digit(c) && IsFloat(t))
  {
    UnsignedSnoc(t, c);
    var u, v := Unsigned(t), Unsigned(t + [c]);
    if v == u + [c] {
      forall k: nat ensures PointAt(v, k) <==> (c == POINT && k == |u| && Digits(u)) || (Digit(c) && PointAt(u, k)) {
        PointSnoc(u, c, k);
      }
      assert Digits(u) <==> IsInt(t) || Means(Start, t) || Means(S1, t);
      if c == POINT && Digits(u) { assert PointAt(v, |u|); }
    }
  }

  lemma ExpSnoc(t: seq<byte>, c: byte, k: nat)
    ensures k < |t| ==> (ExpAt(t + [c], k) <==> ExpAt(t, k))
    ensures ExpAt(t + [c], |t|) <==> ExpByte(c) && IsFloat(t)
  {
    assert (t + [c])[..|t|] == t;
    if k < |t| { assert (t + [c])[..k] == t[..k]; }
  }

  lemma TailSnoc(t: seq<byte>, c: byte, k: nat)
    ensures Tail(t + [c], k) <==> Digit(c) && (Tail(t, k) || (k + 2 == |t| && SignByte(t[k + 1])))
  {
    var v := t + [c];
    if k + 2 <= |t| {
      assert v[k + 2..] == t[k + 2..] + [c];
      DigitsSnoc(t[k + 2..], c);
    }
  }

  lemma ScientificSnoc(t: seq<byte>, c: byte)
    ensures IsScientific(t + [c]) <==> Digit(c) && (IsScientific(t) || Means(Exponent, t))
  {
    hide IsFloat, Digits;
    var v := t + [c];
    forall k: nat ensures ExpAt(v, k) && Tail(v, k) <==>
      Digit(c) && ExpAt(t, k) && (Tail(t, k) || (k + 2 == |t| && SignByte(t[k + 1])))
    {
      ExpSnoc(t, c, k);
      TailSnoc(t, c, k);
    }
    if IsScientific(v) {
      var k: nat :| ExpAt(v, k) && Tail(v, k);
      assert ExpAt(t, k);
    }
    if Digit(c) && IsScientific(t) {
      var k: nat :| ExpAt(t, k) && Tail(t, k);
      assert ExpAt(v, k) && Tail(v, k);
    }
    if Digit(c) && Means(Exponent, t) {
      assert ExpAt(v, |t| - 2) && Tail(v, |t| - 2);
    }
  }

  // ----- What the automaton recognises

  /** Every state stands for exactly one language: in particular the states INT, FLOAT and
      SCIENTIFIC are reached on exactly the tokens of those three forms. */
  lemma {:induction false} StateMeans(t: seq<byte>, s: State)
    requires s != Invalid
    ensures Run(t) == s <==> Means(s, t)
  {
    if t == [] {
      NothingYet();
    } else {
      var n := |t| - 1;
      var r, c := t[..n], t[n];
      assert t == r + [c];
      hide Run, Means, Next;
      MeansSnoc(r, c, s);
      forall q | q != Invalid ensures Run(r) == q <==> Means(q, r) {
        StateMeans(r, q);
      }
      RunSnoc(r, c);
      NextBack(Run(r), c, s);
    }
  }

  lemma NothingYet()
    ensures Run([]) == Start
    ensures forall s | s != Invalid :: Means(s, []) <==> s == Start
  {
  }

  lemma RunSnoc(t: seq<byte>, c: byte)
    ensures Run(t + [c]) == Next(Run(t), c)
  {
    assert (t + [c])[..|t|] == t;
  }

  /** The states that lead to s on c. */
  predicate Before(q: State, c: byte, s: State) {
    q != Invalid && match s
    case Start => false
    case Invalid => true
    case S1 => q == Start && SignByte(c)
    case Int => Digit(c) && (q == Int || q == Start || q == S1)
    case Float => (c == POINT && (q == Int || q == Start || q == S1)) || (Digit(c) && q == Float)
    case S2 => ExpByte(c) && q == Float
    case Exponent => SignByte(c) && q == S2
    case Scientific => Digit(c) && (q == Scientific || q == Exponent)
  }

  lemma NextBack(q: State, c: byte, s: State)
    requires s != Invalid
    ensures Next(q, c) == s <==> Before(q, c, s)
  {
  }

  lemma MeansSnoc(t: seq<byte>, c: byte, s: State)
    requires s != Invalid
    ensures Means(s, t + [c]) <==> exists q :: Before(q, c, s) && Means(q, t)
  {
    match s
    case Start =>
    case S1 => assert Means(s, t + [c]) ==> Before(Start, c, s) && Means(Start, t);
    case Int =>
      IntSnoc(t, c);
      assert Digit(c) ==> Before(Int, c, s) && Before(Start, c, s) && Before(S1, c, s);
    case Float =>
      FloatSnoc(t, c);
      assert c == POINT ==> Before(Int, c, s) && Before(Start, c, s) && Before(S1, c, s);
      assert Digit(c) ==> Before(Float, c, s);
    case S2 =>
      ExpSnoc(t, c, |t|);
      assert ExpByte(c) ==> Before(Float, c, s);
    case Exponent =>
      if |t| > 0 { ExpSnoc(t, c, |t| - 1); }
      assert SignByte(c) ==> Before(S2, c, s);
    case Scientific =>
      ScientificSnoc(t, c);
      assert Digit(c) ==> Before(Scientific, c, s) && Before(Exponent, c, s);
  }

  /** The automaton accepts exactly the three forms, and tells them apart. */
  lemma Classified(t: seq<byte>)
    ensures Run(t) == Int <==> IsInt(t)
    ensures Run(t) == Float <==> IsFloat(t)
    ensures Run(t) == Scientific <==> IsScientific(t)
  {
    hide Run, IsFloat, IsScientific, IsInt;
    StateMeans(t, Int);
    StateMeans(t, Float);
    StateMeans(t, Scientific);
  }

  lemma {:induction false} InvalidForGood(t: seq<byte>, u: seq<byte>)
    requires Run(t) == Invalid
    ensures Run(t + u) == Invalid
  {
    if u == [] {
      assert t + u == t;
    } else {
      var n := |u| - 1;
      assert t + u == (t + u[..n]) + [u[n]];
      InvalidForGood(t, u[..n]);
      RunSnoc(t + u[..n], u[n]);
    }
  }

  /** What is missing to an accepted token. */
  function Rest(s: State): seq<byte> {
    match s
    case Start => [0x30]
    case S1 => [0x30]
    case S2 => [PLUS, 0x30]
    case Exponent => [0x30]
    case _ => []
  }

  /** INVALID is entered exactly when nothing that may follow makes an accepted token. */
  lemma InvalidIffHopeless(t: seq<byte>)
    ensures Run(t) == Invalid <==> forall u :: !Accepted(t + u)
  {
    hide Run, IsInt, IsFloat, IsScientific;
    if Run(t) == Invalid {
      forall u ensures !Accepted(t + u) {
        InvalidForGood(t, u);
        Classified(t + u);
      }
    } else {
      var u := Rest(Run(t));
      if |u| == 0 {
        assert t + u == t;
      } else if |u| == 1 {
        RunSnoc(t, u[0]);
        assert t + u == t + [u[0]];
      } else {
        RunSnoc(t, u[0]);
        RunSnoc(t + [u[0]], u[1]);
        assert t + u == (t + [u[0]]) + [u[1]];
      }
      Classified(t + u);
      assert Accepted(t + u);
    }
  }
}
