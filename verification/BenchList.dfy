/** `core_bench_list`: finds, reverses, sorts, unlinks and relinks, and puts the list back. */
module BenchList {
  import opened Arith
  import opened MachineTypes
  import opened Merging
  import opened CoreList
  import opened ListSort
  import Crc = Crc16

  /** The order after nodes[j + 1] has been moved to the second place. */
  ghost function Moved(nodes: seq<ListHead>, j: nat): seq<ListHead>
    requires j + 1 < |nodes|
  {
    [nodes[0], nodes[j + 1]] + nodes[1..j + 1] + nodes[j + 2..]
  }

  lemma MovedElements(nodes: seq<ListHead>, j: nat)
    requires Distinct(nodes) && j + 1 < |nodes|
    ensures SameElements(Moved(nodes, j), nodes) && Moved(nodes, j)[0] == nodes[0]
  {
    var m := Moved(nodes, j);
    forall i, k | 0 <= i < k < |m| ensures m[i] != m[k] {
      assert m[i] == nodes[From(i, j)] && m[k] == nodes[From(k, j)];
    }
    forall x | x in nodes ensures x in m {
      var i :| 0 <= i < |nodes| && nodes[i] == x;
      assert m[if i == 0 || i > j + 1 then i else if i == j + 1 then 1 else i + 1] == x;
    }
  }

  /** The node after nodes[j] stands second, and all others as they stood to each other. */
  lemma MovedOne(nodes: seq<ListHead>, j: nat)
    requires j + 1 < |nodes|
    ensures var m := Moved(nodes, j);
      m[1] == nodes[j + 1] && m[..1] + m[2..] == nodes[..j + 1] + nodes[j + 2..]
  {
  }

  /** Where the i-th node of the new order stood. */
  function From(i: nat, j: nat): nat {
    if i == 0 || i > j + 1 then i else if i == 1 then j + 1 else i - 1
  }

  /** Unlinks the successor of the found node and links it in behind the head. */
  method MoveNext(list: ListHead, found: ListHead, ghost nodes: seq<ListHead>, ghost j: nat)
    requires IsList(list, nodes) && j + 1 < |nodes| && found == nodes[j] && found.next != null
    modifies nodes`next
    ensures IsList(list, Moved(nodes, j))
  {
    MovedElements(nodes, j);
    ghost var m := Moved(nodes, j);
    var finder := found.next;
    found.next := finder.next;
    finder.next := list.next;
    list.next := finder;
    MovedLinks(nodes, j);
  }

  lemma MovedFrom(nodes: seq<ListHead>, j: nat, i: nat)
    requires i < |nodes| && j + 1 < |nodes|
    ensures |Moved(nodes, j)| == |nodes| && Moved(nodes, j)[i] == nodes[From(i, j)]
  {
  }

  lemma MovedLinks(nodes: seq<ListHead>, j: nat)
    requires Distinct(nodes) && j + 1 < |nodes|
    requires forall i :: 0 < i < |nodes| && i != j && i != j + 1 ==> nodes[i].next == At(nodes, i + 1)
    requires nodes[0].next == nodes[j + 1]
    requires j > 0 ==> nodes[j].next == At(nodes, j + 2)
    requires nodes[j + 1].next == if j == 0 then At(nodes, 2) else nodes[1]
    ensures Linked(Moved(nodes, j))
  {
    var m := Moved(nodes, j);
    forall i | 0 <= i < |m| ensures m[i].next == At(m, i + 1) {
      MovedFrom(nodes, j, i);
      if i + 1 < |m| { MovedFrom(nodes, j, i + 1); }
      hide Moved;
    }
  }

  // ----- the find loop on values

  datatype Item = Item(idx: int16, data: Word)

  type Contents = map<ListHead, Item>

  /** The data items of the nodes. */
  ghost function Items(nodes: seq<ListHead>): (m: Contents)
    reads nodes`info, Infos(nodes)
    ensures forall n :: n in nodes ==> n in m && m[n] == Item(n.info.idx, n.info.data16)
  {
    map n | n in nodes :: Item(n.info.idx, n.info.data16)
  }

  ghost function ItemOf(m: Contents, n: ListHead): Item { if n in m then m[n] else Item(0, Word(0, 0)) }

  lemma ItemsAre(nodes: seq<ListHead>)
    ensures forall n :: n in nodes ==> ItemOf(Items(nodes), n) == Item(n.info.idx, n.info.data16)
  {
  }

  /** Where the first matching node stands, |s| if there is none. */
  ghost function First(s: seq<ListHead>, m: Contents, idx: int16, low: int): (k: nat)
    ensures k <= |s|
  {
    if s == [] || (if idx >= 0 then ItemOf(m, s[0]).idx == idx else ItemOf(m, s[0]).data.lo == low) then 0
    else 1 + First(s[1..], m, idx, low)
  }

  function Bits(x: uint16): bv16 { x as bv16 }

  function Wrap(x: int): uint16 { x % 0x1_0000 }

  function Bit(x: int): (b: nat)
    ensures b <= 1
  {
    if x % 2 == 1 then 1 else 0
  }

  /** The score of the finds so far: four for each hit, minus one for each miss, and the bits taken. */
  function Score(retval: uint16, found: uint16, missed: uint16): uint16 { Wrap(retval + found * 4 - missed) }

  lemma ScoreHit(retval: uint16, found: uint16, missed: uint16, b: nat)
    requires b <= 1
    ensures Score(Wrap(retval + b), Wrap(found + 1), missed) == Wrap(Score(retval, found, missed) + (4 + b))
  {
    var m, x := 0x1_0000, retval + found * 4 - missed;
    var q := if retval + b >= m then 1 else 0;
    var r := if found + 1 >= m then 1 else 0;
    DivModUnique(m, retval + b, q, retval + b - m * q);
    DivModUnique(m, found + 1, r, found + 1 - m * r);
    assert Wrap(retval + b) == retval + b - m * q && Wrap(found + 1) == found + 1 - m * r;
    hide Wrap;
    WrapSum(x, 4 + b, q + 4 * r);
  }

  lemma ScoreMiss(retval: uint16, found: uint16, missed: uint16, b: nat)
    requires b <= 1
    ensures Score(Wrap(retval + b), found, Wrap(missed + 1)) == Wrap(Score(retval, found, missed) + (b - 1))
  {
    var m, x := 0x1_0000, retval + found * 4 - missed;
    var q := if retval + b >= m then 1 else 0;
    var r := if missed + 1 >= m then 1 else 0;
    DivModUnique(m, retval + b, q, retval + b - m * q);
    DivModUnique(m, missed + 1, r, missed + 1 - m * r);
    assert Wrap(retval + b) == retval + b - m * q && Wrap(missed + 1) == missed + 1 - m * r;
    hide Wrap;
    WrapSum(x, b - 1, q - r);
  }

  lemma WrapSum(x: int, y: int, k: int)
    ensures Wrap(x + y - 0x1_0000 * k) == Wrap(Wrap(x) + y)
  {
    var m := 0x1_0000;
    Euclid(m, x);
    var z := Wrap(x) + y;
    Euclid(m, z);
    DivModUnique(m, x + y - m * k, z / m + x / m - k, z % m);
  }

  lemma Wrapped(x: uint16)
    ensures Wrap(x + 0) == x
  {
  }

  lemma NoScore()
    ensures Score(0, 0, 0) == 0
  {
  }

  /** One turn of the find loop when node k is found, or, for k == |s|, none. */
  ghost function RoundOrder(s: seq<ListHead>, k: nat): seq<ListHead> {
    if k == 0 || k >= |s| then Reversed(s) else Moved(Reversed(s), |s| - 1 - k)
  }

  /** What that turn adds to found * 4 - missed and the bits taken from the data. */
  ghost function RoundScore(s: seq<ListHead>, m: Contents, k: nat): int
    requires |s| >= 3
  {
    if k < |s| then (if ItemOf(m, s[k]).data.lo % 2 == 1 then 4 + Bit(ItemOf(m, s[k]).data.hi / 2) else 4)
    else Bit(ItemOf(m, s[|s| - 2]).data.hi) - 1
  }

  lemma RoundScores(s: seq<ListHead>, m: Contents, k: nat)
    requires |s| >= 3
    ensures k >= |s| ==> RoundScore(s, m, k) == Bit(ItemOf(m, s[|s| - 2]).data.hi) - 1
    ensures k < |s| ==> (RoundScore(s, m, k) ==
      4 + (if ItemOf(m, s[k]).data.lo % 2 == 1 then Bit(ItemOf(m, s[k]).data.hi / 2) else 0))
  {
  }

  /** In terms of the data words: a hit counts four and, if the word is odd, its bit 9, a miss counts
      bit 8 of the second node's word, less one. */
  lemma RoundScoreOfWords(s: seq<ListHead>, m: Contents, k: nat)
    requires |s| >= 3
    ensures k < |s| ==> var v := Crc.Value(ItemOf(m, s[k]).data);
      RoundScore(s, m, k) == 4 + (if v % 2 == 1 then v / 0x200 % 2 else 0)
    ensures k >= |s| ==> RoundScore(s, m, k) == Crc.Value(ItemOf(m, s[|s| - 2]).data) / 0x100 % 2 - 1
  {
    hide ItemOf;
    if k < |s| { WordParts(ItemOf(m, s[k]).data); } else { WordParts(ItemOf(m, s[|s| - 2]).data); }
  }

  lemma WordParts(w: Word)
    ensures Crc.Value(w) % 2 == w.lo % 2 && Crc.Value(w) / 0x100 == w.hi && Crc.Value(w) / 0x200 == w.hi / 2
  {
  }

  /** The register that the CRC starts from has the parity of the score. */
  lemma BitsOdd(x: uint16)
    ensures Bits(x) & 1 == 1 <==> x % 2 == 1
  {
  }

  function NextIdx(idx: int16): int16 {
    if idx < 0 then idx else if idx == 0x7fff then -0x8000 else idx + 1
  }

  datatype Search = Search(order: seq<ListHead>, idx: int16, score: uint16)

  /** The state of the find loop after n turns. */
  ghost function Finds(s: seq<ListHead>, m: Contents, idx: int16, n: nat): (r: Search)
    requires |s| >= 3
    ensures |r.order| == |s|
  {
    if n == 0 then Search(s, idx, 0)
    else
      var p := Finds(s, m, idx, n - 1);
      var k := First(p.order, m, p.idx, (n - 1) % 256);
      Search(RoundOrder(p.order, k), NextIdx(p.idx), Wrap(p.score + RoundScore(p.order, m, k)))
  }

  lemma FindsNone(s: seq<ListHead>, m: Contents, idx: int16)
    requires |s| >= 3
    ensures Finds(s, m, idx, 0) == Search(s, idx, 0)
  {
  }

  lemma FindsNext(s: seq<ListHead>, m: Contents, idx: int16, n: nat)
    requires |s| >= 3
    ensures var p := Finds(s, m, idx, n); var k := First(p.order, m, p.idx, n % 256);
      Finds(s, m, idx, n + 1) == Search(RoundOrder(p.order, k), NextIdx(p.idx), Wrap(p.score + RoundScore(p.order, m, k)))
  {
    hide First, RoundOrder, RoundScore, Wrap;
  }

  ghost predicate Hit(m: Contents, n: ListHead, idx: int16, low: int) {
    if idx >= 0 then ItemOf(m, n).idx == idx else ItemOf(m, n).data.lo == low
  }

  lemma {:induction false} FirstIs(s: seq<ListHead>, m: Contents, idx: int16, low: int, k: nat)
    requires k <= |s| && (k < |s| ==> Hit(m, s[k], idx, low))
    requires forall i :: 0 <= i < k ==> !Hit(m, s[i], idx, low)
    ensures First(s, m, idx, low) == k
  {
    if k > 0 {
      assert !Hit(m, s[0], idx, low);
      FirstIs(s[1..], m, idx, low, k - 1);
    }
  }

  lemma PermutedInfos(nodes: seq<ListHead>, order: seq<ListHead>)
    requires SameElements(order, nodes) && OwnInfos(nodes)
    ensures OwnInfos(order) && Infos(order) == Infos(nodes)
  {
    forall i, j | 0 <= i < j < |order| ensures order[i].info != order[j].info {
      assert order[i] in nodes && order[j] in nodes && order[i] != order[j];
    }
  }

  lemma SameElementsTrans(a: seq<ListHead>, b: seq<ListHead>, c: seq<ListHead>)
    requires SameElements(a, b) && SameElements(b, c)
    ensures SameElements(a, c)
  {
  }

  lemma ReversedElements(nodes: seq<ListHead>)
    requires Distinct(nodes)
    ensures SameElements(Reversed(nodes), nodes)
  {
    forall x | x in nodes ensures x in Reversed(nodes) {
      var i :| 0 <= i < |nodes| && nodes[i] == x;
      assert Reversed(nodes)[|nodes| - 1 - i] == x;
    }
  }

  lemma RoundElements(s: seq<ListHead>, k: nat)
    requires Distinct(s)
    ensures SameElements(RoundOrder(s, k), s)
  {
    ReversedElements(s);
    if 0 < k < |s| {
      hide Reversed, Moved;
      assert |Reversed(s)| == |s|;
      MovedElements(Reversed(s), |s| - 1 - k);
    }
  }

  // ----- the find loop on the list

  /** Moves the successor of the found node up to the second place, if there is one. */
  method CacheNext(list: ListHead, found: ListHead, ghost nodes: seq<ListHead>, ghost j: nat)
    requires IsList(list, nodes) && j < |nodes| && found == nodes[j]
    modifies nodes`next
    ensures IsList(list, if j + 1 < |nodes| then Moved(nodes, j) else nodes)
  {
    if found.next != null {
      MoveNext(list, found, nodes, j);
    }
  }

  lemma FoundAt(nodes: seq<ListHead>, m: Contents, idx: int16, low: int, k: nat)
    requires m == Items(nodes) && k <= |nodes| && (k < |nodes| ==> Matches(nodes[k], idx, low))
    requires forall i :: 0 <= i < k ==> !Matches(nodes[i], idx, low)
    ensures First(nodes, m, idx, low) == k
  {
    forall i | 0 <= i < |nodes| ensures Hit(m, nodes[i], idx, low) <==> Matches(nodes[i], idx, low) {
      assert nodes[i] in nodes;
    }
    FirstIs(nodes, m, idx, low, k);
  }

  /** Counts the hit or the miss and takes its bit; the list is reversed by then. */
  method CountFound(list: ListHead, thisFind: ListHead?, found0: uint16, missed0: uint16, retval0: uint16,
                    ghost nodes: seq<ListHead>, ghost m: Contents, ghost k: nat)
    returns (found: uint16, missed: uint16, retval: uint16)
    requires |nodes| >= 3 && k <= |nodes| && thisFind == At(nodes, k) && m == Items(nodes)
    requires IsList(list, Reversed(nodes))
    ensures Score(retval, found, missed) == Wrap(Score(retval0, found0, missed0) + RoundScore(nodes, m, k))
  {
    hide Distinct, Bit, Score, Linked, Wrap, RoundScore, Items, ItemOf;
    ItemsAre(nodes);
    RoundScores(nodes, m, k);
    found, missed, retval := found0, missed0, retval0;
    if thisFind == null {
      LinkAt(Reversed(nodes), 0);
      assert list.next == nodes[|nodes| - 2] && list.next in nodes;
      ScoreMiss(retval, found, missed, Bit(list.next.info.data16.hi));
      missed := Wrap(missed + 1);
      retval := Wrap(retval + Bit(list.next.info.data16.hi));
    } else {
      assert thisFind in nodes;
      ScoreHit(retval, found, missed, if thisFind.info.data16.lo % 2 == 1 then Bit(thisFind.info.data16.hi / 2) else 0);
      found := Wrap(found + 1);
      if thisFind.info.data16.lo % 2 == 1 {
        retval := Wrap(retval + Bit(thisFind.info.data16.hi / 2));
      } else {
        Wrapped(retval);
      }
    }
  }

  lemma RoundOrderIs(s: seq<ListHead>, k: nat)
    ensures |Reversed(s)| == |s| && (k >= |s| ==> RoundOrder(s, k) == Reversed(s))
    ensures forall j :: 0 <= j < |s| ==> Reversed(s)[j] in s
    ensures k < |s| ==> Reversed(s)[|s| - 1 - k] == s[k]
    ensures k == 0 ==> RoundOrder(s, k) == Reversed(s)
    ensures 0 < k < |s| ==> RoundOrder(s, k) == Moved(Reversed(s), |s| - 1 - k)
  {
    hide Moved;
  }

  /** In the reversed list, moves the successor of the node found, if any was. */
  method CacheFound(list: ListHead, thisFind: ListHead?, ghost nodes: seq<ListHead>, ghost k: nat)
    requires nodes != [] && k <= |nodes| && thisFind == At(nodes, k) && IsList(list, Reversed(nodes))
    modifies nodes`next
    ensures IsList(list, RoundOrder(nodes, k)) && Items(nodes) == old(Items(nodes))
  {
    hide Distinct, Linked, Reversed, RoundOrder, Moved, ItemOf;
    RoundOrderIs(nodes, k);
    if thisFind != null {
      CacheNext(list, thisFind, Reversed(nodes), |nodes| - 1 - k);
    }
  }

  /** One turn of the find loop: look up, reverse, and move the found node's successor. */
  method FindRound(list0: ListHead, idx: int16, low: int, found0: uint16, missed0: uint16, retval0: uint16,
                   ghost nodes: seq<ListHead>, ghost m: Contents)
    returns (list: ListHead, found: uint16, missed: uint16, retval: uint16)
    requires IsList(list0, nodes) && |nodes| >= 3 && m == Items(nodes)
    modifies nodes`next
    ensures Items(nodes) == m
    ensures var k := First(nodes, m, idx, low);
      && IsList(list, RoundOrder(nodes, k))
      && Score(retval, found, missed) == Wrap(Score(retval0, found0, missed0) + RoundScore(nodes, m, k))
  {
    hide Distinct, First, Score, Linked, Wrap, RoundScore, ItemOf, Reversed, RoundOrder, Moved;
    var thisFind;
    ghost var k;
    thisFind, k := Find(list0, idx, low, nodes);
    FoundAt(nodes, m, idx, low, k);
    RoundOrderIs(nodes, k);
    list := Reverse(list0, nodes);
    found, missed, retval := CountFound(list, thisFind, found0, missed0, retval0, nodes, m, k);
    CacheFound(list, thisFind, nodes, k);
  }

  /** The find loop. */
  method FindLoop(list0: ListHead, findNum: int16, idx0: int16, low0: int, ghost nodes: seq<ListHead>)
    returns (list: ListHead, idx: int16, low: int, retval: uint16)
    requires IsList(list0, nodes) && |nodes| >= 3
    modifies nodes`next
    ensures Items(nodes) == old(Items(nodes))
    ensures var f := Finds(nodes, old(Items(nodes)), idx0, Turns(findNum));
      IsList(list, f.order) && SameElements(f.order, nodes) && idx == f.idx && retval == f.score
    ensures low == if findNum <= 0 then low0 else (findNum - 1) as int % 256
  {
    hide Linked, Distinct, First, Finds, RoundOrder, RoundScore, Score, Wrap, Items;
    ghost var m := Items(nodes);
    NoScore();
    list, idx, low := list0, idx0, low0;
    var found, missed: uint16 := 0, 0;
    retval := 0;
    FindsNone(nodes, m, idx0);
    var i: int16 := 0;
    while i < findNum
      invariant 0 <= i && (i <= findNum || i == 0) && Items(nodes) == m
      invariant var f := Finds(nodes, m, idx0, i as nat);
        IsList(list, f.order) && SameElements(f.order, nodes) && idx == f.idx && Score(retval, found, missed) == f.score
      invariant low == if i == 0 then low0 else (i - 1) as int % 256
      decreases findNum - i
    {
      low := i as int % 256;
      ghost var order := Finds(nodes, m, idx0, i as nat).order;
      SameItems(nodes, order);
      assert forall j :: 0 <= j < |order| ==> order[j] in nodes;
      list, found, missed, retval := FindRound(list, idx, low, found, missed, retval, order, m);
      SameItems(nodes, order);
      FindsNext(nodes, m, idx0, i as nat);
      RoundElements(order, First(order, m, idx, low));
      SameElementsTrans(Finds(nodes, m, idx0, i as nat + 1).order, order, nodes);
      if idx >= 0 {
        idx := if idx == 0x7fff then -0x8000 else idx + 1;
      }
      i := i + 1;
    }
    retval := Score(retval, found, missed);
  }

  function Turns(findNum: int16): nat { if findNum <= 0 then 0 else findNum as nat }

  lemma SameItems(nodes: seq<ListHead>, order: seq<ListHead>)
    requires SameElements(order, nodes)
    ensures Items(order) == Items(nodes)
  {
  }

  /** Adds the data word of the head to the CRC once for each node from `start` on. */
  method CrcWalk(list: ListHead, start: ListHead?, retval0: bv16, ghost nodes: seq<ListHead>, ghost k: nat)
    returns (retval: bv16)
    requires Linked(nodes) && k <= |nodes| && start == At(nodes, k)
    ensures retval == CrcTimes(list.info.data16, retval0, |nodes| - k)
  {
    hide Crc.Crcu16;
    var finder := start;
    ghost var j := k;
    retval := retval0;
    CrcTimesNone(list.info.data16, retval0);
    while finder != null
      invariant k <= j <= |nodes| && finder == At(nodes, j)
      invariant retval == CrcTimes(list.info.data16, retval0, j - k)
      decreases |nodes| - j
    {
      retval := Crc.Crcu16(list.info.data16, retval);
      finder := finder.next;
      j := j + 1;
    }
  }

  ghost function CrcTimes(w: Word, crc: bv16, n: nat): bv16 {
    if n == 0 then crc else Crc.Crcu16(w, CrcTimes(w, crc, n - 1))
  }

  function Repeated(bits: seq<bool>, n: nat): seq<bool> { if n == 0 then [] else Repeated(bits, n - 1) + bits }

  /** The walk divides on through the sixteen bits of the data word, once per node. */
  lemma {:induction false} CrcTimesDivides(w: Word, crc: bv16, n: nat)
    ensures Crc.Reverse(CrcTimes(w, crc, n)) ==
      Crc.Register(Crc.Reverse(crc), Repeated(Crc.Bits(Crc.Value(w), 16), n))
  {
    hide Crc.Reverse, Crc.Register, Crc.Bits, Crc.Crcu16;
    if n == 0 {
      Crc.RegisterSnoc(Crc.Reverse(crc), [], true);
    } else {
      var bits := Crc.Bits(Crc.Value(w), 16);
      CrcTimesDivides(w, crc, n - 1);
      Crc.Crcu16Divides(w, CrcTimes(w, crc, n - 1));
      Crc.RegisterBoth(Crc.Reverse(crc), Repeated(bits, n - 1), bits);
    }
  }

  lemma CrcTimesNone(w: Word, crc: bv16)
    ensures CrcTimes(w, crc, 0) == crc
  {
  }

  /** The nodes that held the data items which stay in the list while one is removed. */
  ghost function Kept(nodes: seq<ListHead>): seq<ListHead>
    requires |nodes| >= 3
  {
    [nodes[0]] + nodes[2..]
  }

  /** How many nodes the first CRC walk meets: from the node found on, or all but the head. */
  ghost function WalkLength(nodes: seq<ListHead>, m: Contents, idx: int16, low: int): nat
    requires |nodes| >= 3
  {
    var k := First(Kept(nodes), m, idx, low);
    |nodes| - 1 - if k == |nodes| - 1 then 1 else k
  }

  /** The walk meets all nodes but the removed one and the head if nothing is found, otherwise those
      from the first match on. */
  lemma WalkLengthIs(nodes: seq<ListHead>, m: Contents, idx: int16, low: int, k: nat)
    requires |nodes| >= 3 && k < |nodes|
    requires forall i :: 0 <= i < |nodes| && i != 1 && i < k ==> !Hit(m, nodes[i], idx, low)
    ensures k != 1 && Hit(m, nodes[k], idx, low) ==> WalkLength(nodes, m, idx, low) == |nodes| - (if k == 0 then 1 else k)
    ensures k == |nodes| - 1 && !Hit(m, nodes[k], idx, low) ==> WalkLength(nodes, m, idx, low) == |nodes| - 2
  {
    var kept := Kept(nodes);
    hide Hit;
    if k != 1 && Hit(m, nodes[k], idx, low) {
      FirstIs(kept, m, idx, low, if k == 0 then 0 else k - 1);
    } else if k == |nodes| - 1 {
      FirstIs(kept, m, idx, low, |kept|);
    }
  }

  lemma Differ(nodes: seq<ListHead>, i: nat, j: nat)
    requires Distinct(nodes) && i < j < |nodes|
    ensures nodes[i] != nodes[j]
  {
  }

  lemma KeptAt(nodes: seq<ListHead>, i: nat)
    requires |nodes| >= 3 && i < |nodes| - 1
    ensures |Kept(nodes)| == |Without(nodes, 1)| == |nodes| - 1
    ensures Kept(nodes)[i] == nodes[if i == 0 then 0 else i + 1]
    ensures Without(nodes, 1)[i] == nodes[if i <= 1 then i else i + 1]
  {
  }

  lemma KeptFound(nodes: seq<ListHead>, m: Contents, idx: int16, low: int, k: nat)
    requires |nodes| >= 3 && k <= |nodes| - 1
    requires forall i :: 0 <= i < |Kept(nodes)| ==> Carries(Without(nodes, 1), i, ItemOf(m, Kept(nodes)[i]))
    requires k < |nodes| - 1 ==> Matches(Without(nodes, 1)[k], idx, low)
    requires forall i :: 0 <= i < k ==> !Matches(Without(nodes, 1)[i], idx, low)
    ensures First(Kept(nodes), m, idx, low) == k
  {
    var rest, kept := Without(nodes, 1), Kept(nodes);
    forall i | 0 <= i < |nodes| - 1 ensures Hit(m, kept[i], idx, low) <==> Matches(rest[i], idx, low) {
      KeptAt(nodes, i);
      var x := kept[i];
      assert Carries(rest, i, ItemOf(m, x));
    }
    FirstIs(kept, m, idx, low, k);
  }

  ghost predicate Carries(s: seq<ListHead>, i: int, x: Item)
    reads if 0 <= i < |s| then {s[i], s[i].info} else {}
  {
    0 <= i < |s| && Item(s[i].info.idx, s[i].info.data16) == x
  }

  /** The walk between removal and undo, from the node found or else from the second one. */
  method WalkRest(list: ListHead, idx: int16, low: int, retval0: bv16, ghost nodes: seq<ListHead>, ghost m: Contents)
    returns (retval: bv16)
    requires |nodes| >= 3 && IsList(list, Without(nodes, 1))
    requires forall i :: 0 <= i < |Kept(nodes)| ==> Carries(Without(nodes, 1), i, ItemOf(m, Kept(nodes)[i]))
    ensures retval == CrcTimes(list.info.data16, retval0, WalkLength(nodes, m, idx, low))
  {
    hide Linked, Distinct, Matches, CrcTimes, First, Kept;
    ghost var rest := Without(nodes, 1);
    KeptAt(nodes, 0);
    var finder;
    ghost var k;
    finder, k := Find(list, idx, low, rest);
    LinkAt(rest, 0);
    KeptFound(nodes, m, idx, low, k);
    if finder == null {
      finder, k := list.next, 1;
    }
    retval := CrcWalk(list, finder, retval0, rest, k);
  }

  /** Removes the third node and puts it back, with a CRC walk in between. */
  method RemoveAndUndo(list: ListHead, idx: int16, low: int, retval0: bv16, ghost nodes: seq<ListHead>)
    returns (retval: bv16)
    requires IsList(list, nodes) && |nodes| >= 3
    modifies nodes`next, nodes`info
    ensures IsList(list, nodes)
    ensures forall n :: n in nodes ==> n.info == old(n.info)
    ensures retval == CrcTimes(list.info.data16, retval0, WalkLength(nodes, old(Items(nodes)), idx, low))
  {
    hide Linked, Distinct, Matches, CrcTimes, First, Kept, WalkLength;
    ghost var m, rest, kept := Items(nodes), Without(nodes, 1), Kept(nodes);
    assert nodes[0] in nodes && nodes[1] in nodes && nodes[2] in nodes;
    Differ(nodes, 0, 1);
    Differ(nodes, 0, 2);
    LinkAt(nodes, 0);
    var remover := Remove(list.next, nodes, 1);
    KeptAt(nodes, 0);
    forall i | 0 <= i < |kept| ensures Carries(rest, i, ItemOf(m, kept[i])) {
      KeptAt(nodes, i);
      var o := if i == 0 then 0 else i + 1;
      assert kept[i] == nodes[o] && nodes[o] in nodes && rest[i] in nodes;
      if i > 1 { Differ(nodes, 1, o); Differ(nodes, 2, o); }
    }
    retval := WalkRest(list, idx, low, retval0, nodes, m);
    LinkAt(rest, 0);
    KeptAt(nodes, 1);
    remover := UndoRemove(remover, list.next, nodes, 1);
  }

  // ----- the whole benchmark

  ghost function IdxKeys(nodes: seq<ListHead>): Keys<ListHead>
    reads nodes`info, Infos(nodes)
  {
    map n | n in nodes :: n.info.idx as int
  }

  lemma IdxSorted(before: seq<ListHead>, s: seq<ListHead>)
    requires SameElements(s, before) && StablySorted(CmpIdx, before, s)
    ensures Sorted(IdxKeys(before), RankOf(before), s)
  {
    forall i, j | 0 <= i < j < |s| ensures Before(IdxKeys(before), RankOf(before), s[i], s[j]) {
      assert s[i] in before && s[j] in before;
    }
  }

  /** What the finds and the content sort leave: the order, its data items, and the search state. */
  ghost predicate Prepared(nodes: seq<ListHead>, m0: Contents, finderIdx: int16, findNum: int16,
                           before: seq<ListHead>, m: Contents, idx: int16, low: int)
    requires |nodes| >= 3
  {
    var f := Finds(nodes, m0, finderIdx, Turns(findNum));
    && idx == f.idx && (findNum > 0 ==> low == (findNum - 1) as int % 256)
    && (forall n :: n in nodes ==> ItemOf(m, n).idx == ItemOf(m0, n).idx && ItemOf(m, n).data.hi == ItemOf(m0, n).data.hi)
    && (if finderIdx > 0 then ByContent(f.order, m, before) && OwnKeysCached(nodes, m0, m)
        else before == f.order && m == m0)
  }

  /** All words are cached; where the key is a word's own, the sort has cached just that. */
  ghost predicate OwnKeysCached(nodes: seq<ListHead>, m0: Contents, m: Contents) {
    forall n :: n in nodes ==>
      Cached(ItemOf(m, n).data) && (OwnKey(ItemOf(m0, n).data) ==> ItemOf(m, n).data == CachedAs(ItemOf(m0, n).data))
  }

  /** s is `before` sorted stably by the seven-bit keys. */
  ghost predicate ByContent(before: seq<ListHead>, m: Contents, s: seq<ListHead>) {
    forall i, j :: 0 <= i < j < |s| ==>
      var x, y := ItemOf(m, s[i]).data.lo % 0x80, ItemOf(m, s[j]).data.lo % 0x80;
      x < y || (x == y && IndexIn(before, s[i]) < IndexIn(before, s[j]))
  }

  ghost function IndexIn(s: seq<ListHead>, n: ListHead): nat { if n in s then IndexOf(s, n) else 0 }

  /** x stands before y. */
  ghost predicate Precedes(s: seq<ListHead>, x: ListHead, y: ListHead) { IndexIn(s, x) < IndexIn(s, y) }

  /** The indices ascend, and where two tie their nodes stand in `before` as they do in nodes. */
  ghost predicate Returns(nodes: seq<ListHead>, m: Contents, before: seq<ListHead>) {
    forall i, j :: 0 <= i < j < |nodes| ==> InIdxOrder(m, before, nodes[i], nodes[j])
  }

  ghost predicate InIdxOrder(m: Contents, before: seq<ListHead>, x: ListHead, y: ListHead) {
    ItemOf(m, x).idx < ItemOf(m, y).idx || (ItemOf(m, x).idx == ItemOf(m, y).idx && Precedes(before, x, y))
  }

  /** A stable sort by index of `before` is the entry order exactly in that case. */
  lemma OrderReturnsIff(nodes: seq<ListHead>, m: Contents, before: seq<ListHead>, order: seq<ListHead>)
    requires SameElements(before, nodes) && SameElements(order, before) && StablySorted(CmpIdx, before, order)
    requires forall n :: n in nodes ==> ItemOf(m, n).idx == n.info.idx
    ensures order == nodes <==> Returns(nodes, m, before)
  {
    hide ItemOf;
    if order == nodes {
      forall i, j | 0 <= i < j < |nodes| ensures InIdxOrder(m, before, nodes[i], nodes[j]) {
        assert nodes[i] in nodes && nodes[j] in nodes;
      }
    }
    if Returns(nodes, m, before) {
      forall i, j | 0 <= i < j < |nodes| ensures Before(IdxKeys(before), RankOf(before), nodes[i], nodes[j]) {
        assert nodes[i] in before && nodes[j] in before && InIdxOrder(m, before, nodes[i], nodes[j]);
      }
      IdxSorted(before, order);
      SortUnique(IdxKeys(before), RankOf(before), order, nodes);
    }
  }

  lemma SortedByContent(before: seq<ListHead>, s: seq<ListHead>)
    requires StablySorted(CmpComplex, before, s)
    ensures ByContent(before, Items(s), s)
  {
    forall i | 0 <= i < |s| ensures s[i] in s && ItemOf(Items(s), s[i]).data == s[i].info.data16 { }
  }

  lemma PreparedIs(nodes: seq<ListHead>, m0: Contents, finderIdx: int16, findNum: int16, f: Search,
                   before: seq<ListHead>, m: Contents, idx: int16, low: int)
    requires |nodes| >= 3 && f == Finds(nodes, m0, finderIdx, Turns(findNum))
    requires idx == f.idx && (findNum > 0 ==> low == (findNum - 1) as int % 256)
    requires forall n :: n in nodes ==> ItemOf(m, n).idx == ItemOf(m0, n).idx && ItemOf(m, n).data.hi == ItemOf(m0, n).data.hi
    requires if finderIdx > 0 then ByContent(f.order, m, before) && OwnKeysCached(nodes, m0, m)
      else before == f.order && m == m0
    ensures Prepared(nodes, m0, finderIdx, findNum, before, m, idx, low)
  {
    hide Finds, ItemOf, ByContent, OwnKeysCached;
  }

  ghost function WordsOf(m: Contents): map<ListHead, Word> { map n | n in m :: m[n].data }

  lemma WordsAre(nodes: seq<ListHead>)
    ensures WordsOf(Items(nodes)) == Words(nodes)
  {
  }

  lemma ComputedFor(bench: Bench, start: Record, order: seq<ListHead>, nodes: seq<ListHead>,
                    was: map<ListHead, Word>, now: map<ListHead, Word>, asked: seq<ListHead>)
    requires Computed(bench, start, order, was, now, asked) && SameElements(order, nodes)
    ensures Computed(bench, start, nodes, was, now, asked)
  {
    hide ComputedAt;
  }

  /** The content sort asks for the key of every uncached word. */
  lemma AskedAre(bench: Bench, start: Record, nodes: seq<ListHead>, m0: Contents, m: Contents, asked: seq<ListHead>)
    requires Computed(bench, start, nodes, WordsOf(m0), WordsOf(m), asked) && OwnKeysCached(nodes, m0, m)
    ensures forall n :: n in asked <==> n in nodes && !Cached(ItemOf(m0, n).data)
  {
    hide AskedWord, AfterAll;
    forall n ensures n in asked <==> n in nodes && !Cached(ItemOf(m0, n).data) {
      WordOfItem(m0, n);
      WordOfItem(m, n);
      if n in asked {
        var i :| 0 <= i < |asked| && asked[i] == n;
        assert ComputedAt(bench, start, WordsOf(m0), WordsOf(m), asked, i);
      }
    }
  }

  lemma WordOfItem(m: Contents, n: ListHead)
    ensures WordIn(WordsOf(m), n) == ItemOf(m, n).data
  {
  }

  lemma NothingComputed(bench: Bench, start: Record, nodes: seq<ListHead>, was: map<ListHead, Word>)
    ensures Computed(bench, start, nodes, was, was, []) && AfterAll(bench, start, was, []) == start
  {
  }

  /** The content sort: the nodes keep their data items and upper bytes. The nodes `asked` get their
      keys in that order, each from its own word or from an inner benchmark of its own. */
  method SortByContent(list0: ListHead, res: CoreResults, ghost nodes: seq<ListHead>)
    returns (list: ListHead, ghost order: seq<ListHead>, ghost asked: seq<ListHead>)
    requires IsList(list0, nodes) && OwnInfos(nodes)
    modifies nodes`next, Infos(nodes)`data16
    modifies res`calls, res`crc, res`crcmatrix, res`crcstate
    ensures Computed(res.bench, old(RecordOf(res)), nodes, WordsOf(old(Items(nodes))), WordsOf(Items(nodes)), asked)
    ensures RecordOf(res) == AfterAll(res.bench, old(RecordOf(res)), WordsOf(old(Items(nodes))), asked)
    ensures IsList(list, order) && SameElements(order, nodes) && ByContent(nodes, Items(nodes), order)
    ensures forall n :: n in nodes ==> n.info.data16.hi == old(n.info.data16.hi)
    ensures |nodes| >= 2 ==>
      forall n :: n in nodes ==>
        Cached(n.info.data16) && (old(OwnKey(n.info.data16)) ==> n.info.data16 == CachedAs(old(n.info.data16)))
  {
    hide Linked, Distinct, StablySorted, Key, ByContent, Items, Computed, AfterAll, RecordOf, WordsOf, Words;
    WordsAre(nodes);
    list, order, asked := MergeSort(list0, CmpComplex, res, nodes);
    WordsAre(nodes);
    SortedByContent(nodes, order);
    SameItems(nodes, order);
  }

  /** The content sort, if it takes place. */
  method SortFound(list0: ListHead, res: CoreResults, finderIdx: int16, ghost nodes: seq<ListHead>, ghost found: seq<ListHead>)
    returns (list: ListHead, ghost order: seq<ListHead>, ghost asked: seq<ListHead>)
    requires IsList(list0, found) && SameElements(found, nodes) && OwnInfos(nodes) && |nodes| >= 3
    modifies nodes`next, Infos(nodes)`data16
    modifies res`calls, res`crc, res`crcmatrix, res`crcstate
    ensures IsList(list, order) && SameElements(order, nodes)
    ensures forall n :: n in nodes ==> n.info.data16.hi == old(n.info.data16.hi)
    ensures Computed(res.bench, old(RecordOf(res)), nodes, WordsOf(old(Items(nodes))), WordsOf(Items(nodes)), asked)
    ensures RecordOf(res) == AfterAll(res.bench, old(RecordOf(res)), WordsOf(old(Items(nodes))), asked)
    ensures if finderIdx > 0 then ByContent(found, Items(nodes), order) && OwnKeysCached(nodes, old(Items(nodes)), Items(nodes))
      else asked == [] && order == found && Items(nodes) == old(Items(nodes))
  {
    hide Linked, Distinct, IsList, OwnInfos, Key, ByContent, Items, ItemOf, SameElements, Computed, AfterAll, WordsOf, RecordOf;
    ghost var m0 := Items(nodes);
    list, order, asked := list0, found, [];
    NothingComputed(res.bench, RecordOf(res), nodes, WordsOf(m0));
    ItemsAre(nodes);
    if finderIdx > 0 {
      PermutedInfos(nodes, found);
      InNodes(found, nodes);
      SameItems(nodes, found);
      SameCount(found, nodes);
      list, order, asked := SortByContent(list, res, found);
      SameItems(nodes, found);
      ComputedFor(res.bench, old(RecordOf(res)), found, nodes, WordsOf(m0), WordsOf(Items(nodes)), asked);
      SameElementsTrans(order, found, nodes);
    }
    ItemsAre(nodes);
  }

  /** Up to there: the finds, and the sort if it takes place. */
  method FindAndSort(res: CoreResults, finderIdx: int16, ghost nodes: seq<ListHead>)
    returns (list: ListHead, idx: int16, low: int, retval: uint16, ghost order: seq<ListHead>, ghost asked: seq<ListHead>)
    requires IsList(res.list, nodes) && |nodes| >= 3 && OwnInfos(nodes)
    modifies nodes`next, Infos(nodes)`data16
    modifies res`calls, res`crc, res`crcmatrix, res`crcstate
    ensures Computed(res.bench, old(RecordOf(res)), nodes, WordsOf(old(Items(nodes))), WordsOf(Items(order)), asked)
    ensures RecordOf(res) == AfterAll(res.bench, old(RecordOf(res)), WordsOf(old(Items(nodes))), asked)
    ensures finderIdx <= 0 ==> asked == []
    ensures IsList(list, order) && SameElements(order, nodes)
    ensures forall n :: n in nodes ==> n.info.data16.hi == old(n.info.data16.hi)
    ensures OwnInfos(order) && Infos(order) == Infos(nodes) && |order| == |nodes|
    ensures Prepared(nodes, old(Items(nodes)), finderIdx, res.seed3, order, Items(order), idx, low)
    ensures retval == Finds(nodes, old(Items(nodes)), finderIdx, Turns(res.seed3)).score
  {
    hide Linked, Distinct, IsList, OwnInfos, Finds, Key, ByContent, Prepared, Items, ItemOf, SameElements, Turns;
    hide Computed, AfterAll, WordsOf, RecordOf;
    ItemsAre(nodes);
    low := *;
    ghost var m0 := Items(nodes);
    ghost var f := Finds(nodes, m0, finderIdx, Turns(res.seed3));
    list, idx, low, retval := FindLoop(res.list, res.seed3, finderIdx, low, nodes);
    list, order, asked := SortFound(list, res, finderIdx, nodes, f.order);
    ItemsAre(nodes);
    PreparedIs(nodes, m0, finderIdx, res.seed3, f, order, Items(nodes), idx, low);
    PermutedInfos(nodes, order);
    SameItems(nodes, order);
    SameCount(order, nodes);
  }

  lemma InNodes(order: seq<ListHead>, nodes: seq<ListHead>)
    requires SameElements(order, nodes)
    ensures forall n :: n in order <==> n in nodes
    ensures forall j :: 0 <= j < |order| ==> order[j] in nodes
  {
  }

  /** The last sort: it also rebuilds every data word. */
  method SortBack(list0: ListHead, ghost nodes: seq<ListHead>) returns (list: ListHead, ghost order: seq<ListHead>)
    requires IsList(list0, nodes) && |nodes| >= 2 && OwnInfos(nodes)
    modifies nodes`next, Infos(nodes)`data16
    ensures IsList(list, order) && SameElements(order, nodes) && StablySorted(CmpIdx, nodes, order)
    ensures forall n :: n in nodes ==> n.info.data16 == Word(old(n.info.data16.hi), old(n.info.data16.hi))
  {
    hide Linked, Distinct, StablySorted, Key, OwnInfos;
    ghost var asked;
    list, order, asked := MergeSort(list0, CmpIdx, null, nodes);
  }

  /** The CRC walk over a sorted list, which stays sorted. */
  method WalkSorted(list: ListHead, retval0: bv16, ghost nodes: seq<ListHead>, ghost order: seq<ListHead>)
    returns (retval: bv16)
    requires Linked(order) && |order| >= 2 && list == order[0] && StablySorted(CmpIdx, nodes, order)
    ensures StablySorted(CmpIdx, nodes, order)
    ensures retval == CrcTimes(list.info.data16, retval0, |order| - 1)
  {
    hide Linked, CrcTimes, IndexOf, Key;
    LinkAt(order, 0);
    retval := CrcWalk(list, list.next, retval0, order, 1);
  }

  /** The last sort and the CRC walk after it. */
  method SortByIdx(list0: ListHead, retval0: bv16, ghost nodes: seq<ListHead>)
    returns (retval: bv16, list: ListHead, ghost order: seq<ListHead>)
    requires IsList(list0, nodes) && |nodes| >= 2 && OwnInfos(nodes)
    modifies nodes`next, Infos(nodes)`data16
    ensures IsList(list, order) && SameElements(order, nodes) && StablySorted(CmpIdx, nodes, order)
    ensures forall n :: n in nodes ==> n.info.data16 == Word(old(n.info.data16.hi), old(n.info.data16.hi))
    ensures retval == CrcTimes(list.info.data16, retval0, |nodes| - 1)
  {
    hide Linked, Distinct, Key, CrcTimes, OwnInfos, StablySorted;
    list, order := SortBack(list0, nodes);
    SameCount(order, nodes);
    retval := WalkSorted(list, retval0, nodes, order);
  }

  lemma SameCount(a: seq<ListHead>, b: seq<ListHead>)
    requires SameElements(a, b)
    ensures |a| == |b|
  {
  }

  /** From there to the end of the function. */
  method RemoveAndRestore(list0: ListHead, idx: int16, low: int, retval0: bv16, ghost nodes: seq<ListHead>)
    returns (retval: bv16, list: ListHead, ghost order: seq<ListHead>)
    requires IsList(list0, nodes) && |nodes| >= 3 && OwnInfos(nodes)
    modifies nodes`next, nodes`info, Infos(nodes)`data16
    ensures IsList(list, order) && SameElements(order, nodes) && StablySorted(CmpIdx, nodes, order)
    ensures forall n :: n in nodes ==> n.info == old(n.info)
    ensures forall n :: n in nodes ==> n.info.data16 == Word(old(n.info.data16.hi), old(n.info.data16.hi))
    ensures retval == CrcTimes(list.info.data16,
      CrcTimes(old(list0.info.data16), retval0, WalkLength(nodes, old(Items(nodes)), idx, low)), |nodes| - 1)
  {
    hide Linked, Distinct, StablySorted, CrcTimes, WalkLength;
    retval := RemoveAndUndo(list0, idx, low, retval0, nodes);
    retval, list, order := SortByIdx(list0, retval, nodes);
  }

  lemma LinkAt(s: seq<ListHead>, i: nat)
    requires Linked(s) && i < |s|
    ensures s[i].next == At(s, i + 1)
  {
  }

  /** The result: one CRC walk over the prepared list, one over the restored one. */
  ghost function Result(nodes: seq<ListHead>, m0: Contents, finderIdx: int16, findNum: int16,
                        before: seq<ListHead>, m: Contents, idx: int16, low: int, last: Word): bv16
    requires |nodes| >= 3 && |before| == |nodes|
  {
    var score := Finds(nodes, m0, finderIdx, Turns(findNum)).score;
    CrcTimes(last, CrcTimes(ItemOf(m, before[0]).data, Bits(score), WalkLength(before, m, idx, low)), |nodes| - 1)
  }

  lemma ResultIs(nodes: seq<ListHead>, m0: Contents, finderIdx: int16, findNum: int16, before: seq<ListHead>,
                 m: Contents, idx: int16, low: int, first: Word, score: uint16, last: Word, retval: bv16)
    requires |nodes| >= 3 && |before| == |nodes| && first == ItemOf(m, before[0]).data
    requires score == Finds(nodes, m0, finderIdx, Turns(findNum)).score
    requires retval == CrcTimes(last, CrcTimes(first, Bits(score), WalkLength(before, m, idx, low)), |before| - 1)
    ensures retval == Result(nodes, m0, finderIdx, findNum, before, m, idx, low, last)
  {
    hide CrcTimes, Finds, WalkLength, Bits;
  }

  /** The whole function, before the final order is compared with the entry order. */
  method FindSortRestore(res: CoreResults, finderIdx: int16, ghost nodes: seq<ListHead>)
    returns (retval: bv16, list: ListHead, ghost before: seq<ListHead>, ghost order: seq<ListHead>,
             ghost m: Contents, ghost idx: int16, ghost low: int, ghost asked: seq<ListHead>)
    requires IsList(res.list, nodes) && |nodes| >= 3 && OwnInfos(nodes)
    modifies nodes`next, nodes`info, Infos(nodes)`data16
    modifies res`calls, res`crc, res`crcmatrix, res`crcstate
    ensures Computed(res.bench, old(RecordOf(res)), nodes, WordsOf(old(Items(nodes))), WordsOf(m), asked)
    ensures RecordOf(res) == AfterAll(res.bench, old(RecordOf(res)), WordsOf(old(Items(nodes))), asked)
    ensures finderIdx <= 0 ==> asked == []
    ensures IsList(list, order) && SameElements(order, before) && SameElements(before, nodes)
    ensures StablySorted(CmpIdx, before, order)
    ensures forall n :: n in nodes ==> n.info == old(n.info)
    ensures forall n :: n in nodes ==> n.info.data16 == Word(old(n.info.data16.hi), old(n.info.data16.hi))
    ensures Prepared(nodes, old(Items(nodes)), finderIdx, res.seed3, before, m, idx, low)
    ensures |before| == |nodes| &&
      retval == Result(nodes, old(Items(nodes)), finderIdx, res.seed3, before, m, idx, low, list.info.data16)
  {
    hide Linked, Distinct, StablySorted, OwnInfos, Finds, Key, WalkLength, CrcTimes, Prepared, Result, Items, ItemOf, Turns, Bits;
    hide Computed, AfterAll, WordsOf, RecordOf;
    ghost var m0 := Items(nodes);
    var idx', low', score;
    list, idx', low', score, before, asked := FindAndSort(res, finderIdx, nodes);
    idx, low, m := idx', low', Items(before);
    InNodes(before, nodes);
    ItemsAre(before);
    assert list == before[0];
    ghost var w := list.info.data16;
    retval, list, order := RemoveAndRestore(list, idx', low', Bits(score), before);
    ResultIs(nodes, m0, finderIdx, res.seed3, before, m, idx, low, w, score, list.info.data16, retval);
  }

  ghost predicate AllRegenerated(nodes: seq<ListHead>, m: Contents) {
    forall n :: n in nodes ==> Regenerated(ItemOf(m, n).data)
  }

  lemma ItemsReturnIff(nodes: seq<ListHead>, m: Contents)
    requires forall n :: n in nodes ==> ItemOf(m, n).idx == n.info.idx
    requires forall n :: n in nodes ==> n.info.data16 == Word(ItemOf(m, n).data.hi, ItemOf(m, n).data.hi)
    requires m.Keys == NodeSet(nodes)
    ensures Items(nodes) == m <==> AllRegenerated(nodes, m)
  {
    assert Items(nodes).Keys == NodeSet(nodes);
    forall n | n in nodes ensures Items(nodes)[n] == m[n] <==> Regenerated(ItemOf(m, n).data) { }
  }

  /** `core_bench_list`. Whatever the finder index, the number of finds and the results of the
      inner benchmarks, the nodes end up sorted by index with their own data items, and each
      data word is rebuilt from its upper byte. `before` is the order the last sort starts
      from, m the data items at that point. The list and its contents are back in their entry
      state exactly when the indices ascend, ties stand in `before` in their entry order, and
      the two bytes of each data word agreed. */
  method BenchList(res: CoreResults, finderIdx: int16, ghost nodes: seq<ListHead>)
    returns (retval: bv16, list: ListHead, ghost before: seq<ListHead>, ghost order: seq<ListHead>,
             ghost m: Contents, ghost idx: int16, ghost low: int, ghost asked: seq<ListHead>)
    requires IsList(res.list, nodes) && |nodes| >= 3 && OwnInfos(nodes)
    modifies nodes`next, nodes`info, Infos(nodes)`data16
    modifies res`calls, res`crc, res`crcmatrix, res`crcstate
    ensures Computed(res.bench, old(RecordOf(res)), nodes, WordsOf(old(Items(nodes))), WordsOf(m), asked)
    ensures RecordOf(res) == AfterAll(res.bench, old(RecordOf(res)), WordsOf(old(Items(nodes))), asked)
    ensures finderIdx <= 0 ==> asked == []
    ensures IsList(list, order) && SameElements(order, before) && SameElements(before, nodes)
    ensures StablySorted(CmpIdx, before, order)
    ensures forall n :: n in nodes ==> n.info == old(n.info)
    ensures forall n :: n in nodes ==> n.info.data16 == Word(old(n.info.data16.hi), old(n.info.data16.hi))
    ensures order == nodes && Items(nodes) == old(Items(nodes)) <==>
      Returns(nodes, old(Items(nodes)), before) && AllRegenerated(nodes, old(Items(nodes)))
    ensures order == nodes <==> Returns(nodes, old(Items(nodes)), before)
    ensures finderIdx <= 0 ==> (order == nodes <==>
      Returns(nodes, old(Items(nodes)), Finds(nodes, old(Items(nodes)), finderIdx, Turns(res.seed3)).order))
    ensures order == nodes ==> IsList(res.list, nodes)
    ensures Prepared(nodes, old(Items(nodes)), finderIdx, res.seed3, before, m, idx, low)
    ensures |before| == |nodes| &&
      retval == Result(nodes, old(Items(nodes)), finderIdx, res.seed3, before, m, idx, low, list.info.data16)
  {
    hide Linked, Distinct, StablySorted, OwnInfos, Key, SameElements, Prepared, Result, Returns, AllRegenerated, ItemOf, Items;
    hide Finds, Turns, Computed, AfterAll, WordsOf, RecordOf;
    ghost var m0 := Items(nodes);
    ItemsAre(nodes);
    ItemsOnly(nodes);
    retval, list, before, order, m, idx, low, asked := FindSortRestore(res, finderIdx, nodes);
    OrderReturnsIff(nodes, m0, before, order);
    if finderIdx <= 0 { Unsorted(nodes, m0, finderIdx, res.seed3, before, m, idx, low); }
    ItemsReturnIff(nodes, m0);
  }

  lemma Unsorted(nodes: seq<ListHead>, m0: Contents, finderIdx: int16, findNum: int16,
                 before: seq<ListHead>, m: Contents, idx: int16, low: int)
    requires |nodes| >= 3 && finderIdx <= 0 && Prepared(nodes, m0, finderIdx, findNum, before, m, idx, low)
    ensures before == Finds(nodes, m0, finderIdx, Turns(findNum)).order
  {
    hide Finds, ItemOf;
  }

  ghost function NodeSet(nodes: seq<ListHead>): set<ListHead> { set n | n in nodes }

  lemma ItemsOnly(nodes: seq<ListHead>)
    ensures Items(nodes).Keys == NodeSet(nodes)
  {
  }

  // ----- conditions on the entry state

  ghost predicate StrictIdx(nodes: seq<ListHead>, m: Contents) {
    forall i, j :: 0 <= i < j < |nodes| ==> ItemOf(m, nodes[i]).idx < ItemOf(m, nodes[j]).idx
  }

  ghost predicate WeakIdx(nodes: seq<ListHead>, m: Contents) {
    forall i, j :: 0 <= i < j < |nodes| ==> ItemOf(m, nodes[i]).idx <= ItemOf(m, nodes[j]).idx
  }

  /** Strictly ascending indices are enough for every run. */
  lemma StrictReturns(nodes: seq<ListHead>, m: Contents, before: seq<ListHead>)
    requires StrictIdx(nodes, m)
    ensures Returns(nodes, m, before)
  {
    forall i, j | 0 <= i < j < |nodes| ensures InIdxOrder(m, before, nodes[i], nodes[j]) {
      assert ItemOf(m, nodes[i]).idx < ItemOf(m, nodes[j]).idx;
    }
  }

  lemma StandsAt(s: seq<ListHead>, i: nat)
    requires Distinct(s) && i < |s|
    ensures IndexIn(s, s[i]) == i
  {
  }

  /** Of the entry order itself, and of its reversal. */
  lemma TurnedReturnsIff(nodes: seq<ListHead>, m: Contents)
    requires Distinct(nodes)
    ensures Returns(nodes, m, nodes) <==> WeakIdx(nodes, m)
    ensures Returns(nodes, m, Reversed(nodes)) <==> StrictIdx(nodes, m)
  {
    hide ItemOf, IndexIn;
    var rev := Reversed(nodes);
    ReversedElements(nodes);
    forall i, j | 0 <= i < j < |nodes|
      ensures Precedes(nodes, nodes[i], nodes[j]) && !Precedes(rev, nodes[i], nodes[j])
    {
      StandsAt(nodes, i);
      StandsAt(nodes, j);
      assert rev[|nodes| - 1 - i] == nodes[i] && rev[|nodes| - 1 - j] == nodes[j];
      StandsAt(rev, |nodes| - 1 - i);
      StandsAt(rev, |nodes| - 1 - j);
    }
    forall i, j | 0 <= i < j < |nodes|
      ensures InIdxOrder(m, nodes, nodes[i], nodes[j]) <==> ItemOf(m, nodes[i]).idx <= ItemOf(m, nodes[j]).idx
      ensures InIdxOrder(m, rev, nodes[i], nodes[j]) <==> ItemOf(m, nodes[i]).idx < ItemOf(m, nodes[j]).idx
    {
      assert Precedes(nodes, nodes[i], nodes[j]) && !Precedes(rev, nodes[i], nodes[j]);
    }
  }

  /** The finder index in turn t. */
  function IdxAt(idx: int16, t: nat): int16 { if t == 0 then idx else NextIdx(IdxAt(idx, t - 1)) }

  /** It counts up until it would overflow, and stays negative from there on, or from the start. */
  lemma {:induction false} IdxAtIs(idx: int16, t: nat)
    ensures IdxAt(idx, t) as int == if idx < 0 then idx as int else if idx as int + t <= 0x7fff then idx as int + t else -0x8000
  {
    if t > 0 {
      IdxAtIs(idx, t - 1);
    }
  }

  ghost predicate MissedIn(nodes: seq<ListHead>, m: Contents, idx: int16, t: nat) {
    forall n :: n in nodes ==> !Hit(m, n, IdxAt(idx, t), t % 256)
  }

  /** None of the first n finds has a match. */
  ghost predicate AllMissed(nodes: seq<ListHead>, m: Contents, idx: int16, n: nat) {
    forall t: nat :: t < n ==> MissedIn(nodes, m, idx, t)
  }

  lemma MissFirst(nodes: seq<ListHead>, s: seq<ListHead>, m: Contents, idx: int16, t: nat)
    requires MissedIn(nodes, m, idx, t) && forall n :: n in s ==> n in nodes
    ensures First(s, m, IdxAt(idx, t), t % 256) == |s|
  {
    hide Hit, IdxAt, First;
    var low := t % 256;
    FirstIs(s, m, IdxAt(idx, t), low, |s|);
  }

  ghost function TurnedOver(nodes: seq<ListHead>, n: nat): seq<ListHead> {
    if n % 2 == 0 then nodes else Reversed(nodes)
  }

  lemma TurnedOnce(nodes: seq<ListHead>, n: nat)
    ensures TurnedOver(nodes, n + 1) == RoundOrder(TurnedOver(nodes, n), |nodes|)
  {
    TwiceReversed(nodes);
    hide Reversed, Moved;
  }

  lemma TurnedMembers(nodes: seq<ListHead>, n: nat)
    ensures |TurnedOver(nodes, n)| == |nodes| && forall x :: x in TurnedOver(nodes, n) ==> x in nodes
  {
  }

  ghost predicate Turned(nodes: seq<ListHead>, m: Contents, idx: int16, n: nat)
    requires |nodes| >= 3
  {
    var f := Finds(nodes, m, idx, n);
    f.order == TurnedOver(nodes, n) && f.idx == IdxAt(idx, n)
  }

  lemma MissTurns(nodes: seq<ListHead>, m: Contents, idx: int16, n: nat)
    requires |nodes| >= 3 && Turned(nodes, m, idx, n) && MissedIn(nodes, m, idx, n)
    ensures Turned(nodes, m, idx, n + 1)
  {
    hide First, Finds, TurnedOver, RoundOrder, RoundScore, Wrap, MissedIn, NextIdx;
    FindsNext(nodes, m, idx, n);
    TurnedOnce(nodes, n);
    TurnedMembers(nodes, n);
    MissFirst(nodes, TurnedOver(nodes, n), m, idx, n);
  }

  lemma AllMissedSplit(nodes: seq<ListHead>, m: Contents, idx: int16, n: nat)
    requires AllMissed(nodes, m, idx, n + 1)
    ensures AllMissed(nodes, m, idx, n) && MissedIn(nodes, m, idx, n)
  {
    hide MissedIn;
  }

  lemma TurnedNone(nodes: seq<ListHead>, m: Contents, idx: int16)
    requires |nodes| >= 3
    ensures Turned(nodes, m, idx, 0)
  {
  }

  /** Finds that all miss turn the list over each time and do nothing else. */
  lemma {:induction false} MissesTurnOver(nodes: seq<ListHead>, m: Contents, idx: int16, n: nat)
    requires |nodes| >= 3 && AllMissed(nodes, m, idx, n)
    ensures Turned(nodes, m, idx, n)
  {
    hide Turned, AllMissed;
    if n == 0 {
      TurnedNone(nodes, m, idx);
    } else {
      AllMissedSplit(nodes, m, idx, n - 1);
      MissesTurnOver(nodes, m, idx, n - 1);
      MissTurns(nodes, m, idx, n - 1);
    }
  }

  lemma TwiceReversed(s: seq<ListHead>)
    ensures Reversed(Reversed(s)) == s && |Reversed(s)| == |s|
  {
  }

  /** If no find has a match and there is no content sort, the order comes back exactly when the
      indices ascend: weakly after an even number of finds, strictly after an odd number. */
  lemma MissingRunReturnsIff(nodes: seq<ListHead>, m0: Contents, finderIdx: int16, findNum: int16,
                             before: seq<ListHead>, m: Contents, idx: int16, low: int)
    requires |nodes| >= 3 && Distinct(nodes) && finderIdx <= 0
    requires Prepared(nodes, m0, finderIdx, findNum, before, m, idx, low)
    requires AllMissed(nodes, m0, finderIdx, Turns(findNum))
    ensures Returns(nodes, m0, before) <==> if Turns(findNum) % 2 == 0 then WeakIdx(nodes, m0) else StrictIdx(nodes, m0)
  {
    hide Returns, WeakIdx, StrictIdx, Finds, AllMissed, Reversed;
    MissesTurnOver(nodes, m0, finderIdx, Turns(findNum));
    TurnedReturnsIff(nodes, m0);
  }

  ghost function KeyIn(m: Contents, n: ListHead): int { ItemOf(m, n).data.lo % 0x80 }

  /** A content sort after finds that leave `found` puts x before y. */
  ghost predicate SortedAhead(m: Contents, found: seq<ListHead>, x: ListHead, y: ListHead) {
    KeyIn(m, x) < KeyIn(m, y) || (KeyIn(m, x) == KeyIn(m, y) && Precedes(found, x, y))
  }

  lemma PrecedesByContent(found: seq<ListHead>, m: Contents, before: seq<ListHead>, x: ListHead, y: ListHead)
    requires ByContent(found, m, before) && x in before && y in before && x != y
    ensures Precedes(before, x, y) <==> SortedAhead(m, found, x, y)
  {
    hide ItemOf;
    var i, j := IndexIn(before, x), IndexIn(before, y);
    assert i < |before| && j < |before| && before[i] == x && before[j] == y;
  }

  /** Ascending indices, ties in the order of their content. */
  ghost predicate ReturnsSorted(nodes: seq<ListHead>, m0: Contents, m: Contents, found: seq<ListHead>) {
    forall i, j :: 0 <= i < j < |nodes| ==> InSortedOrder(m0, m, found, nodes[i], nodes[j])
  }

  ghost predicate InSortedOrder(m0: Contents, m: Contents, found: seq<ListHead>, x: ListHead, y: ListHead) {
    ItemOf(m0, x).idx < ItemOf(m0, y).idx || (ItemOf(m0, x).idx == ItemOf(m0, y).idx && SortedAhead(m, found, x, y))
  }

  /** With a content sort the order comes back exactly when the indices ascend and ties stand in
      the order of their seven-bit keys, equal keys as the finds leave them. */
  lemma SortedRunReturnsIff(nodes: seq<ListHead>, m0: Contents, finderIdx: int16, findNum: int16,
                            before: seq<ListHead>, m: Contents, idx: int16, low: int)
    requires |nodes| >= 3 && finderIdx > 0 && SameElements(before, nodes)
    requires Prepared(nodes, m0, finderIdx, findNum, before, m, idx, low)
    ensures Returns(nodes, m0, before)
      <==> ReturnsSorted(nodes, m0, m, Finds(nodes, m0, finderIdx, Turns(findNum)).order)
  {
    hide ItemOf, Finds, ByContent, Precedes, SortedAhead, Turns;
    var found := Finds(nodes, m0, finderIdx, Turns(findNum)).order;
    forall i, j | 0 <= i < j < |nodes|
      ensures InIdxOrder(m0, before, nodes[i], nodes[j]) <==> InSortedOrder(m0, m, found, nodes[i], nodes[j])
    {
      assert nodes[i] in before && nodes[j] in before;
      PrecedesByContent(found, m, before, nodes[i], nodes[j]);
    }
  }

  /** If no data word on entry is an uncached one of operation 0 or 1, the keys too are those of
      the entry state, and the condition is one on the entry state alone. */
  lemma KeyedRunReturnsIff(nodes: seq<ListHead>, m0: Contents, finderIdx: int16, findNum: int16,
                           before: seq<ListHead>, m: Contents, idx: int16, low: int)
    requires |nodes| >= 3 && finderIdx > 0 && SameElements(before, nodes)
    requires Prepared(nodes, m0, finderIdx, findNum, before, m, idx, low)
    requires forall n :: n in nodes ==> OwnKey(ItemOf(m0, n).data)
    ensures Returns(nodes, m0, before)
      <==> ReturnsSorted(nodes, m0, m0, Finds(nodes, m0, finderIdx, Turns(findNum)).order)
  {
    hide Finds, Returns, ItemOf, Precedes, OwnKey, ByContent, Turns;
    SortedRunReturnsIff(nodes, m0, finderIdx, findNum, before, m, idx, low);
    var found := Finds(nodes, m0, finderIdx, Turns(findNum)).order;
    forall i, j | 0 <= i < j < |nodes|
      ensures InSortedOrder(m0, m, found, nodes[i], nodes[j]) <==> InSortedOrder(m0, m0, found, nodes[i], nodes[j])
    {
      assert nodes[i] in nodes && nodes[j] in nodes;
      KeyStays(nodes, m0, m, nodes[i]);
      KeyStays(nodes, m0, m, nodes[j]);
    }
  }

  lemma KeyStays(nodes: seq<ListHead>, m0: Contents, m: Contents, n: ListHead)
    requires OwnKeysCached(nodes, m0, m) && n in nodes && OwnKey(ItemOf(m0, n).data)
    ensures KeyIn(m, n) == KeyIn(m0, n)
  {
    hide ItemOf;
  }

  // ----- a list that does not come back

  /** Whatever three nodes have indices p == q < r and no matching data: after one find that
      misses, the order is the second, the first, the third. */
  lemma TieSwapped(a: ListHead, b: ListHead, c: ListHead, m0: Contents, before: seq<ListHead>, order: seq<ListHead>,
                   m: Contents, idx: int16, low: int)
    requires Distinct([a, b, c]) && SameElements(before, [a, b, c]) && SameElements(order, before)
    requires StablySorted(CmpIdx, before, order) && Prepared([a, b, c], m0, -1, 1, before, m, idx, low)
    requires forall n :: n in [a, b, c] ==> ItemOf(m0, n).idx == n.info.idx && ItemOf(m0, n).data.lo != 0
    requires a.info.idx == b.info.idx < c.info.idx
    ensures order == [b, a, c]
  {
    var nodes, swapped := [a, b, c], [b, a, c];
    hide ItemOf, StablySorted, Finds, IndexIn;
    assert MissedIn(nodes, m0, -1, 0);
    MissesTurnOver(nodes, m0, -1, 1);
    assert before == [c, b, a];
    StandsAt(before, 0);
    StandsAt(before, 1);
    StandsAt(before, 2);
    forall i, j | 0 <= i < j < 3 ensures InIdxOrder(m0, before, swapped[i], swapped[j]) {
      assert swapped[i] in nodes && swapped[j] in nodes;
    }
    OrderReturnsIff(swapped, m0, before, order);
  }

  /** Such a list, and one find that misses: the tied nodes come back in the opposite order. */
  method TiedRun(res: CoreResults, ghost a: ListHead, ghost b: ListHead, ghost c: ListHead) returns (list: ListHead)
    requires IsList(res.list, [a, b, c]) && OwnInfos([a, b, c]) && res.seed3 == 1
    requires forall n :: n in [a, b, c] ==> n.info.data16.lo != 0
    requires a.info.idx == b.info.idx < c.info.idx
    modifies {a, b, c}, {a.info, b.info, c.info}`data16
    modifies res`calls, res`crc, res`crcmatrix, res`crcstate
    ensures IsList(list, [b, a, c]) && a.info == old(a.info) && b.info == old(b.info) && c.info == old(c.info)
  {
    hide IsList, Linked, OwnInfos, Items, ItemOf, Prepared, StablySorted, SameElements, Returns, Result, Finds, Turns, AllRegenerated, Computed, AfterAll, WordsOf, RecordOf;
    ghost var nodes := [a, b, c];
    ItemsAre(nodes);
    ghost var m0 := Items(nodes);
    assert a in nodes && b in nodes && c in nodes;
    assert Infos(nodes) == {a.info, b.info, c.info};
    assert forall i :: 0 <= i < 3 ==> nodes[i] in nodes;
    DistinctNodes(res.list, nodes);
    var retval;
    ghost var before, order, m, idx, low, asked;
    retval, list, before, order, m, idx, low, asked := BenchList(res, -1, nodes);
    TieSwapped(a, b, c, m0, before, order, m, idx, low);
  }

  lemma DistinctNodes(list: ListHead, nodes: seq<ListHead>)
    requires IsList(list, nodes)
    ensures Distinct(nodes)
  {
  }

  method TieComesBackSwapped() returns (a: ListHead, b: ListHead, c: ListHead, list: ListHead)
    ensures a.info.idx == b.info.idx == 1 && c.info.idx == 2
    ensures IsList(list, [b, a, c])
  {
    hide IsList, OwnInfos, Distinct, Linked;
    var x := new ListData(Word(1, 1), 1);
    var y := new ListData(Word(1, 1), 1);
    var z := new ListData(Word(1, 1), 2);
    c := new ListHead(null, z);
    b := new ListHead(c, y);
    a := new ListHead(b, x);
    var res := new CoreResults(a, 1, (_, _, _, _) => Word(0, 0));
    ThreeNodes(a, b, c);
    list := TiedRun(res, a, b, c);
  }

  lemma ThreeNodes(a: ListHead, b: ListHead, c: ListHead)
    requires a.next == b && b.next == c && c.next == null && a != b && b != c && a != c
    requires a.info != b.info && b.info != c.info && a.info != c.info
    ensures IsList(a, [a, b, c]) && OwnInfos([a, b, c])
  {
  }
}
