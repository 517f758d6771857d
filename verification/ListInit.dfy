/** `core_list_init`: the list that the benchmark works on. */
module ListInit {
  import opened Arith
  import opened BitOps
  import opened MachineTypes
  import opened Merging
  import opened CoreList
  import opened ListSort
  import opened BenchList
  import opened ListIndex
  import Crc = Crc16

  /** Both bytes of item i: four pattern bits and the operation. */
  function DataByte(i: nat, seed: int16): byte { Xor8(i % 0x100, LowByte(seed)) % 0x10 * 8 + i % 8 }

  lemma {:induction false} XorDiffers(x: nat, y: nat, m: nat, n: nat)
    requires n <= m
    ensures Crc.Bits(XorBits(x, y, m), n) == Crc.Differences(Crc.Bits(x, n), Crc.Bits(y, n))
  {
    if n > 0 {
      XorDiffers(x / 2, y / 2, m - 1, n - 1);
      XorHalves(x, y, m);
      OddSum(x, y);
      hide XorBits;
    }
  }

  lemma OddSum(x: nat, y: nat)
    ensures (x + y) % 2 == 1 <==> (x % 2 == 1) != (y % 2 == 1)
  {
  }

  /** Bit by bit, lowest first: the operation is the item number's three low bits, the data bits are
      those of item number and seed combined, and the last one, which says that nothing is cached,
      is clear. */
  lemma DataBits(i: nat, seed: int16)
    ensures Crc.Bits(DataByte(i, seed), 8) ==
      Crc.Bits(i, 3) + Crc.Differences(Crc.Bits(i, 4), Crc.Bits(LowByte(seed), 4)) + [false]
  {
    hide Crc.Bits, Crc.Differences, LowByte, Xor8;
    WordBits(Xor8(i % 0x100, LowByte(seed)), i);
    NibbleDiffers(i % 0x100, LowByte(seed));
    CutBits(i, 0x100, 8, 4);
  }

  lemma WordBits(z: nat, i: nat)
    ensures Crc.Bits(z % 16 * 8 + i % 8, 8) == Crc.Bits(i, 3) + Crc.Bits(z, 4) + [false]
  {
    hide Crc.Bits;
    CutBits(i, 8, 3, 3);
    CutBits(z, 16, 4, 4);
    JoinBits(i % 8, z % 16);
  }

  lemma NibbleDiffers(x: byte, s: byte)
    ensures Crc.Bits(Xor8(x, s), 4) == Crc.Differences(Crc.Bits(x, 4), Crc.Bits(s, 4))
  {
    hide Crc.Bits, Crc.Differences, XorBits;
    XorDiffers(x, s, 8, 4);
  }

  lemma CutBits(x: nat, p: nat, m: nat, n: nat)
    requires n <= m && (m, p) in {(3, 8), (4, 16), (8, 0x100)}
    ensures Crc.Bits(x % p, n) == Crc.Bits(x, n)
  {
    hide Crc.Bits;
    assert Pow2(3) == 8 && Pow2(4) == 16 && Pow2(8) == 0x100;
    hide Pow2;
    Crc.BitsCut(x, m, n);
  }

  lemma JoinBits(k: nat, n: nat)
    requires k < 8 && n < 16
    ensures Crc.Bits(n * 8 + k, 8) == Crc.Bits(k, 3) + Crc.Bits(n, 4) + [false]
  {
    hide Crc.Bits;
    assert Pow2(3) == 8 && Pow2(4) == 16;
    hide Pow2;
    Crc.BitsJoin(k, n, 3, 5);
    Crc.BitsJoin(n, 0, 4, 1);
    LastBit();
    assert Crc.Bits(k, 3) + (Crc.Bits(n, 4) + [false]) == Crc.Bits(k, 3) + Crc.Bits(n, 4) + [false];
  }

  lemma LastBit()
    ensures Crc.Bits(0, 1) == [false]
  {
  }

  /** The data word at position p of n nodes: the items stand in reverse order of insertion. */
  function EntryWord(n: nat, p: nat, seed: int16): Word {
    if p == 0 then Word(0x80, 0x80) else if p + 1 >= n then Word(0xff, 0xff)
    else var b := DataByte(n - 2 - p, seed); Word(b, b)
  }

  /** `core_list_insert_new`: links a new node in behind the insert point, while there is room. */
  method InsertNew(insertPoint: ListHead, data16: Word, idx: int16, used0: nat, size: nat)
    returns (newItem: ListHead?, used: nat)
    modifies insertPoint`next
    ensures newItem == null <==> used0 + 1 >= size
    ensures newItem == null ==> used == used0 && insertPoint.next == old(insertPoint.next)
    ensures newItem != null ==>
      && used == used0 + 1 && insertPoint.next == newItem && newItem.next == old(insertPoint.next)
      && fresh(newItem) && fresh(newItem.info) && newItem.info.data16 == data16 && newItem.info.idx == idx
  {
    if used0 + 1 >= size {
      return null, used0;
    }
    var info := new ListData(data16, idx);
    newItem := new ListHead(insertPoint.next, info);
    insertPoint.next := newItem;
    used := used0 + 1;
  }

  ghost predicate Filled(nodes: seq<ListHead>, seed: int16)
    reads nodes`info, Infos(nodes)
  {
    && |nodes| >= 2 && nodes[0].info.idx == 0 && nodes[|nodes| - 1].info.idx == 0x7fff
    && forall p :: 0 <= p < |nodes| ==> nodes[p].info.data16 == EntryWord(|nodes|, p, seed)
  }

  lemma SecondAdded(nodes: seq<ListHead>, x: ListHead)
    requires |nodes| >= 2 && Distinct(nodes) && x !in nodes
    requires forall i :: 0 < i < |nodes| ==> nodes[i].next == At(nodes, i + 1)
    requires nodes[0].next == x && x.next == nodes[1]
    ensures IsList(nodes[0], [nodes[0], x] + nodes[1..])
  {
  }

  lemma SecondFilled(nodes: seq<ListHead>, x: ListHead, seed: int16)
    requires Filled(nodes, seed) && x.info.data16 == EntryWord(|nodes| + 1, 1, seed)
    ensures Filled([nodes[0], x] + nodes[1..], seed)
  {
    var more := [nodes[0], x] + nodes[1..];
    forall p | 0 <= p < |more| ensures more[p].info.data16 == EntryWord(|more|, p, seed) {
      if p > 1 { assert more[p] == nodes[p - 1]; }
    }
  }

  lemma SecondOwns(nodes: seq<ListHead>, x: ListHead)
    requires |nodes| >= 1 && OwnInfos(nodes) && x.info !in Infos(nodes)
    ensures OwnInfos([nodes[0], x] + nodes[1..])
  {
    var more := [nodes[0], x] + nodes[1..];
    forall i, j | 0 <= i < j < |more| ensures more[i].info != more[j].info {
      assert more[i] == x || more[i] in nodes;
      assert more[j] == x || more[j] in nodes;
    }
  }

  /** A whole list, with its data words. */
  ghost predicate Ready(list: ListHead, nodes: seq<ListHead>, seed: int16)
    reads nodes, Infos(nodes)
  {
    IsList(list, nodes) && OwnInfos(nodes) && Filled(nodes, seed)
  }

  /** Item i goes in behind the head, if there is room. */
  method InsertItem(list: ListHead, i: nat, size: nat, seed: int16, used0: nat, ghost nodes0: seq<ListHead>)
    returns (used: nat, ghost nodes: seq<ListHead>)
    requires size >= 3 && Ready(list, nodes0, seed) && |nodes0| == used0 == Min(i + 2, size - 1)
    modifies list`next
    ensures Ready(list, nodes, seed) && |nodes| == used == Min(i + 3, size - 1)
    ensures forall n :: n in nodes ==> if n in nodes0 then n.info == old(n.info) else fresh(n) && fresh(n.info)
  {
    hide OwnInfos, EntryWord, DataByte;
    nodes := nodes0;
    var item;
    var dat := DataByte(i, seed);
    assert EntryWord(used0 + 1, 1, seed) == Word(dat, dat) || used0 + 1 >= size by { ItemWord(i, seed); }
    assert forall p :: 0 < p < |nodes| ==> nodes[p] != list;
    item, used := InsertNew(list, Word(dat, dat), 0x7fff, used0, size);
    if item != null {
      SecondReady(list, nodes, item, seed);
      nodes := [nodes[0], item] + nodes[1..];
    }
  }

  lemma SecondReady(list: ListHead, nodes: seq<ListHead>, x: ListHead, seed: int16)
    requires |nodes| >= 2 && Distinct(nodes) && list == nodes[0] && x !in nodes
    requires forall i :: 0 < i < |nodes| ==> nodes[i].next == At(nodes, i + 1)
    requires nodes[0].next == x && x.next == nodes[1]
    requires OwnInfos(nodes) && x.info !in Infos(nodes)
    requires Filled(nodes, seed) && x.info.data16 == EntryWord(|nodes| + 1, 1, seed)
    ensures Ready(list, [nodes[0], x] + nodes[1..], seed)
  {
    hide EntryWord, OwnInfos, Filled, Linked, Distinct, Infos;
    SecondAdded(nodes, x);
    SecondFilled(nodes, x, seed);
    SecondOwns(nodes, x);
  }

  lemma ItemWord(i: nat, seed: int16)
    ensures var dat := DataByte(i, seed); EntryWord(i + 3, 1, seed) == Word(dat, dat)
  {
  }

  /** The fake head and tail. */
  method Ends(size: nat, seed: int16) returns (list: ListHead, used: nat, ghost nodes: seq<ListHead>)
    requires size >= 3
    ensures |nodes| == used == 2 && Ready(list, nodes, seed) && fresh(list)
    ensures forall n :: n in nodes ==> fresh(n) && fresh(n.info)
  {
    var head := new ListData(Word(0x80, 0x80), 0);
    list := new ListHead(null, head);
    var tail;
    tail, used := InsertNew(list, Word(0xff, 0xff), 0x7fff, 1, size);
    nodes := [list, tail];
  }

  /** Head and tail, and between them as many items as there is room for. */
  method Build(size: nat, seed: int16) returns (list: ListHead, ghost nodes: seq<ListHead>)
    requires size >= 3
    ensures |nodes| == size - 1 && Ready(list, nodes, seed)
    ensures forall n :: n in nodes ==> fresh(n) && fresh(n.info)
  {
    hide Ready;
    var used;
    list, used, nodes := Ends(size, seed);
    for i := 0 to size
      invariant |nodes| == used == Min(i + 2, size - 1) && Ready(list, nodes, seed)
      invariant fresh(list) && forall n :: n in nodes ==> fresh(n) && fresh(n.info)
    {
      used, nodes := InsertItem(list, i, size, seed, used, nodes);
    }
  }

  /** What stands where, in the numbered list and in the same nodes after sorting. */
  ghost predicate Numbered(built: seq<ListHead>, size: nat, seed: int16)
    reads built`info, Infos(built)
  {
    |built| == size - 1 && forall p :: 0 <= p < |built| ==> Entry(built[p], size, p, seed)
  }

  ghost predicate Entry(n: ListHead, size: nat, p: nat, seed: int16)
    requires size >= 1
    reads n`info, n.info
  {
    n.info.idx == EntryIdx(size, p, seed) && n.info.data16 == EntryWord(size - 1, p, seed)
  }

  /** The loop that numbers the items; head and tail keep their indices. */
  method NumberItems(list: ListHead, size: nat, seed: int16, ghost nodes: seq<ListHead>)
    requires |nodes| == size - 1 && size >= 3 && IsList(list, nodes) && OwnInfos(nodes)
    requires nodes[0].info.idx == 0 && nodes[size - 2].info.idx == 0x7fff
    modifies Infos(nodes)`idx
    ensures forall p :: 0 <= p < |nodes| ==> nodes[p].info.idx == EntryIdx(size, p, seed)
  {
    hide InitIdx;
    assert list.next == nodes[1];
    var finder := list.next;
    var i := 1;
    while finder.next != null
      invariant 1 <= i < |nodes| && finder == nodes[i]
      invariant forall p :: 0 <= p < i ==> nodes[p].info.idx == EntryIdx(size, p, seed)
      invariant nodes[|nodes| - 1].info.idx == 0x7fff
      decreases |nodes| - i
    {
      assert finder in nodes && finder.next == At(nodes, i + 1);
      finder.info.idx := InitIdx(size, i, seed);
      i := i + 1;
      finder := finder.next;
    }
  }

  method Number(list: ListHead, size: nat, seed: int16, ghost nodes: seq<ListHead>)
    requires |nodes| == size - 1 && size >= 3 && Ready(list, nodes, seed)
    modifies Infos(nodes)`idx
    ensures Numbered(nodes, size, seed)
  {
    hide EntryIdx, EntryWord, Distinct, Linked, OwnInfos;
    NumberItems(list, size, seed, nodes);
  }

  /** What sorting by index makes of the numbered list. */
  lemma EntryOrder(built: seq<ListHead>, nodes: seq<ListHead>, size: nat, seed: int16)
    requires size >= 3 && Numbered(built, size, seed) && SameElements(nodes, built) && Distinct(built)
    requires StablySorted(CmpIdx, built, nodes)
    ensures WeakIdx(nodes, Items(nodes))
    ensures StrictIdx(nodes, Items(nodes)) <==> Apart(size, seed)
  {
    hide ItemOf, Items, EntryIdx, EntryWord, IndexOf;
    ItemsAre(nodes);
    assert forall p :: 0 <= p < |built| ==> Entry(built[p], size, p, seed);
    assert forall i :: 0 <= i < |nodes| ==> nodes[i] in nodes;
    if Apart(size, seed) {
      forall i, j | 0 <= i < j < |nodes| ensures nodes[i].info.idx < nodes[j].info.idx {
        var p :| 0 <= p < |built| && built[p] == nodes[i];
        var q :| 0 <= q < |built| && built[q] == nodes[j];
        assert nodes[i].info.idx <= nodes[j].info.idx;
        ApartAt(size, seed, p, q);
      }
    }
    if StrictIdx(nodes, Items(nodes)) {
      forall p: nat, q: nat | p < q <= size - 2 ensures EntryIdx(size, p, seed) != EntryIdx(size, q, seed) {
        assert built[p] in built && built[q] in built && built[p] != built[q];
        var i :| 0 <= i < |nodes| && nodes[i] == built[p];
        var j :| 0 <= j < |nodes| && nodes[j] == built[q];
        assert ItemOf(Items(nodes), nodes[i]).idx != ItemOf(Items(nodes), nodes[j]).idx;
      }
    }
  }

  lemma ApartAt(size: nat, seed: int16, p: nat, q: nat)
    requires Apart(size, seed) && p <= size - 2 && q <= size - 2 && p != q
    ensures EntryIdx(size, p, seed) != EntryIdx(size, q, seed)
  {
    hide EntryIdx;
    if p < q {
      assert EntryIdx(size, p, seed) != EntryIdx(size, q, seed);
    } else {
      assert EntryIdx(size, q, seed) != EntryIdx(size, p, seed);
    }
  }

  lemma EntryStays(size: nat, p: nat, seed: int16)
    requires size >= 1
    ensures Regenerated(EntryWord(size - 1, p, seed))
  {
    hide DataByte;
  }

  /** The sort at the end. */
  method SortEntries(list0: ListHead, size: nat, seed: int16, ghost built: seq<ListHead>)
    returns (list: ListHead, ghost nodes: seq<ListHead>)
    requires size >= 3 && IsList(list0, built) && OwnInfos(built) && Numbered(built, size, seed)
    modifies built`next, Infos(built)`data16
    ensures IsList(list, nodes) && SameElements(nodes, built) && StablySorted(CmpIdx, built, nodes)
    ensures Numbered(built, size, seed)
  {
    hide EntryIdx, EntryWord, Linked, Distinct, StablySorted, OwnInfos, IndexOf;
    ghost var asked;
    list, nodes, asked := MergeSort(list0, CmpIdx, null, built);
    forall p | 0 <= p < |built| ensures Entry(built[p], size, p, seed) {
      assert built[p] in built && old(Entry(built[p], size, p, seed));
      EntryStays(size, p, seed);
    }
  }

  lemma NodesKnown(built: seq<ListHead>, nodes: seq<ListHead>, size: nat, seed: int16)
    requires size >= 3 && SameElements(nodes, built) && Numbered(built, size, seed)
    ensures AllRegenerated(nodes, Items(nodes))
  {
    hide EntryIdx, EntryWord, ItemOf, Items;
    ItemsAre(nodes);
    forall n | n in nodes ensures Regenerated(ItemOf(Items(nodes), n).data) {
      var p :| 0 <= p < |built| && built[p] == n;
      assert Entry(built[p], size, p, seed);
      EntryStays(size, p, seed);
    }
  }

  /** `core_list_init` for `size` items. It builds size - 1 nodes, numbers them and sorts them by
      index; the indices then ascend, strictly if and only if no two of them were equal. */
  method Init(size: nat, seed: int16) returns (list: ListHead, ghost built: seq<ListHead>, ghost nodes: seq<ListHead>)
    requires size >= 3
    ensures IsList(list, nodes) && OwnInfos(nodes) && |nodes| == size - 1
    ensures Numbered(built, size, seed) && SameElements(nodes, built) && StablySorted(CmpIdx, built, nodes)
    ensures AllRegenerated(nodes, Items(nodes)) && WeakIdx(nodes, Items(nodes))
    ensures StrictIdx(nodes, Items(nodes)) <==> Apart(size, seed)
    ensures forall n :: n in nodes ==> fresh(n) && fresh(n.info)
  {
    hide EntryIdx, EntryWord, Linked, Distinct, StablySorted, WeakIdx, StrictIdx, Apart, Items, ItemOf, OwnInfos;
    list, built := Build(size, seed);
    Number(list, size, seed, built);
    list, nodes := SortEntries(list, size, seed, built);
    DistinctNodes(list, nodes);
    EntryOrder(built, nodes, size, seed);
    NodesKnown(built, nodes, size, seed);
    PermutedInfos(built, nodes);
    SameCount(nodes, built);
  }
}
