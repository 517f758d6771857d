/** The linked list of CoreMark: list heads point to data items, and every operation rewires
    `next` pointers or overwrites data in place. */
module CoreList {
  import opened MachineTypes
  import opened Merging
  import Crc = Crc16

  class ListData {
    var data16: Word
    var idx: int16

    constructor (data16: Word, idx: int16)
      ensures this.data16 == data16 && this.idx == idx
    {
      this.data16, this.idx := data16, idx;
    }
  }

  class ListHead {
    var next: ListHead?
    var info: ListData

    constructor (next: ListHead?, info: ListData)
      ensures this.next == next && this.info == info
    {
      this.next, this.info := next, info;
    }
  }

  // ----- what a chain of nodes looks like

  /** The i-th node, or null past the end. */
  function At(s: seq<ListHead>, i: nat): ListHead? {
    if i < |s| then s[i] else null
  }

  function Previous(s: seq<ListHead>, i: nat): ListHead?
    requires i <= |s|
  {
    if i > 0 then s[i - 1] else null
  }

  /** Each node points to its successor, the last one to null. */
  ghost predicate Linked(s: seq<ListHead>)
    reads s`next
  {
    forall i :: 0 <= i < |s| ==> s[i].next == At(s, i + 1)
  }

  /** As `Linked`, but nothing is known of the last pointer. */
  ghost predicate Chained(s: seq<ListHead>)
    reads s`next
  {
    forall i :: 0 <= i < |s| - 1 ==> s[i].next == s[i + 1]
  }

  ghost predicate IsList(list: ListHead?, nodes: seq<ListHead>)
    reads nodes`next
  {
    list == At(nodes, 0) && Distinct(nodes) && Linked(nodes)
  }

  /** No two nodes share a data item. */
  ghost predicate OwnInfos(nodes: seq<ListHead>)
    reads nodes`info
  {
    forall i, j :: 0 <= i < j < |nodes| ==> nodes[i].info != nodes[j].info
  }

  ghost function Infos(nodes: seq<ListHead>): set<ListData>
    reads nodes`info
  {
    set n | n in nodes :: n.info
  }

  function Reversed<T>(s: seq<T>): (r: seq<T>) {
    seq(|s|, i requires 0 <= i < |s| => s[|s| - 1 - i])
  }

  // ----- reverse

  method Reverse(list: ListHead?, ghost nodes: seq<ListHead>) returns (r: ListHead?)
    requires IsList(list, nodes)
    modifies nodes`next
    ensures IsList(r, Reversed(nodes))
  {
    var list, next: ListHead? := list, null;
    ghost var k := 0;
    while list != null
      invariant 0 <= k <= |nodes|
      invariant list == At(nodes, k)
      invariant next == Previous(nodes, k)
      invariant forall i :: 0 <= i < k ==> nodes[i].next == Previous(nodes, i)
      invariant forall i :: k <= i < |nodes| ==> nodes[i].next == At(nodes, i + 1)
      decreases |nodes| - k
    {
      var tmp := list.next;
      list.next := next;
      next := list;
      list := tmp;
      k := k + 1;
    }
    BackwardsIsReversed(nodes);
    r := next;
  }

  lemma BackwardsIsReversed(nodes: seq<ListHead>)
    requires Distinct(nodes)
    requires forall i :: 0 <= i < |nodes| ==> nodes[i].next == Previous(nodes, i)
    ensures IsList(At(Reversed(nodes), 0), Reversed(nodes))
  {
    var r := Reversed(nodes);
    forall i | 0 <= i < |r| ensures r[i].next == At(r, i + 1) {
      var o := |nodes| - 1 - i;
      assert r[i] == nodes[o];
      assert o > 0 ==> r[i + 1] == nodes[o - 1];
    }
  }

  // ----- find

  /** Whether a node is the one looked for: by index, or by low data byte when idx < 0. */
  ghost predicate Matches(n: ListHead, idx: int16, low: int)
    reads n, n.info
  {
    if idx >= 0 then n.info.idx == idx else n.info.data16.lo == low
  }

  /** The first matching node, or null when no node matches. */
  method Find(list: ListHead?, idx: int16, low: int, ghost nodes: seq<ListHead>)
    returns (r: ListHead?, ghost k: nat)
    requires IsList(list, nodes)
    ensures k <= |nodes|
    ensures r == At(nodes, k)
    ensures if r == null then forall n :: n in nodes ==> !Matches(n, idx, low) else r in nodes && Matches(r, idx, low)
    ensures k < |nodes| ==> Matches(nodes[k], idx, low)
    ensures forall i :: 0 <= i < k ==> !Matches(nodes[i], idx, low)
  {
    r, k := list, 0;
    if idx >= 0 {
      while r != null && r.info.idx != idx
        invariant k <= |nodes| && r == At(nodes, k)
        invariant forall i :: 0 <= i < k ==> !Matches(nodes[i], idx, low)
        decreases |nodes| - k
      {
        r, k := r.next, k + 1;
      }
    } else {
      while r != null && r.info.data16.lo != low
        invariant k <= |nodes| && r == At(nodes, k)
        invariant forall i :: 0 <= i < k ==> !Matches(nodes[i], idx, low)
        decreases |nodes| - k
      {
        r, k := r.next, k + 1;
      }
    }
  }

  // ----- remove and undo

  /** The list without the node after nodes[k]. */
  ghost function Without(nodes: seq<ListHead>, k: nat): seq<ListHead>
    requires k + 1 < |nodes|
  {
    nodes[..k + 1] + nodes[k + 2..]
  }

  lemma Unlinked(nodes: seq<ListHead>, k: nat)
    requires Distinct(nodes) && k + 1 < |nodes|
    requires forall i :: 0 <= i < |nodes| && i != k && i != k + 1 ==> nodes[i].next == At(nodes, i + 1)
    requires nodes[k].next == At(nodes, k + 2)
    ensures IsList(nodes[0], Without(nodes, k))
  {
    var rest := Without(nodes, k);
    forall i | 0 <= i < |rest| ensures rest[i].next == At(rest, i + 1) {
      assert rest[i] == nodes[if i <= k then i else i + 1];
    }
  }

  lemma Relinked(nodes: seq<ListHead>, k: nat)
    requires Distinct(nodes) && k + 1 < |nodes|
    requires forall i :: 0 <= i < |nodes| && i != k && i != k + 1 ==> nodes[i].next == At(nodes, i + 1)
    requires nodes[k].next == nodes[k + 1] && nodes[k + 1].next == At(nodes, k + 2)
    ensures IsList(nodes[0], nodes)
  {
  }

  /** Unlinks the node after nodes[k], moving its data item into nodes[k]. */
  method Remove(item: ListHead, ghost nodes: seq<ListHead>, ghost k: nat) returns (ret: ListHead)
    requires IsList(At(nodes, 0), nodes) && k + 1 < |nodes| && item == nodes[k]
    modifies nodes`next, nodes`info
    ensures ret == nodes[k + 1] && ret.next == null
    ensures IsList(nodes[0], Without(nodes, k))
    ensures nodes[k].info == old(nodes[k + 1].info) && nodes[k + 1].info == old(nodes[k].info)
    ensures forall n :: n in nodes && n != nodes[k] && n != nodes[k + 1] ==> n.info == old(n.info)
  {
    hide Without;
    assert item in nodes && nodes[k + 1] in nodes;
    ret := item.next;
    var tmp := item.info;
    item.info := ret.info;
    ret.info := tmp;
    item.next := item.next.next;
    ret.next := null;
    Unlinked(nodes, k);
  }

  /** Links a removed node back after nodes[k] and swaps the data items back: given the list
      that `Remove` left, the result is the list it was given. */
  method UndoRemove(removed: ListHead, modified: ListHead, ghost nodes: seq<ListHead>, ghost k: nat)
    returns (r: ListHead)
    requires k + 1 < |nodes| && Distinct(nodes) && IsList(nodes[0], Without(nodes, k))
    requires modified == nodes[k] && removed == nodes[k + 1]
    modifies removed`next, removed`info, modified`next, modified`info
    ensures r == removed
    ensures IsList(nodes[0], nodes)
    ensures removed.info == old(modified.info) && modified.info == old(removed.info)
  {
    WithoutLinks(nodes, k);
    var tmp := removed.info;
    removed.info := modified.info;
    modified.info := tmp;
    removed.next := modified.next;
    modified.next := removed;
    r := removed;
    Relinked(nodes, k);
  }

  lemma WithoutLinks(nodes: seq<ListHead>, k: nat)
    requires k + 1 < |nodes| && Linked(Without(nodes, k))
    ensures forall i :: 0 <= i < |nodes| && i != k && i != k + 1 ==> nodes[i].next == At(nodes, i + 1)
    ensures nodes[k].next == At(nodes, k + 2)
  {
    var rest := Without(nodes, k);
    assert rest[k].next == At(rest, k + 1);
    forall i | 0 <= i < |nodes| && i != k && i != k + 1 ensures nodes[i].next == At(nodes, i + 1) {
      var o := if i <= k then i else i - 1;
      assert rest[o] == nodes[i] && rest[o].next == At(rest, o + 1);
    }
  }

  // ----- results and comparators

  /** The inner benchmarks, by the number of the call, the operation, its argument and the CRC so far. */
  type Bench = (nat, int, int, bv16) -> Word

  /** The results record. The inner benchmarks that an uncached data item runs are not part
      of this model: `bench` is an arbitrary 16-bit result per call, and `calls` numbers the
      calls, so nothing is assumed about them beyond leaving the list alone. */
  class CoreResults {
    const bench: Bench
    const seed3: int16
    var list: ListHead
    var calls: nat
    var crc: bv16
    var crclist: bv16
    var crcmatrix: Word
    var crcstate: Word

    constructor (list: ListHead, seed3: int16, bench: Bench)
      ensures this.list == list && this.seed3 == seed3 && this.bench == bench
      ensures calls == 0 && crc == crclist == 0 && crcmatrix == crcstate == Word(0, 0)
    {
      this.list, this.seed3, this.bench := list, seed3, bench;
      calls, crc, crclist, crcmatrix, crcstate := 0, 0, 0, Word(0, 0), Word(0, 0);
    }
  }

  ghost function Given(res: CoreResults?): set<CoreResults> {
    if res == null then {} else {res}
  }

  /** What the inner benchmarks leave in the results record. */
  datatype Record = Record(calls: nat, crc: bv16, crcmatrix: Word, crcstate: Word)

  ghost function RecordOf(res: CoreResults): Record
    reads res`calls, res`crc, res`crcmatrix, res`crcstate
  {
    Record(res.calls, res.crc, res.crcmatrix, res.crcstate)
  }

  datatype Comparator = CmpComplex | CmpIdx

  /** Bit 7: the low seven bits hold a computed value. */
  predicate Cached(data: Word) { data.lo / 0x80 == 1 }

  /** Whether the seven-bit value is the word's own low bits: it is cached, or the operation is
      one that returns its input. */
  predicate OwnKey(data: Word) { Cached(data) || data.lo % 8 >= 2 }

  /** Such a word once its value is cached. */
  function CachedAs(data: Word): Word { Word(data.hi, 0x80 + data.lo % 0x80) }

  /** The argument of operations 0 and 1: the four data bits twice, for operation 0 at least 0x22. */
  function Argument(data: Word): int {
    var bits := data.lo / 8 % 16;
    if data.lo % 8 == 0 && bits + bits * 16 < 0x22 then 0x22 else bits + bits * 16
  }

  /** What an uncached word computes. */
  function ValueOf(bench: Bench, s: Record, data: Word): Word {
    if data.lo % 8 <= 1 then bench(s.calls, data.lo % 8, Argument(data), s.crc) else data
  }

  function FirstOf(before: Word, after: Word): Word { if before == Word(0, 0) then after else before }

  /** The results record after that. */
  function AfterCalc(bench: Bench, s: Record, data: Word): Record {
    var v := ValueOf(bench, s, data);
    Record(if data.lo % 8 <= 1 then s.calls + 1 else s.calls, Crc.Crcu16(v, s.crc),
      if data.lo % 8 == 1 then FirstOf(s.crcmatrix, v) else s.crcmatrix,
      if data.lo % 8 == 0 then FirstOf(s.crcstate, v) else s.crcstate)
  }

  /** The record after the key of any word has been asked for, and the word. */
  function Asked(bench: Bench, s: Record, data: Word): Record {
    if Cached(data) then s else AfterCalc(bench, s, data)
  }

  function AskedWord(bench: Bench, s: Record, data: Word): Word {
    if Cached(data) then data else Word(data.hi, 0x80 + ValueOf(bench, s, data).lo % 0x80)
  }

  predicate Regenerated(data: Word) { data.lo == data.hi }

  /** The data a comparison leaves behind. `restore` says that no results record is given. */
  predicate Settled(cmp: Comparator, restore: bool, data: Word) {
    match cmp
    case CmpComplex => Cached(data)
    case CmpIdx => restore ==> Regenerated(data)
  }

  /** What sorting may do to one data word: keep its upper byte, keep it entirely once a
      comparison has settled it, and keep a key that is its own. */
  ghost predicate Evolves(cmp: Comparator, restore: bool, before: Word, after: Word) {
    && after.hi == before.hi
    && (Settled(cmp, restore, before) ==> after == before)
    && (after == before || Settled(cmp, restore, after))
    && (cmp == CmpComplex && OwnKey(before) ==> after.lo % 0x80 == before.lo % 0x80)
  }

  function KeyOf(cmp: Comparator, data16: Word, idx: int16): int {
    match cmp
    case CmpComplex => data16.lo % 0x80
    case CmpIdx => idx as int
  }

  ghost function Key(cmp: Comparator, d: ListData): int
    reads d
  {
    KeyOf(cmp, d.data16, d.idx)
  }

  /** What an uncached data word computes: an inner benchmark, or its own data. */
  method Operate(data: Word, res: CoreResults) returns (retval: Word)
    modifies res`calls, res`crc, res`crcmatrix, res`crcstate
    ensures retval == ValueOf(res.bench, old(RecordOf(res)), data)
    ensures RecordOf(res) == AfterCalc(res.bench, old(RecordOf(res)), data)
  {
    hide Crc.Crcu16;
    var flag := data.lo % 8;
    var dtype := data.lo / 8 % 16;
    dtype := dtype + dtype * 16;
    match flag {
      case 0 =>
        if dtype < 0x22 { dtype := 0x22; }
        retval := res.bench(res.calls, flag, dtype, res.crc);
        res.calls := res.calls + 1;
        if res.crcstate == Word(0, 0) { res.crcstate := retval; }
      case 1 =>
        retval := res.bench(res.calls, flag, dtype, res.crc);
        res.calls := res.calls + 1;
        if res.crcmatrix == Word(0, 0) { res.crcmatrix := retval; }
      case _ =>
        retval := data;
    }
    res.crc := Crc.Crcu16(retval, res.crc);
  }

  /** The key of a word is its own low bits if it is cached or of operation 2 to 7, and then no inner
      benchmark runs; otherwise exactly one does, on the doubled data bits, which are raised to 0x22
      for operation 0, and its result is cached, folded into the CRC and kept if it is the first. */
  ghost predicate KeyAsked(bench: Bench, s: Record, w: Word, t: Record, w': Word) {
    var op, bits := w.lo % 8, w.lo / 8 % 16;
    if w.lo >= 0x80 then w' == w && t == s
    else if op >= 2 then w' == Word(w.hi, 0x80 + w.lo) && t == s.(crc := Crc.Crcu16(w, s.crc))
    else
      var v := bench(s.calls, op, if op == 0 && bits <= 1 then 0x22 else 17 * bits, s.crc);
      && w' == Word(w.hi, 0x80 + v.lo % 0x80) && t.calls == s.calls + 1 && t.crc == Crc.Crcu16(v, s.crc)
      && t.crcstate == (if op == 0 && s.crcstate == Word(0, 0) then v else s.crcstate)
      && t.crcmatrix == (if op == 1 && s.crcmatrix == Word(0, 0) then v else s.crcmatrix)
  }

  lemma AskedMeans(bench: Bench, s: Record, w: Word)
    ensures KeyAsked(bench, s, w, Asked(bench, s, w), AskedWord(bench, s, w))
  {
    hide Crc.Crcu16;
  }

  /** `calc_func`: the cached value of a data item, computed and stored at its first use. */
  method CalcFunc(d: ListData, res: CoreResults) returns (retval: int)
    modifies d`data16, res`calls, res`crc, res`crcmatrix, res`crcstate
    ensures retval == KeyOf(CmpComplex, d.data16, d.idx)
    ensures Cached(d.data16) && Evolves(CmpComplex, false, old(d.data16), d.data16)
    ensures d.data16 == AskedWord(res.bench, old(RecordOf(res)), old(d.data16))
    ensures RecordOf(res) == Asked(res.bench, old(RecordOf(res)), old(d.data16))
    ensures KeyAsked(res.bench, old(RecordOf(res)), old(d.data16), RecordOf(res), d.data16)
  {
    hide AfterCalc, ValueOf, KeyAsked, RecordOf;
    var data := d.data16;
    ghost var s := RecordOf(res);
    AskedMeans(res.bench, s, data);
    AskedEvolves(res.bench, s, data);
    if data.lo / 0x80 == 1 {
      return data.lo % 0x80;
    }
    var value := Operate(data, res);
    retval := value.lo % 0x80;
    d.data16 := Word(data.hi, 0x80 + retval);
  }

  lemma AskedEvolves(bench: Bench, s: Record, w: Word)
    ensures Cached(AskedWord(bench, s, w)) && Evolves(CmpComplex, false, w, AskedWord(bench, s, w))
    ensures OwnKey(w) ==> AskedWord(bench, s, w) == CachedAs(w) && Asked(bench, s, w).calls == s.calls
  {
    hide Crc.Crcu16;
  }

  /** `cmp_complex` or `cmp_idx`; a null results record makes the latter regenerate data. */
  method Compare(cmp: Comparator, a: ListData, b: ListData, res: CoreResults?) returns (r: int)
    requires a != b && (cmp == CmpComplex ==> res != null)
    modifies a`data16, b`data16
    modifies Given(res)`calls, Given(res)`crc, Given(res)`crcmatrix, Given(res)`crcstate
    ensures r == Key(cmp, a) - Key(cmp, b)
    ensures Settled(cmp, res == null, a.data16) && Settled(cmp, res == null, b.data16)
    ensures Evolves(cmp, res == null, old(a.data16), a.data16)
    ensures Evolves(cmp, res == null, old(b.data16), b.data16)
    ensures cmp == CmpComplex ==>
      var s := old(RecordOf(res)); var t := Asked(res.bench, s, old(a.data16));
      && a.data16 == AskedWord(res.bench, s, old(a.data16)) && b.data16 == AskedWord(res.bench, t, old(b.data16))
      && RecordOf(res) == Asked(res.bench, t, old(b.data16))
    ensures cmp == CmpIdx && res != null ==> RecordOf(res) == old(RecordOf(res))
  {
    match cmp {
      case CmpComplex =>
        var v1 := CalcFunc(a, res);
        var v2 := CalcFunc(b, res);
        r := v1 - v2;
      case CmpIdx =>
        if res == null {
          a.data16 := Word(a.data16.hi, a.data16.hi);
          b.data16 := Word(b.data16.hi, b.data16.hi);
        }
        r := a.idx as int - b.idx as int;
    }
  }
}
