/** `core_list_mergesort`: the in-place, non-recursive merge sort, with comparators that
    change the data they compare. */
module ListSort {
  import opened MachineTypes
  import opened Merging
  import opened CoreList
  import Crc = Crc16

  /** One call of the sort: the nodes, with the positions, data and indices they start with, and the
      results record with its contents. */
  datatype Call = Call(cmp: Comparator, restore: bool, nodes: seq<ListHead>,
                       rank: map<ListHead, int>, was: map<ListHead, Word>, idx: map<ListHead, int16>,
                       res: CoreResults?, bench: Bench, start: Record)

  /** What comparisons have established: the keys of the nodes compared, all data now, and the nodes
      whose keys have been computed, in that order. */
  datatype Known = Known(key: Keys<ListHead>, now: map<ListHead, Word>, asked: seq<ListHead>)

  // ----- the computed keys

  function WordIn(m: map<ListHead, Word>, n: ListHead): Word { if n in m then m[n] else Word(0, 0) }

  /** The results record after the keys of these nodes have been computed, one after the other. */
  function AfterAll(bench: Bench, start: Record, was: map<ListHead, Word>, asked: seq<ListHead>): Record {
    if asked == [] then start
    else AfterCalc(bench, AfterAll(bench, start, was, asked[..|asked| - 1]), WordIn(was, asked[|asked| - 1]))
  }

  /** Node i of asked has cached what its word computes after those before it. */
  predicate ComputedAt(bench: Bench, start: Record, was: map<ListHead, Word>, now: map<ListHead, Word>,
                       asked: seq<ListHead>, i: nat)
    requires i < |asked|
  {
    var w := WordIn(was, asked[i]);
    !Cached(w) && WordIn(now, asked[i]) == AskedWord(bench, AfterAll(bench, start, was, asked[..i]), w)
  }

  /** Each node of asked was uncached and has got its key in its turn; no other node has changed. */
  ghost predicate Computed(bench: Bench, start: Record, nodes: seq<ListHead>, was: map<ListHead, Word>,
                           now: map<ListHead, Word>, asked: seq<ListHead>) {
    && Distinct(asked) && (forall n :: n in asked ==> n in nodes)
    && (forall i :: 0 <= i < |asked| ==> ComputedAt(bench, start, was, now, asked, i))
    && (forall n :: n in nodes && n !in asked ==> WordIn(now, n) == WordIn(was, n))
  }

  lemma AfterAllSnoc(bench: Bench, start: Record, was: map<ListHead, Word>, asked: seq<ListHead>, n: ListHead)
    ensures AfterAll(bench, start, was, asked + [n]) == AfterCalc(bench, AfterAll(bench, start, was, asked), WordIn(was, n))
  {
    hide AfterCalc;
    assert (asked + [n])[..|asked|] == asked;
  }

  lemma AskedAreCached(bench: Bench, start: Record, nodes: seq<ListHead>, was: map<ListHead, Word>,
                       now: map<ListHead, Word>, asked: seq<ListHead>)
    requires Computed(bench, start, nodes, was, now, asked)
    ensures forall n :: n in asked ==> Cached(WordIn(now, n))
  {
    hide AfterAll, ValueOf;
    forall n | n in asked ensures Cached(WordIn(now, n)) {
      var i :| 0 <= i < |asked| && asked[i] == n;
      assert ComputedAt(bench, start, was, now, asked, i);
    }
  }

  /** One more node. */
  lemma ComputedSnoc(bench: Bench, start: Record, nodes: seq<ListHead>, was: map<ListHead, Word>,
                     now: map<ListHead, Word>, asked: seq<ListHead>, n: ListHead, w: Word)
    requires Computed(bench, start, nodes, was, now, asked) && n in nodes && !Cached(WordIn(now, n))
    requires w == AskedWord(bench, AfterAll(bench, start, was, asked), WordIn(now, n))
    ensures n !in asked && WordIn(was, n) == WordIn(now, n)
    ensures Computed(bench, start, nodes, was, now[n := w], asked + [n])
  {
    hide AfterAll, ValueOf;
    AskedAreCached(bench, start, nodes, was, now, asked);
    var more, later := asked + [n], now[n := w];
    forall i | 0 <= i < |more| ensures ComputedAt(bench, start, was, later, more, i) {
      if i < |asked| {
        assert more[..i] == asked[..i] && more[i] != n && ComputedAt(bench, start, was, now, asked, i);
      } else {
        assert more[..i] == asked;
      }
    }
  }

  /** So the key of each is that of `calc_func` in its turn. */
  lemma ComputedInTurn(bench: Bench, start: Record, nodes: seq<ListHead>, was: map<ListHead, Word>,
                       now: map<ListHead, Word>, asked: seq<ListHead>, i: nat)
    requires Computed(bench, start, nodes, was, now, asked) && i < |asked|
    ensures KeyAsked(bench, AfterAll(bench, start, was, asked[..i]), WordIn(was, asked[i]),
                     AfterAll(bench, start, was, asked[..i + 1]), WordIn(now, asked[i]))
  {
    hide KeyAsked, AfterAll, AfterCalc, AskedWord;
    var s, w := AfterAll(bench, start, was, asked[..i]), WordIn(was, asked[i]);
    assert ComputedAt(bench, start, was, now, asked, i);
    assert asked[..i + 1] == asked[..i] + [asked[i]];
    AfterAllSnoc(bench, start, was, asked[..i], asked[i]);
    AskedMeans(bench, s, w);
  }

  /** How many of them run an inner benchmark. */
  function InnerCount(was: map<ListHead, Word>, asked: seq<ListHead>): nat {
    if asked == [] then 0
    else InnerCount(was, asked[..|asked| - 1]) + if WordIn(was, asked[|asked| - 1]).lo % 8 <= 1 then 1 else 0
  }

  lemma {:induction false} CallNumber(bench: Bench, start: Record, was: map<ListHead, Word>, asked: seq<ListHead>)
    ensures AfterAll(bench, start, was, asked).calls == start.calls + InnerCount(was, asked)
  {
    if asked != [] {
      hide ValueOf, FirstOf;
      CallNumber(bench, start, was, asked[..|asked| - 1]);
    }
  }

  /** Different nodes that run an inner benchmark have the results of different calls. */
  lemma {:induction false} DistinctCalls(bench: Bench, start: Record, was: map<ListHead, Word>, asked: seq<ListHead>, i: nat, j: nat)
    requires i < j < |asked| && WordIn(was, asked[i]).lo % 8 <= 1
    ensures start.calls <= AfterAll(bench, start, was, asked[..i]).calls < AfterAll(bench, start, was, asked[..j]).calls
    ensures AfterAll(bench, start, was, asked[..j]).calls <= AfterAll(bench, start, was, asked).calls
  {
    hide AfterAll;
    CallNumber(bench, start, was, asked[..i]);
    CallNumber(bench, start, was, asked[..j]);
    CallNumber(bench, start, was, asked);
    InnerMore(was, asked, i + 1, j);
    InnerMore(was, asked, j, |asked|);
    assert asked[..i + 1][..i] == asked[..i] && asked[..|asked|] == asked;
  }

  lemma {:induction false} InnerMore(was: map<ListHead, Word>, asked: seq<ListHead>, i: nat, j: nat)
    requires i <= j <= |asked|
    ensures InnerCount(was, asked[..i]) <= InnerCount(was, asked[..j])
    decreases j
  {
    if i < j {
      assert asked[..j][..j - 1] == asked[..j - 1];
      InnerMore(was, asked, i, j - 1);
    }
  }

  /** The values computed, one after the other. */
  function Values(bench: Bench, start: Record, was: map<ListHead, Word>, asked: seq<ListHead>): seq<Word> {
    if asked == [] then []
    else
      var n := |asked| - 1;
      Values(bench, start, was, asked[..n]) + [ValueOf(bench, AfterAll(bench, start, was, asked[..n]), WordIn(was, asked[n]))]
  }

  function CrcThrough(crc: bv16, values: seq<Word>): bv16 {
    if values == [] then crc else Crc.Crcu16(values[|values| - 1], CrcThrough(crc, values[..|values| - 1]))
  }

  lemma {:induction false} CrcThroughBoth(crc: bv16, a: seq<Word>, b: seq<Word>)
    ensures CrcThrough(crc, a + b) == CrcThrough(CrcThrough(crc, a), b)
  {
    hide Crc.Crcu16;
    if b == [] {
      assert a + b == a;
    } else {
      var n := |b| - 1;
      assert (a + b)[..|a + b| - 1] == a + b[..n];
      CrcThroughBoth(crc, a, b[..n]);
    }
  }

  /** The CRC has gone through all of them. */
  lemma {:induction false} AfterAllCrc(bench: Bench, start: Record, was: map<ListHead, Word>, asked: seq<ListHead>)
    ensures AfterAll(bench, start, was, asked).crc == CrcThrough(start.crc, Values(bench, start, was, asked))
  {
    hide Crc.Crcu16, ValueOf, FirstOf;
    if asked != [] {
      var n := |asked| - 1;
      var vs := Values(bench, start, was, asked[..n]);
      AfterAllCrc(bench, start, was, asked[..n]);
      assert Values(bench, start, was, asked)[..|vs|] == vs;
    }
  }

  /** What the comparisons have computed, as far as they compute anything. */
  ghost predicate Told(c: Call, k: Known) {
    match c.cmp
    case CmpComplex => Computed(c.bench, c.start, c.nodes, c.was, k.now, k.asked)
    case CmpIdx => k.asked == []
  }

  ghost function RecordAt(c: Call, k: Known): Record { AfterAll(c.bench, c.start, c.was, k.asked) }

  /** The keys are those of settled nodes; no data word has changed beyond what comparisons
      may do. */
  ghost predicate Kept(c: Call, k: Known) {
    && (forall n :: n in c.nodes ==>
          n in k.now && n in c.was && n in c.idx && Evolves(c.cmp, c.restore, c.was[n], k.now[n]))
    && forall n :: n in k.key ==>
         && n in c.nodes && Settled(c.cmp, c.restore, k.now[n])
         && k.key[n] == KeyOf(c.cmp, k.now[n], c.idx[n])
  }

  ghost predicate Sound(c: Call, k: Known) { Told(c, k) && Kept(c, k) }

  /** The heap holds the data of k, and the results record what has been computed. */
  ghost predicate Holds(c: Call, k: Known)
    reads c.nodes`info, Infos(c.nodes)
    reads Given(c.res)`calls, Given(c.res)`crc, Given(c.res)`crcmatrix, Given(c.res)`crcstate
  {
    && OwnInfos(c.nodes)
    && (forall n :: n in c.nodes ==>
         n in k.now && n in c.idx && n.info.data16 == k.now[n] && n.info.idx == c.idx[n])
    && InStep(c, k)
  }

  ghost predicate InStep(c: Call, k: Known)
    reads Given(c.res)`calls, Given(c.res)`crc, Given(c.res)`crcmatrix, Given(c.res)`crcstate
  {
    c.res != null ==> c.res.bench == c.bench && RecordOf(c.res) == RecordAt(c, k)
  }

  ghost predicate Matching(c: Call, cmp: Comparator, res: CoreResults?) {
    c.cmp == cmp && c.restore == (res == null) && (cmp == CmpComplex ==> res != null) && c.res == res
  }

  ghost function Learn(c: Call, k: Known, n: ListHead, w: Word): Known
    requires n in c.idx && n in k.now
  {
    Known(k.key[n := KeyOf(c.cmp, w, c.idx[n])], k.now[n := w],
      if c.cmp == CmpComplex && !Cached(k.now[n]) then k.asked + [n] else k.asked)
  }

  ghost predicate Learned(c: Call, k: Known, k': Known, n: ListHead) {
    Sound(c, k') && Extends(k.key, k'.key) && n in k'.key
  }

  /** What asking for the key of node n makes of its word. */
  ghost predicate Answer(c: Call, k: Known, n: ListHead, w: Word)
    requires n in k.now
  {
    && Evolves(c.cmp, c.restore, k.now[n], w) && Settled(c.cmp, c.restore, w)
    && (c.cmp == CmpComplex ==> w == AskedWord(c.bench, RecordAt(c, k), k.now[n]))
  }

  lemma LearnTold(c: Call, k: Known, n: ListHead, w: Word)
    requires Told(c, k) && n in c.nodes && n in c.idx && n in k.now && Answer(c, k, n, w)
    ensures Told(c, Learn(c, k, n, w))
    ensures RecordAt(c, Learn(c, k, n, w)) ==
      if c.cmp == CmpComplex then Asked(c.bench, RecordAt(c, k), k.now[n]) else RecordAt(c, k)
  {
    hide AfterAll, AfterCalc, ValueOf, ComputedAt, Evolves, Settled, KeyOf;
    if c.cmp == CmpComplex {
      if Cached(k.now[n]) {
        assert k.now[n := w] == k.now;
      } else {
        ComputedSnoc(c.bench, c.start, c.nodes, c.was, k.now, k.asked, n, w);
        AfterAllSnoc(c.bench, c.start, c.was, k.asked, n);
      }
    }
  }

  /** Learning the key of a node disturbs no key already known. */
  lemma LearnKept(c: Call, k: Known, n: ListHead, w: Word)
    requires Kept(c, k) && n in c.nodes
    requires Evolves(c.cmp, c.restore, k.now[n], w) && Settled(c.cmp, c.restore, w)
    ensures Kept(c, Learn(c, k, n, w)) && Extends(k.key, Learn(c, k, n, w).key)
  {
  }

  lemma LearnSound(c: Call, k: Known, n: ListHead, w: Word)
    requires Sound(c, k) && n in c.nodes && Answer(c, k, n, w)
    ensures Learned(c, k, Learn(c, k, n, w), n)
    ensures RecordAt(c, Learn(c, k, n, w)) ==
      if c.cmp == CmpComplex then Asked(c.bench, RecordAt(c, k), k.now[n]) else RecordAt(c, k)
  {
    LearnTold(c, k, n, w);
    hide Told, RecordAt, AskedWord, Asked, Evolves, Settled, KeyOf, Extends;
    LearnKept(c, k, n, w);
  }

  lemma OthersApart(nodes: seq<ListHead>, a: ListHead)
    requires OwnInfos(nodes) && a in nodes
    ensures forall n :: n in nodes && n != a ==> n.info != a.info
  {
  }

  lemma LearnTwo(c: Call, k: Known, a: ListHead, wa: Word, b: ListHead, wb: Word) returns (k': Known)
    requires Sound(c, k) && a in c.nodes && b in c.nodes && a != b
    requires Answer(c, k, a, wa) && Answer(c, Learn(c, k, a, wa), b, wb)
    ensures Learned(c, k, k', a) && Learned(c, k, k', b)
    ensures k'.now == k.now[a := wa][b := wb]
    ensures k'.key[a] == KeyOf(c.cmp, wa, c.idx[a]) && k'.key[b] == KeyOf(c.cmp, wb, c.idx[b])
    ensures RecordAt(c, k') == if c.cmp == CmpComplex
      then Asked(c.bench, Asked(c.bench, RecordAt(c, k), k.now[a]), k.now[b]) else RecordAt(c, k)
  {
    hide Asked, Told, RecordAt, Answer;
    LearnSound(c, k, a, wa);
    LearnSound(c, Learn(c, k, a, wa), b, wb);
    k' := Learn(c, Learn(c, k, a, wa), b, wb);
  }

  /** What a comparison makes of the words of two nodes, one asked after the other. */
  ghost predicate Asks(c: Call, k: Known, a: ListHead, wa: Word, b: ListHead, wb: Word)
    requires a in k.now && b in k.now
  {
    && Evolves(c.cmp, c.restore, k.now[a], wa) && Settled(c.cmp, c.restore, wa)
    && Evolves(c.cmp, c.restore, k.now[b], wb) && Settled(c.cmp, c.restore, wb)
    && (c.cmp == CmpComplex ==>
      && wa == AskedWord(c.bench, RecordAt(c, k), k.now[a])
      && wb == AskedWord(c.bench, Asked(c.bench, RecordAt(c, k), k.now[a]), k.now[b]))
  }

  lemma Answers(c: Call, k: Known, a: ListHead, wa: Word, b: ListHead, wb: Word)
    requires Sound(c, k) && a in c.nodes && b in c.nodes && a != b && Asks(c, k, a, wa, b, wb)
    ensures Answer(c, k, a, wa) && Answer(c, Learn(c, k, a, wa), b, wb)
  {
    hide AskedWord, Asked, RecordAt, Told, Evolves, Settled;
    LearnSound(c, k, a, wa);
  }

  lemma LearnBoth(c: Call, k: Known, a: ListHead, wa: Word, b: ListHead, wb: Word) returns (k': Known)
    requires Sound(c, k) && a in c.nodes && b in c.nodes && a != b && Asks(c, k, a, wa, b, wb)
    ensures Learned(c, k, k', a) && Learned(c, k, k', b)
    ensures k'.now == k.now[a := wa][b := wb]
    ensures k'.key[a] == KeyOf(c.cmp, wa, c.idx[a]) && k'.key[b] == KeyOf(c.cmp, wb, c.idx[b])
    ensures RecordAt(c, k') == if c.cmp == CmpComplex
      then Asked(c.bench, Asked(c.bench, RecordAt(c, k), k.now[a]), k.now[b]) else RecordAt(c, k)
  {
    hide Asks, Told, RecordAt, Asked, Answer;
    Answers(c, k, a, wa, b, wb);
    k' := LearnTwo(c, k, a, wa, b, wb);
  }

  method CompareNodes(cmp: Comparator, a: ListHead, b: ListHead, res: CoreResults?, ghost c: Call, ghost k: Known)
    returns (r: int, ghost k': Known)
    requires Matching(c, cmp, res) && Sound(c, k) && Holds(c, k)
    requires a in c.nodes && b in c.nodes && a != b
    modifies Infos(c.nodes)`data16
    modifies Given(res)`calls, Given(res)`crc, Given(res)`crcmatrix, Given(res)`crcstate
    ensures Learned(c, k, k', a) && Learned(c, k, k', b) && Holds(c, k')
    ensures r == k'.key[a] - k'.key[b]
  {
    hide Sound, Evolves, Settled, KeyOf, Extends, AskedWord, Asked, RecordAt, RecordOf, Learned;
    OthersApart(c.nodes, a);
    OthersApart(c.nodes, b);
    InNow(c, k);
    r := Compare(cmp, a.info, b.info, res);
    assert OwnInfos(c.nodes);
    k' := LearnBoth(c, k, a, a.info.data16, b, b.info.data16);
    KeysKnown(c, k, k', a);
    KeysKnown(c, k, k', b);
    forall n | n in c.nodes ensures n.info.data16 == k'.now[n] {
      if n != a && n != b { assert n.info != a.info && n.info != b.info; }
    }
  }

  lemma KeysKnown(c: Call, k: Known, k': Known, n: ListHead)
    requires Learned(c, k, k', n)
    ensures n in k'.key
  {
  }

  lemma InNow(c: Call, k: Known)
    requires Sound(c, k)
    ensures forall n :: n in c.nodes ==> n in k.now && n in c.idx
  {
  }

  // ----- the pieces of the list during a pass

  /** `done` has been relinked, p and qr are still to come; together they are the nodes. */
  ghost predicate Parts(nodes: seq<ListHead>, done: seq<ListHead>, p: seq<ListHead>, qr: seq<ListHead>) {
    SameElements(done + p + qr, nodes)
  }

  lemma PartsMove(nodes: seq<ListHead>, done: seq<ListHead>, p: seq<ListHead>, qr: seq<ListHead>)
    requires Parts(nodes, done, p, qr)
    ensures p != [] ==> Parts(nodes, done + [p[0]], p[1..], qr)
    ensures qr != [] ==> Parts(nodes, done + [qr[0]], p, qr[1..])
  {
    if p != [] {
      assert done + [p[0]] + p[1..] + qr == done + p + qr;
    }
    if qr != [] {
      var a, b := done + p + qr, done + [qr[0]] + p + qr[1..];
      var d := |done|;
      var e := |done| + |p|;
      forall i, j | 0 <= i < j < |b| ensures b[i] != b[j] {
        var i' := if i < d || i > e then i else if i == d then e else i - 1;
        var j' := if j < d || j > e then j else if j == d then e else j - 1;
        assert b[i] == a[i'] && b[j] == a[j'] && i' != j';
      }
      forall x | x in b ensures x in nodes { assert x in a; }
      forall x | x in nodes ensures x in b { assert x in a; }
    }
  }

  lemma PartsApart(nodes: seq<ListHead>, done: seq<ListHead>, p: seq<ListHead>, qr: seq<ListHead>)
    requires Parts(nodes, done, p, qr)
    ensures forall x :: x in done ==> x in nodes && x !in p && x !in qr
    ensures forall x :: x in p ==> x in nodes && x !in qr
    ensures forall x :: x in qr ==> x in nodes
    ensures Distinct(done) && Distinct(p) && Distinct(qr)
  {
    var a := done + p + qr;
    forall i | 0 <= i < |done| ensures a[i] == done[i] { }
    forall i | 0 <= i < |p| ensures a[|done| + i] == p[i] { }
    forall i | 0 <= i < |qr| ensures a[|done| + |p| + i] == qr[i] { }
    assert forall x :: x in done ==> x in a;
    assert forall x :: x in p ==> x in a;
    assert forall x :: x in qr ==> x in a;
  }

  function Last(s: seq<ListHead>): ListHead? {
    if s == [] then null else s[|s| - 1]
  }

  /** Links e in behind the tail, or makes it the head of an empty output. */
  method Append(list: ListHead?, tail: ListHead?, e: ListHead, ghost done: seq<ListHead>)
    returns (list': ListHead?, tail': ListHead)
    requires Distinct(done) && Chained(done) && e !in done
    requires list == At(done, 0) && tail == Last(done)
    modifies (if tail == null then {} else {tail})`next
    ensures Chained(done + [e]) && list' == At(done + [e], 0) && tail' == e
  {
    list' := list;
    if tail != null {
      tail.next := e;
    } else {
      list' := e;
    }
    tail' := e;
  }

  /** Walks up to insize nodes along the list and counts them. */
  method StepAlong(p: ListHead, insize: nat, ghost rest: seq<ListHead>) returns (q: ListHead?, psize: nat)
    requires insize >= 1 && rest != [] && p == rest[0] && Linked(rest)
    ensures psize == Min(insize, |rest|) && q == At(rest, psize)
  {
    var node := p;
    q, psize := p, 0;
    while psize < insize
      invariant psize <= insize && psize < |rest|
      invariant q == rest[psize]
    {
      q, psize := q.next, psize + 1;
      if q == null {
        break;
      }
    }
  }

  /** The elements of the second run: as many of qr as the quota allows. */
  ghost function Run(qr: seq<ListHead>, qsize: nat): (q: seq<ListHead>)
    ensures |q| == Min(qsize, |qr|)
  {
    qr[..Min(qsize, |qr|)]
  }

  ghost function After(qr: seq<ListHead>, qsize: nat): seq<ListHead> {
    qr[Min(qsize, |qr|)..]
  }

  lemma RunStep(qr: seq<ListHead>, qsize: nat)
    requires qr != [] && qsize > 0
    ensures Run(qr, qsize) == [qr[0]] + Run(qr[1..], qsize - 1)
    ensures Run(qr, qsize)[1..] == Run(qr[1..], qsize - 1)
    ensures After(qr, qsize) == After(qr[1..], qsize - 1)
  {
  }

  /** Everything that stays true of the links and the order while two runs are merged: `out` is
      the output of earlier merges, m that of this one, p and qr are what is left. */
  datatype Progress = Progress(out: seq<ListHead>, m: seq<ListHead>, p: seq<ListHead>, qr: seq<ListHead>, qsize: nat) {
    ghost function Done(): seq<ListHead> { out + m }

    ghost function Q(): seq<ListHead> { Run(qr, qsize) }

    ghost predicate Ordered(c: Call, key: Keys<ListHead>) {
      Parts(c.nodes, Done(), p, qr) && Merge(key, c.rank, m, p, Q())
    }

    ghost predicate Links()
      reads Done()`next, p`next, qr`next
    {
      Chained(Done()) && Chained(p) && Linked(qr)
    }

    /** The pointers and counters of the loop. */
    ghost predicate Cursors(list: ListHead?, tail: ListHead?, pp: ListHead?, psize: nat, qp: ListHead?) {
      && list == At(Done(), 0) && tail == Last(Done())
      && psize == |p| && (p != [] ==> pp == p[0]) && qp == At(qr, 0)
    }

    ghost function TakeP(): Progress
      requires p != []
    {
      this.(m := m + [p[0]], p := p[1..])
    }

    ghost function TakeQ(): Progress
      requires qr != [] && qsize > 0
    {
      this.(m := m + [qr[0]], qr := qr[1..], qsize := qsize - 1)
    }

    ghost predicate MayTakeP(key: Keys<ListHead>) {
      p != [] && (Q() != [] ==> p[0] in key && Q()[0] in key && key[p[0]] <= key[Q()[0]])
    }

    ghost predicate MayTakeQ(key: Keys<ListHead>) {
      Q() != [] && (p != [] ==> p[0] in key && Q()[0] in key && key[Q()[0]] < key[p[0]])
    }
  }

  lemma OrderedUnderMoreKeys(c: Call, key: Keys<ListHead>, key': Keys<ListHead>, g: Progress)
    requires g.Ordered(c, key) && Extends(key, key')
    ensures g.Ordered(c, key')
  {
    MergeUnderMoreKeys(key, key', c.rank, g.m, g.p, g.Q());
  }

  lemma OrderedApart(c: Call, key: Keys<ListHead>, g: Progress)
    requires g.Ordered(c, key)
    ensures forall x :: x in g.Done() ==> x in c.nodes && x !in g.p && x !in g.qr
    ensures forall x :: x in g.p ==> x in c.nodes && x !in g.qr
    ensures forall x :: x in g.qr ==> x in c.nodes
    ensures Distinct(g.Done()) && Distinct(g.p) && Distinct(g.qr)
  {
    PartsApart(c.nodes, g.Done(), g.p, g.qr);
  }

  lemma TakePOrdered(c: Call, key: Keys<ListHead>, g: Progress)
    requires g.Ordered(c, key) && g.MayTakeP(key)
    ensures g.TakeP().Ordered(c, key) && g.TakeP().Done() == g.Done() + [g.p[0]]
  {
    PartsMove(c.nodes, g.Done(), g.p, g.qr);
    TakeFromP(key, c.rank, g.m, g.p, g.Q());
    assert g.out + (g.m + [g.p[0]]) == g.out + g.m + [g.p[0]];
  }

  lemma TakeQOrdered(c: Call, key: Keys<ListHead>, g: Progress)
    requires g.Ordered(c, key) && g.MayTakeQ(key)
    ensures g.TakeQ().Ordered(c, key) && g.TakeQ().Done() == g.Done() + [g.qr[0]]
    ensures After(g.TakeQ().qr, g.TakeQ().qsize) == After(g.qr, g.qsize)
  {
    PartsMove(c.nodes, g.Done(), g.p, g.qr);
    RunStep(g.qr, g.qsize);
    TakeFromQ(key, c.rank, g.m, g.p, g.Q());
    assert g.out + (g.m + [g.qr[0]]) == g.out + g.m + [g.qr[0]];
  }

  /** What holds at the head of the inner loop. */
  ghost predicate AtLoop(c: Call, k: Known, g: Progress, list: ListHead?, tail: ListHead?,
                         p: ListHead?, psize: nat, q: ListHead?, qsize: nat)
    reads c.nodes`info, Infos(c.nodes), g.Done()`next, g.p`next, g.qr`next
    reads Given(c.res)`calls, Given(c.res)`crc, Given(c.res)`crcmatrix, Given(c.res)`crcstate
  {
    && Sound(c, k) && Holds(c, k)
    && g.Ordered(c, k.key) && g.Links() && g.Cursors(list, tail, p, psize, q) && g.qsize == qsize
  }

  /** What one turn of the inner loop leaves alone, and that it takes one element. */
  ghost predicate Turned(g: Progress, g': Progress) {
    && g'.out == g.out
    && After(g'.qr, g'.qsize) == After(g.qr, g.qsize)
    && |g'.p| + |g'.qr| < |g.p| + |g.qr|
  }

  /** Which run the next node comes from: p on a tie, the other one when one is used up. */
  method Choose(list: ListHead?, tail: ListHead?, p: ListHead?, psize: nat, q: ListHead?, qsize: nat,
                cmp: Comparator, res: CoreResults?, ghost c: Call, ghost k: Known, ghost g: Progress)
    returns (fromP: bool, ghost k': Known)
    requires Matching(c, cmp, res) && AtLoop(c, k, g, list, tail, p, psize, q, qsize)
    requires psize > 0 || (qsize > 0 && q != null)
    modifies Infos(c.nodes)`data16
    modifies Given(res)`calls, Given(res)`crc, Given(res)`crcmatrix, Given(res)`crcstate
    ensures AtLoop(c, k', g, list, tail, p, psize, q, qsize) && Extends(k.key, k'.key)
    ensures if fromP then g.MayTakeP(k'.key) && g.p != [] && p != null
            else g.MayTakeQ(k'.key) && g.qr != [] && g.qsize == qsize > 0 && q != null
  {
    hide Sound, Merge, Parts, Holds;
    k' := k;
    if psize == 0 {
      fromP := false;
    } else if qsize == 0 || q == null {
      fromP := true;
    } else {
      PartsApart(c.nodes, g.Done(), g.p, g.qr);
      var r;
      r, k' := CompareNodes(cmp, p, q, res, c, k);
      OrderedUnderMoreKeys(c, k.key, k'.key, g);
      fromP := r <= 0;
    }
  }

  lemma LinkedTail(s: seq<ListHead>)
    requires Linked(s) && s != []
    ensures Linked(s[1..]) && s[0].next == At(s[1..], 0)
  {
    assert forall i :: 0 <= i < |s| - 1 ==> s[1..][i] == s[i + 1];
  }

  lemma ChainedTail(s: seq<ListHead>)
    requires Chained(s) && s != []
    ensures Chained(s[1..]) && (|s| > 1 ==> s[0].next == s[1..][0])
  {
    assert forall i :: 0 <= i < |s| - 1 ==> s[1..][i] == s[i + 1];
  }

  /** Moves the first node of p to the output. */
  method LinkFromP(list0: ListHead?, tail0: ListHead?, e: ListHead, ghost q: ListHead?,
                   ghost c: Call, ghost key: Keys<ListHead>, ghost g: Progress)
    returns (list: ListHead?, tail: ListHead, p: ListHead?)
    requires g.Ordered(c, key) && g.Links() && g.MayTakeP(key) && g.p != [] && g.Cursors(list0, tail0, e, |g.p|, q)
    modifies c.nodes`next
    ensures g.TakeP().Ordered(c, key) && g.TakeP().Links()
    ensures g.TakeP().Cursors(list, tail, p, |g.p| - 1, q)
  {
    hide Progress.Ordered, Linked, Chained, Distinct, Run, Progress.MayTakeP;
    OrderedApart(c, key, g);
    assert tail0 != null ==> tail0 in g.Done();
    p := e.next;
    ChainedTail(g.p);
    list, tail := Append(list0, tail0, e, g.Done());
    ChainedTail(g.p);
    TakePOrdered(c, key, g);
  }

  method LinkFromQ(list0: ListHead?, tail0: ListHead?, e: ListHead, ghost p: ListHead?,
                   ghost c: Call, ghost key: Keys<ListHead>, ghost g: Progress)
    returns (list: ListHead?, tail: ListHead, q: ListHead?)
    requires g.Ordered(c, key) && g.Links() && g.MayTakeQ(key) && g.qr != [] && g.qsize > 0 && g.Cursors(list0, tail0, p, |g.p|, e)
    modifies c.nodes`next
    ensures g.TakeQ().Ordered(c, key) && g.TakeQ().Links()
    ensures g.TakeQ().Cursors(list, tail, p, |g.p|, q)
    ensures After(g.TakeQ().qr, g.TakeQ().qsize) == After(g.qr, g.qsize)
  {
    hide Progress.Ordered, Linked, Chained, Distinct, Run, After, Progress.MayTakeQ, Progress.TakeQ;
    OrderedApart(c, key, g);
    assert tail0 != null ==> tail0 in g.Done();
    q := e.next;
    LinkedTail(g.qr);
    list, tail := Append(list0, tail0, e, g.Done());
    TakeQOrdered(c, key, g);
    TookQ(g, list, tail, p, q);
  }

  lemma TookQ(g: Progress, list: ListHead?, tail: ListHead, p: ListHead?, q: ListHead?)
    requires g.qr != [] && g.qsize > 0 && Chained(g.Done() + [g.qr[0]]) && Chained(g.p) && Linked(g.qr)
    requires list == At(g.Done() + [g.qr[0]], 0) && tail == g.qr[0] && (g.p != [] ==> p == g.p[0])
    requires q == At(g.qr[1..], 0)
    ensures g.TakeQ().Links() && g.TakeQ().Cursors(list, tail, p, |g.p|, q)
  {
    hide Linked, Chained;
    LinkedTail(g.qr);
    assert g.TakeQ().Done() == g.Done() + [g.qr[0]];
  }

  method TurnP(list0: ListHead?, tail0: ListHead?, e: ListHead, psize0: nat, ghost q: ListHead?, ghost qsize: nat,
               ghost c: Call, ghost k: Known, ghost g: Progress)
    returns (list: ListHead?, tail: ListHead, p: ListHead?, psize: nat)
    requires AtLoop(c, k, g, list0, tail0, e, psize0, q, qsize) && g.MayTakeP(k.key) && g.p != []
    modifies c.nodes`next
    ensures AtLoop(c, k, g.TakeP(), list, tail, p, psize, q, qsize) && Turned(g, g.TakeP())
  {
    hide Sound, Progress.Ordered, Progress.Links, Progress.MayTakeP, Run, After;
    list, tail, p := LinkFromP(list0, tail0, e, q, c, k.key, g);
    psize := psize0 - 1;
    assert Holds(c, k);
  }

  method TurnQ(list0: ListHead?, tail0: ListHead?, e: ListHead, qsize0: nat, ghost p: ListHead?, ghost psize: nat,
               ghost c: Call, ghost k: Known, ghost g: Progress)
    returns (list: ListHead?, tail: ListHead, q: ListHead?, qsize: nat)
    requires AtLoop(c, k, g, list0, tail0, p, psize, e, qsize0) && g.MayTakeQ(k.key) && g.qr != [] && qsize0 > 0
    modifies c.nodes`next
    ensures AtLoop(c, k, g.TakeQ(), list, tail, p, psize, q, qsize) && Turned(g, g.TakeQ())
  {
    hide Sound, Progress.Ordered, Progress.Links, Progress.MayTakeQ, Run, After;
    list, tail, q := LinkFromQ(list0, tail0, e, p, c, k.key, g);
    qsize := qsize0 - 1;
    assert Holds(c, k);
  }

  /** One turn of the inner loop. */
  method MergeOne(list0: ListHead?, tail0: ListHead?, p0: ListHead?, psize0: nat, q0: ListHead?, qsize0: nat,
                  cmp: Comparator, res: CoreResults?, ghost c: Call, ghost k: Known, ghost g: Progress)
    returns (list: ListHead?, tail: ListHead?, p: ListHead?, psize: nat, q: ListHead?, qsize: nat,
             ghost k': Known, ghost g': Progress)
    requires Matching(c, cmp, res) && AtLoop(c, k, g, list0, tail0, p0, psize0, q0, qsize0)
    requires psize0 > 0 || (qsize0 > 0 && q0 != null)
    modifies c.nodes`next, Infos(c.nodes)`data16
    modifies Given(res)`calls, Given(res)`crc, Given(res)`crcmatrix, Given(res)`crcstate
    ensures AtLoop(c, k', g', list, tail, p, psize, q, qsize)
    ensures Extends(k.key, k'.key) && Turned(g, g')
  {
    hide AtLoop, Turned, Extends, Progress.MayTakeP, Progress.MayTakeQ;
    p, psize, q, qsize := p0, psize0, q0, qsize0;
    var fromP;
    fromP, k' := Choose(list0, tail0, p, psize, q, qsize, cmp, res, c, k, g);
    if fromP {
      list, tail, p, psize := TurnP(list0, tail0, p, psize, q, qsize, c, k', g);
      g' := g.TakeP();
    } else {
      list, tail, q, qsize := TurnQ(list0, tail0, q, qsize, p, psize, c, k', g);
      g' := g.TakeQ();
    }
  }

  /** The inner loop: merges the run at p with the run at q onto the end of the output. */
  method MergePair(list0: ListHead?, tail0: ListHead?, p0: ListHead, psize0: nat, q0: ListHead?, insize: nat,
                   cmp: Comparator, res: CoreResults?, ghost c: Call, ghost k0: Known, ghost g0: Progress)
    returns (list: ListHead?, tail: ListHead?, q: ListHead?, ghost k: Known, ghost g: Progress)
    requires Matching(c, cmp, res) && AtLoop(c, k0, g0, list0, tail0, p0, psize0, q0, insize)
    modifies c.nodes`next, Infos(c.nodes)`data16
    modifies Given(res)`calls, Given(res)`crc, Given(res)`crcmatrix, Given(res)`crcstate
    ensures AtLoop(c, k, g, list, tail, null, 0, q, g.qsize)
    ensures Extends(k0.key, k.key)
    ensures g.out == g0.out && g.p == [] && g.Q() == [] && g.qr == After(g0.qr, insize)
  {
    hide Sound, Holds, Progress.Ordered, Progress.Links;
    list, tail, q, k, g := list0, tail0, q0, k0, g0;
    var p: ListHead? := p0;
    var psize, qsize := psize0, insize;
    while psize > 0 || (qsize > 0 && q != null)
      invariant AtLoop(c, k, g, list, tail, p, psize, q, qsize)
      invariant Extends(k0.key, k.key) && g.out == g0.out && After(g.qr, qsize) == After(g0.qr, insize)
      decreases |g.p| + |g.qr|
    {
      ghost var k1, g1 := k, g;
      list, tail, p, psize, q, qsize, k1, g1 := MergeOne(list, tail, p, psize, q, qsize, cmp, res, c, k, g);
      k, g := k1, g1;
    }
  }

  // ----- one pass over the list

  /** At the head of the middle loop: `out` is merged, `rest` is still in runs of insize. */
  ghost predicate AtPass(c: Call, k: Known, out: seq<ListHead>, rest: seq<ListHead>, insize: nat)
    requires insize > 0
  {
    && Parts(c.nodes, out, [], rest)
    && Runs(k.key, c.rank, out, 2 * insize) && Runs(k.key, c.rank, rest, insize)
    && RankBelow(c.rank, out, rest)
    && (rest != [] ==> Whole(out, 2 * insize))
  }

  ghost function PairOf(out: seq<ListHead>, rest: seq<ListHead>, insize: nat): Progress {
    var n := Min(insize, |rest|);
    Progress(out, [], rest[..n], rest[n..], insize)
  }

  /** Two neighbouring runs are ready to be merged. */
  lemma PairReady(c: Call, k: Known, out: seq<ListHead>, rest: seq<ListHead>, insize: nat)
    requires insize > 0 && AtPass(c, k, out, rest, insize) && rest != []
    ensures PairOf(out, rest, insize).Ordered(c, k.key)
    ensures PairOf(out, rest, insize).Done() == out
  {
    var g := PairOf(out, rest, insize);
    assert g.out + g.m == out;
    assert out + g.p + g.qr == out + [] + rest;
    MergeStart(k.key, c.rank, rest, insize);
  }

  ghost function RestAfter(rest: seq<ListHead>, insize: nat): seq<ListHead> {
    After(rest[Min(insize, |rest|)..], insize)
  }

  /** The elements merged are those of the two runs. */
  lemma MergedElements(c: Call, out: seq<ListHead>, m: seq<ListHead>, rest: seq<ListHead>, insize: nat)
    requires insize > 0 && Parts(c.nodes, out, [], rest) && Parts(c.nodes, out + m, [], RestAfter(rest, insize))
    ensures |m| + |RestAfter(rest, insize)| == |rest|
    ensures forall x :: x in m ==> x in rest[..|m|]
  {
    var r := RestAfter(rest, insize);
    assert r == rest[|rest| - |r|..];
    assert |out + [] + rest| == |out + m + [] + r|;
    PartsApart(c.nodes, out, [], rest);
    PartsApart(c.nodes, out + m, [], r);
    forall x | x in m ensures x in rest[..|m|] {
      assert x in out + m && x in c.nodes;
      assert x in out + [] + rest;
      NotInFront(out, m, r, x);
      assert rest == rest[..|m|] + r;
    }
  }

  lemma NotInFront(out: seq<ListHead>, m: seq<ListHead>, r: seq<ListHead>, x: ListHead)
    requires Distinct(out + m) && x in m
    ensures x !in out
  {
    var i :| 0 <= i < |m| && m[i] == x;
    assert (out + m)[|out| + i] == x;
    forall j | 0 <= j < |out| ensures out[j] != x { assert (out + m)[j] == out[j]; }
  }

  /** Merging a pair keeps the pass going. */
  lemma PairMerged(c: Call, k0: Known, k: Known, out: seq<ListHead>, rest: seq<ListHead>, insize: nat, g: Progress)
    requires insize > 0 && AtPass(c, k0, out, rest, insize) && rest != [] && Extends(k0.key, k.key)
    requires g.Ordered(c, k.key) && g.out == out && g.p == [] && g.Q() == [] && g.qr == RestAfter(rest, insize)
    ensures AtPass(c, k, g.Done(), g.qr, insize)
    ensures Sorted(k.key, c.rank, g.m) && |g.Done()| > |out| && |g.qr| < |rest|
    ensures g.qr != [] ==> |g.Done()| == |out| + 2 * insize
  {
    hide Runs, Whole, Merge, Parts;
    var m, r := g.m, g.qr;
    MergedElements(c, out, m, rest, insize);
    SortedOutput(c, k, g);
    RunsUnderMoreKeys(k0.key, k.key, c.rank, out, 2 * insize);
    RunsUnderMoreKeys(k0.key, k.key, c.rank, rest, insize);
    assert r == rest[|m|..];
    RunsCut(k.key, c.rank, rest, insize, |m|);
    RankBelowParts(c.rank, out, m, rest, |m|);
    AppendRun(k.key, c.rank, out, m, 2 * insize);
  }

  lemma SortedOutput(c: Call, k: Known, g: Progress)
    requires g.Ordered(c, k.key) && g.p == []
    ensures Sorted(k.key, c.rank, g.m) && Parts(c.nodes, g.Done(), [], g.qr)
  {
    assert g.m + g.p == g.m;
  }

  lemma RankBelowParts(rank: map<ListHead, int>, out: seq<ListHead>, m: seq<ListHead>, rest: seq<ListHead>, n: nat)
    requires RankBelow(rank, out, rest) && n <= |rest| && RankBelow(rank, rest[..n], rest[n..])
    requires forall x :: x in m ==> x in rest[..n]
    ensures RankBelow(rank, out, m) && RankBelow(rank, out + m, rest[n..])
  {
    assert forall x :: x in rest[..n] ==> x in rest;
    assert forall x :: x in rest[n..] ==> x in rest;
  }

  /** The state at the head of the middle loop, pointers included. */
  ghost predicate AtHead(c: Call, k: Known, out: seq<ListHead>, rest: seq<ListHead>, insize: nat,
                         list: ListHead?, tail: ListHead?, p: ListHead?)
    requires insize > 0
    reads c.nodes`info, Infos(c.nodes), out`next, rest`next
    reads Given(c.res)`calls, Given(c.res)`crc, Given(c.res)`crcmatrix, Given(c.res)`crcstate
  {
    && Sound(c, k) && Holds(c, k) && AtPass(c, k, out, rest, insize)
    && Chained(out) && Linked(rest)
    && list == At(out, 0) && tail == Last(out) && p == At(rest, 0)
  }

  lemma HeadToLoop(c: Call, k: Known, out: seq<ListHead>, rest: seq<ListHead>, insize: nat,
                   list: ListHead?, tail: ListHead?, p: ListHead?, q: ListHead?)
    requires insize > 0 && AtHead(c, k, out, rest, insize, list, tail, p) && rest != []
    requires q == At(rest, Min(insize, |rest|))
    ensures AtLoop(c, k, PairOf(out, rest, insize), list, tail, p, Min(insize, |rest|), q, insize)
    ensures After(PairOf(out, rest, insize).qr, insize) == RestAfter(rest, insize)
  {
    hide AtPass, Sound, Holds, Progress.Ordered;
    PairReady(c, k, out, rest, insize);
    var g, n := PairOf(out, rest, insize), Min(insize, |rest|);
    forall i | 0 <= i < |g.qr| ensures g.qr[i].next == At(g.qr, i + 1) {
      assert g.qr[i] == rest[n + i];
    }
  }

  lemma LoopToHead(c: Call, k: Known, g: Progress, insize: nat, list: ListHead?, tail: ListHead?, q: ListHead?)
    requires insize > 0 && AtLoop(c, k, g, list, tail, null, 0, q, g.qsize) && g.p == []
    requires AtPass(c, k, g.Done(), g.qr, insize)
    ensures AtHead(c, k, g.Done(), g.qr, insize, list, tail, q)
  {
  }

  /** One turn of the middle loop: merges the two runs at p. */
  method PassOne(list0: ListHead?, tail0: ListHead?, p0: ListHead, insize: nat, cmp: Comparator, res: CoreResults?,
                 ghost c: Call, ghost k0: Known, ghost out0: seq<ListHead>, ghost rest0: seq<ListHead>)
    returns (list: ListHead?, tail: ListHead?, p: ListHead?, ghost k: Known,
             ghost out: seq<ListHead>, ghost rest: seq<ListHead>)
    requires insize > 0 && Matching(c, cmp, res)
    requires AtHead(c, k0, out0, rest0, insize, list0, tail0, p0)
    modifies c.nodes`next, Infos(c.nodes)`data16
    modifies Given(res)`calls, Given(res)`crc, Given(res)`crcmatrix, Given(res)`crcstate
    ensures AtHead(c, k, out, rest, insize, list, tail, p) && Extends(k0.key, k.key)
    ensures |out| > |out0| && |rest| < |rest0|
    ensures rest != [] ==> |out| == |out0| + 2 * insize
    ensures out0 == [] ==> Sorted(k.key, c.rank, out)
  {
    hide AtPass, AtLoop, Sound, Holds, Progress.Ordered, Extends, Sorted;
    hide Linked, Chained, After, Run, RestAfter, Last;
    assert rest0 != [] && p0 == rest0[0] && Linked(rest0);
    var q, psize := StepAlong(p0, insize, rest0);
    HeadToLoop(c, k0, out0, rest0, insize, list0, tail0, p0, q);
    ghost var g;
    list, tail, p, k, g := MergePair(list0, tail0, p0, psize, q, insize, cmp, res, c, k0, PairOf(out0, rest0, insize));
    LoopFacts(c, k, g, list, tail, p);
    PairMerged(c, k0, k, out0, rest0, insize, g);
    LoopToHead(c, k, g, insize, list, tail, p);
    out, rest := g.Done(), g.qr;
    assert out0 == [] ==> g.Done() == g.m;
  }

  lemma LoopFacts(c: Call, k: Known, g: Progress, list: ListHead?, tail: ListHead?, q: ListHead?)
    requires AtLoop(c, k, g, list, tail, null, 0, q, g.qsize)
    ensures g.Ordered(c, k.key)
  {
  }

  /** One pass of the outer loop: runs of insize become runs of twice that length. */
  method Pass(list0: ListHead, insize: nat, cmp: Comparator, res: CoreResults?,
              ghost c: Call, ghost k0: Known, ghost cur: seq<ListHead>)
    returns (list: ListHead?, nmerges: nat, ghost k: Known, ghost out: seq<ListHead>)
    requires insize > 0 && Matching(c, cmp, res) && cur != []
    requires AtHead(c, k0, [], cur, insize, null, null, list0)
    modifies c.nodes`next, Infos(c.nodes)`data16
    modifies Given(res)`calls, Given(res)`crc, Given(res)`crcmatrix, Given(res)`crcstate
    ensures Sound(c, k) && Holds(c, k) && Extends(k0.key, k.key)
    ensures IsList(list, out) && AtPass(c, k, out, [], insize)
    ensures nmerges <= 1 ==> Sorted(k.key, c.rank, out)
    ensures nmerges > 1 ==> |out| > 2 * insize
  {
    hide AtPass, Sound, Holds, Extends, Sorted, Linked, Chained;
    list, nmerges := null, 0;
    var p: ListHead? := list0;
    var tail: ListHead? := null;
    ghost var rest;
    k, out, rest := k0, [], cur;
    ExtendsSelf(k0.key);
    while p != null
      invariant AtHead(c, k, out, rest, insize, list, tail, p) && Extends(k0.key, k.key)
      invariant nmerges == 0 <==> out == []
      invariant nmerges == 0 ==> rest != []
      invariant nmerges == 1 ==> Sorted(k.key, c.rank, out) && (rest != [] ==> |out| == 2 * insize)
      invariant nmerges > 1 ==> |out| > 2 * insize
      decreases |rest|
    {
      nmerges := nmerges + 1;
      ghost var k1, out1, rest1;
      list, tail, p, k1, out1, rest1 := PassOne(list, tail, p, insize, cmp, res, c, k, out, rest);
      ExtendsTrans(k0.key, k.key, k1.key);
      k, out, rest := k1, out1, rest1;
    }
    EndOfPass(c, k, out, insize);
    assert tail in out;
    EndList(tail, out, c, k);
  }

  /** Ends the output after its last node. */
  method EndList(tail: ListHead, ghost out: seq<ListHead>, ghost c: Call, ghost k: Known)
    requires Distinct(out) && Chained(out) && out != [] && tail == out[|out| - 1] && Holds(c, k)
    modifies tail`next
    ensures Linked(out) && Holds(c, k)
  {
    hide InStep, OwnInfos;
    tail.next := null;
  }

  lemma ExtendsSelf(a: Keys<ListHead>)
    ensures Extends(a, a)
  {
  }

  lemma ExtendsTrans(a: Keys<ListHead>, b: Keys<ListHead>, c: Keys<ListHead>)
    requires Extends(a, b) && Extends(b, c)
    ensures Extends(a, c)
  {
  }

  lemma EndOfPass(c: Call, k: Known, out: seq<ListHead>, insize: nat)
    requires insize > 0 && AtPass(c, k, out, [], insize)
    ensures Distinct(out) && forall x :: x in out ==> x in c.nodes
  {
    PartsApart(c.nodes, out, [], []);
  }

  // ----- the whole sort

  /** The position of each node of a list. */
  ghost function RankOf(nodes: seq<ListHead>): (r: map<ListHead, int>)
    ensures (forall n :: n in nodes ==> n in r) && (forall n :: n in r ==> n in nodes)
    ensures Distinct(nodes) ==> forall i :: 0 <= i < |nodes| ==> r[nodes[i]] == i
  {
    map n | n in nodes :: IndexOf(nodes, n)
  }

  ghost function IndexOf(nodes: seq<ListHead>, n: ListHead): (i: nat)
    requires n in nodes
    ensures i < |nodes| && nodes[i] == n
  {
    if nodes[|nodes| - 1] == n then |nodes| - 1 else IndexOf(nodes[..|nodes| - 1], n)
  }

  /** Ascending keys, and nodes of equal keys in the order they have in `before`. */
  ghost predicate StablySorted(cmp: Comparator, before: seq<ListHead>, s: seq<ListHead>)
    reads s`info, Infos(s)
  {
    forall i, j :: 0 <= i < j < |s| ==>
      && s[i] in before && s[j] in before
      && (Key(cmp, s[i].info) < Key(cmp, s[j].info)
          || (Key(cmp, s[i].info) == Key(cmp, s[j].info) && IndexOf(before, s[i]) < IndexOf(before, s[j])))
  }

  lemma FirstPassReady(c: Call, k: Known, nodes: seq<ListHead>)
    requires nodes != [] && Distinct(nodes) && c.nodes == nodes && c.rank == RankOf(nodes)
    ensures AtPass(c, k, [], nodes, 1)
  {
    assert [] + [] + nodes == nodes;
    SingletonRuns(k.key, c.rank, nodes);
  }

  lemma NextPassReady(c: Call, k: Known, out: seq<ListHead>, insize: nat)
    requires insize > 0 && AtPass(c, k, out, [], insize) && c.rank == RankOf(c.nodes)
    ensures AtPass(c, k, [], out, 2 * insize) && SameElements(out, c.nodes) && |out| == |c.nodes|
  {
    assert out + [] + [] == out && [] + [] + out == out;
  }

  /** Of two or more sorted nodes every one has a known key. */
  lemma AllKnown(c: Call, k: Known, out: seq<ListHead>)
    requires Sorted(k.key, c.rank, out) && SameElements(out, c.nodes) && |out| >= 2
    ensures forall n :: n in c.nodes ==> n in k.key
  {
    forall n | n in c.nodes ensures n in k.key {
      var i :| 0 <= i < |out| && out[i] == n;
      assert Before(k.key, c.rank, out[0], out[if i == 0 then 1 else i]);
    }
  }

  lemma SortedNow(c: Call, k: Known, out: seq<ListHead>)
    requires Sound(c, k) && Holds(c, k) && Sorted(k.key, c.rank, out)
    requires c.rank == RankOf(c.nodes) && SameElements(out, c.nodes)
    ensures StablySorted(c.cmp, c.nodes, out)
    ensures |out| >= 2 ==> forall n :: n in c.nodes ==> Settled(c.cmp, c.restore, n.info.data16)
  {
    hide Evolves, Settled, KeyOf, IndexOf;
    forall i, j | 0 <= i < j < |out|
      ensures Before(k.key, c.rank, out[i], out[j])
    {
    }
    if |out| >= 2 { AllKnown(c, k, out); }
  }

  method SortPasses(list0: ListHead, cmp: Comparator, res: CoreResults?,
                    ghost c: Call, ghost k0: Known)
    returns (list: ListHead?, ghost k: Known, ghost sorted: seq<ListHead>)
    requires Matching(c, cmp, res) && c.nodes != [] && c.rank == RankOf(c.nodes)
    requires AtHead(c, k0, [], c.nodes, 1, null, null, list0)
    modifies c.nodes`next, Infos(c.nodes)`data16
    modifies Given(res)`calls, Given(res)`crc, Given(res)`crcmatrix, Given(res)`crcstate
    ensures IsList(list, sorted) && SameElements(sorted, c.nodes)
    ensures Sound(c, k) && Holds(c, k) && Sorted(k.key, c.rank, sorted)
  {
    hide AtPass, Sound, Sorted, Linked, Chained, SameElements, Distinct, RankOf;
    var insize := 1;
    list, k, sorted := list0, k0, c.nodes;
    while true
      invariant insize > 0 && |sorted| == |c.nodes|
      invariant AtHead(c, k, [], sorted, insize, null, null, list)
      decreases |c.nodes| - insize
    {
      var nmerges;
      ghost var k1, out;
      list, nmerges, k1, out := Pass(list, insize, cmp, res, c, k, sorted);
      NextPassReady(c, k1, out, insize);
      k, sorted := k1, out;
      if nmerges <= 1 {
        return;
      }
      insize := insize * 2;
    }
  }

  ghost function StartOf(res: CoreResults?): Record
    reads Given(res)`calls, Given(res)`crc, Given(res)`crcmatrix, Given(res)`crcstate
  {
    if res == null then Record(0, 0, Word(0, 0), Word(0, 0)) else RecordOf(res)
  }

  ghost function BenchOf(res: CoreResults?): Bench {
    if res == null then (_, _, _, _) => Word(0, 0) else res.bench
  }

  /** `core_list_mergesort`: sorts any list of one or more nodes in place. The result has the
      same node objects, is sorted stably by the keys its nodes have at the end, and when
      there is anything to sort every node has been compared, so its data is settled. The nodes
      `asked` were uncached; each has got its key in its turn, and the results record says so. */
  method MergeSort(list0: ListHead, cmp: Comparator, res: CoreResults?, ghost nodes: seq<ListHead>)
    returns (list: ListHead, ghost sorted: seq<ListHead>, ghost asked: seq<ListHead>)
    requires IsList(list0, nodes) && OwnInfos(nodes) && (cmp == CmpComplex ==> res != null)
    modifies nodes`next, Infos(nodes)`data16
    modifies Given(res)`calls, Given(res)`crc, Given(res)`crcmatrix, Given(res)`crcstate
    ensures IsList(list, sorted) && SameElements(sorted, nodes)
    ensures StablySorted(cmp, nodes, sorted)
    ensures |nodes| >= 2 ==> forall n :: n in nodes ==> Settled(cmp, res == null, n.info.data16)
    ensures forall n :: n in nodes ==> Evolves(cmp, res == null, old(n.info.data16), n.info.data16)
    ensures cmp == CmpComplex ==>
      && Computed(res.bench, old(RecordOf(res)), nodes, old(Words(nodes)), Words(nodes), asked)
      && RecordOf(res) == AfterAll(res.bench, old(RecordOf(res)), old(Words(nodes)), asked)
    ensures cmp == CmpIdx ==> asked == [] && (res != null ==> RecordOf(res) == old(RecordOf(res)))
  {
    hide AtHead, Sound, Sorted, StablySorted, Settled, Evolves, OwnInfos, Computed;
    ghost var was := Words(nodes);
    ghost var c := Call(cmp, res == null, nodes, RankOf(nodes), was, Indices(nodes), res, BenchOf(res), StartOf(res));
    StartHead(c, list0);
    var head;
    ghost var k;
    head, k, sorted := SortPasses(list0, cmp, res, c, Known(map[], was, []));
    SortedNow(c, k, sorted);
    SoundEvolves(c, k);
    NowIs(c, k);
    list, asked := head, k.asked;
  }

  lemma NowIs(c: Call, k: Known)
    requires Sound(c, k) && Holds(c, k)
    ensures c.cmp == CmpComplex ==> Computed(c.bench, c.start, c.nodes, c.was, Words(c.nodes), k.asked)
    ensures c.cmp == CmpIdx ==> k.asked == []
    ensures c.res != null ==> c.res.bench == c.bench && RecordOf(c.res) == AfterAll(c.bench, c.start, c.was, k.asked)
  {
    hide AfterAll, ValueOf, Evolves, Settled, KeyOf, AskedWord;
    if c.cmp == CmpComplex {
      var now := Words(c.nodes);
      assert forall n :: n in c.nodes ==> WordIn(now, n) == WordIn(k.now, n);
      forall i | 0 <= i < |k.asked| ensures ComputedAt(c.bench, c.start, c.was, now, k.asked, i) {
        assert ComputedAt(c.bench, c.start, c.was, k.now, k.asked, i) && k.asked[i] in c.nodes;
      }
    }
  }

  ghost function Words(nodes: seq<ListHead>): map<ListHead, Word>
    reads nodes`info, Infos(nodes)
  {
    map n | n in nodes :: n.info.data16
  }

  ghost function Indices(nodes: seq<ListHead>): map<ListHead, int16>
    reads nodes`info, Infos(nodes)
  {
    map n | n in nodes :: n.info.idx
  }

  lemma StartHead(c: Call, list: ListHead)
    requires IsList(list, c.nodes) && OwnInfos(c.nodes) && c.rank == RankOf(c.nodes)
    requires c.was == Words(c.nodes) && c.idx == Indices(c.nodes) && c.bench == BenchOf(c.res) && c.start == StartOf(c.res)
    ensures AtHead(c, Known(map[], c.was, []), [], c.nodes, 1, null, null, list)
  {
    hide AtPass, RankOf, Linked, Distinct, OwnInfos, Evolves, Settled, Sound, Holds;
    FirstPassReady(c, Known(map[], c.was, []), c.nodes);
    StartKnown(c, Known(map[], c.was, []));
  }

  lemma StartKnown(c: Call, k: Known)
    requires OwnInfos(c.nodes) && k.key == map[] && k.now == c.was && k.asked == []
    requires c.was == Words(c.nodes) && c.idx == Indices(c.nodes) && c.bench == BenchOf(c.res) && c.start == StartOf(c.res)
    ensures Sound(c, k) && Holds(c, k)
  {
  }

  lemma SoundEvolves(c: Call, k: Known)
    requires Sound(c, k) && Holds(c, k)
    ensures forall n :: n in c.nodes ==> n in c.was && Evolves(c.cmp, c.restore, c.was[n], n.info.data16)
  {
    hide Told, RecordAt;
  }
}
