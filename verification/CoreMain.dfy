/** `core_main.c`: the iterations over the list benchmark. */
module CoreMain {
  import opened MachineTypes
  import opened Merging
  import opened CoreList
  import opened ListSort
  import opened BenchList
  import Crc = Crc16
  import I = ListInit
  import X = ListIndex

  /** The list is whole, in strictly ascending order, and each data word is what its upper byte rebuilds. */
  ghost predicate Entry(res: CoreResults, nodes: seq<ListHead>, m: Contents)
    reads res`list, nodes`next, nodes`info, Infos(nodes)
  {
    && IsList(res.list, nodes) && |nodes| >= 3 && OwnInfos(nodes) && Items(nodes) == m
    && StrictIdx(nodes, m) && AllRegenerated(nodes, m)
  }

  // ----- the calls and their results

  /** One call of `core_bench_list`: the nodes whose keys it computed, what the last sort started from,
      and what it returned. */
  datatype Run = Run(finderIdx: int16, asked: seq<ListHead>, before: seq<ListHead>, m: Contents,
                     idx: int16, low: int, result: bv16)

  /** A call on the entry list, with the results record in state s. */
  ghost predicate IsRun(bench: Bench, s: Record, nodes: seq<ListHead>, m0: Contents, seed3: int16, r: Run) {
    && |nodes| >= 3 && |r.before| == |nodes|
    && Prepared(nodes, m0, r.finderIdx, seed3, r.before, r.m, r.idx, r.low)
    && Computed(bench, s, nodes, WordsOf(m0), WordsOf(r.m), r.asked) && (r.finderIdx <= 0 ==> r.asked == [])
    && r.result == Result(nodes, m0, r.finderIdx, seed3, r.before, r.m, r.idx, r.low, ItemOf(m0, nodes[0]).data)
  }

  /** The results record after it. */
  ghost function AfterRun(bench: Bench, s: Record, m0: Contents, r: Run): Record {
    var t := AfterAll(bench, s, WordsOf(m0), r.asked);
    t.(crc := Crc.Crcu16(Crc.WordOf(r.result), t.crc))
  }

  ghost function AfterRuns(bench: Bench, s: Record, m0: Contents, runs: seq<Run>): Record {
    if runs == [] then s
    else AfterRun(bench, AfterRuns(bench, s, m0, runs[..|runs| - 1]), m0, runs[|runs| - 1])
  }

  /** The calls of the iterations, with finder index 1 and -1 in turn, each on the entry list. */
  ghost predicate Runs(bench: Bench, s: Record, nodes: seq<ListHead>, m0: Contents, seed3: int16, runs: seq<Run>) {
    forall i :: 0 <= i < |runs| ==>
      && runs[i].finderIdx == (if i % 2 == 0 then 1 else -1)
      && IsRun(bench, AfterRuns(bench, s, m0, runs[..i]), nodes, m0, seed3, runs[i])
  }

  /** Everything the CRC of the results goes through: the keys a call computes, and what it returns. */
  ghost function RunValues(bench: Bench, s: Record, m0: Contents, runs: seq<Run>): seq<Word> {
    if runs == [] then []
    else
      var n := |runs| - 1;
      RunValues(bench, s, m0, runs[..n])
      + Values(bench, AfterRuns(bench, s, m0, runs[..n]), WordsOf(m0), runs[n].asked) + [Crc.WordOf(runs[n].result)]
  }

  lemma {:induction false} RunsCrc(bench: Bench, s: Record, m0: Contents, runs: seq<Run>)
    ensures AfterRuns(bench, s, m0, runs).crc == CrcThrough(s.crc, RunValues(bench, s, m0, runs))
  {
    hide Crc.Crcu16, Crc.WordOf, AfterAll, Values;
    if runs != [] {
      var n := |runs| - 1;
      var t, w := AfterRuns(bench, s, m0, runs[..n]), Crc.WordOf(runs[n].result);
      var vs, us := RunValues(bench, s, m0, runs[..n]), Values(bench, t, WordsOf(m0), runs[n].asked);
      RunsCrc(bench, s, m0, runs[..n]);
      AfterAllCrc(bench, t, WordsOf(m0), runs[n].asked);
      CrcThroughBoth(s.crc, vs, us);
      assert (vs + us + [w])[..|vs + us|] == vs + us;
    }
  }

  function Results(runs: seq<Run>): seq<Word> { seq(|runs|, i requires 0 <= i < |runs| => Crc.WordOf(runs[i].result)) }

  lemma NoneAsked(bench: Bench, s: Record, nodes: seq<ListHead>, m0: Contents, seed3: int16, runs: seq<Run>)
    requires Runs(bench, s, nodes, m0, seed3, runs) && forall n :: n in nodes ==> Cached(ItemOf(m0, n).data)
    ensures forall i :: 0 <= i < |runs| ==> runs[i].asked == []
  {
    hide Prepared, Result, AfterRuns, ItemOf, Cached, Computed;
    forall i | 0 <= i < |runs| ensures runs[i].asked == [] {
      var t, r := AfterRuns(bench, s, m0, runs[..i]), runs[i];
      assert IsRun(bench, t, nodes, m0, seed3, r);
      NothingAsked(bench, t, nodes, m0, r.m, r.asked);
    }
  }

  lemma {:induction false} OnlyResults(bench: Bench, s: Record, m0: Contents, runs: seq<Run>)
    requires forall i :: 0 <= i < |runs| ==> runs[i].asked == []
    ensures RunValues(bench, s, m0, runs) == Results(runs)
  {
    hide Crc.WordOf, AfterRuns;
    if runs != [] {
      OnlyResults(bench, s, m0, runs[..|runs| - 1]);
    }
  }

  /** If every word of the entry list is cached, no call computes a key, and the CRC goes through the
      results alone. */
  lemma CachedRuns(bench: Bench, s: Record, nodes: seq<ListHead>, m0: Contents, seed3: int16, runs: seq<Run>)
    requires Runs(bench, s, nodes, m0, seed3, runs) && forall n :: n in nodes ==> Cached(ItemOf(m0, n).data)
    ensures RunValues(bench, s, m0, runs) == Results(runs)
  {
    hide Runs, RunValues, Results, Cached, ItemOf;
    NoneAsked(bench, s, nodes, m0, seed3, runs);
    OnlyResults(bench, s, m0, runs);
  }

  lemma NothingAsked(bench: Bench, s: Record, nodes: seq<ListHead>, m0: Contents, m: Contents, asked: seq<ListHead>)
    requires Computed(bench, s, nodes, WordsOf(m0), WordsOf(m), asked)
    requires forall n :: n in nodes ==> Cached(ItemOf(m0, n).data)
    ensures asked == []
  {
    hide AfterAll, AskedWord, Cached;
    if asked != [] {
      assert ComputedAt(bench, s, WordsOf(m0), WordsOf(m), asked, 0) && asked[0] in asked;
      WordOfItem(m0, asked[0]);
      assert false;
    }
  }

  /** `core_bench_list` on such a list, which is the same again at the end. */
  method RunOnce(res: CoreResults, finderIdx: int16, ghost nodes: seq<ListHead>, ghost m: Contents)
    returns (crc: bv16, ghost run: Run)
    requires Entry(res, nodes, m)
    modifies nodes`next, nodes`info, Infos(nodes)`data16
    modifies res`calls, res`crc, res`crcmatrix, res`crcstate
    ensures Entry(res, nodes, m)
    ensures forall n :: n in nodes ==> n.info == old(n.info)
    ensures run.result == crc && run.finderIdx == finderIdx
    ensures IsRun(res.bench, old(RecordOf(res)), nodes, m, res.seed3, run)
    ensures RecordOf(res) == AfterAll(res.bench, old(RecordOf(res)), WordsOf(m), run.asked)
  {
    hide Linked, Distinct, OwnInfos, Items, StrictIdx, AllRegenerated, Returns, Prepared, Result, StablySorted, SameElements;
    hide Computed, AfterAll, WordsOf, RecordOf, ItemOf;
    var list;
    ghost var before, order, m', idx, low, asked;
    crc, list, before, order, m', idx, low, asked := BenchList.BenchList(res, finderIdx, nodes);
    StrictReturns(nodes, m, before);
    ItemsAre(nodes);
    assert nodes[0] in nodes;
    run := Run(finderIdx, asked, before, m', idx, low, crc);
  }

  /** One such call, and the CRC of its result. */
  method Call(res: CoreResults, finderIdx: int16, ghost nodes: seq<ListHead>, ghost m: Contents) returns (ghost run: Run)
    requires Entry(res, nodes, m)
    modifies nodes`next, nodes`info, Infos(nodes)`data16
    modifies res`calls, res`crc, res`crcmatrix, res`crcstate
    ensures Entry(res, nodes, m)
    ensures forall n :: n in nodes ==> n.info == old(n.info)
    ensures run.finderIdx == finderIdx && IsRun(res.bench, old(RecordOf(res)), nodes, m, res.seed3, run)
    ensures RecordOf(res) == AfterRun(res.bench, old(RecordOf(res)), m, run)
  {
    hide Entry, IsRun, AfterAll, Crc.Crcu16, Crc.WordOf, WordsOf;
    var crc;
    crc, run := RunOnce(res, finderIdx, nodes, m);
    res.crc := Crc.Crcu16(Crc.WordOf(crc), res.crc);
  }

  lemma RunsSnoc(bench: Bench, s: Record, nodes: seq<ListHead>, m0: Contents, seed3: int16, runs: seq<Run>, r: Run)
    requires Runs(bench, s, nodes, m0, seed3, runs) && r.finderIdx == if |runs| % 2 == 0 then 1 else -1
    requires IsRun(bench, AfterRuns(bench, s, m0, runs), nodes, m0, seed3, r)
    ensures Runs(bench, s, nodes, m0, seed3, runs + [r])
    ensures AfterRuns(bench, s, m0, runs + [r]) == AfterRun(bench, AfterRuns(bench, s, m0, runs), m0, r)
  {
    hide IsRun, AfterRun;
    var more := runs + [r];
    assert more[..|runs|] == runs;
    forall i | 0 <= i < |more|
      ensures more[i].finderIdx == (if i % 2 == 0 then 1 else -1)
      ensures IsRun(bench, AfterRuns(bench, s, m0, more[..i]), nodes, m0, seed3, more[i])
    {
      if i < |runs| { assert more[..i] == runs[..i]; }
    }
  }

  /** The two calls of one iteration. */
  method IterateOnce(res: CoreResults, ghost nodes: seq<ListHead>, ghost m: Contents, ghost s: Record, ghost runs0: seq<Run>)
    returns (ghost runs: seq<Run>)
    requires Entry(res, nodes, m) && |runs0| % 2 == 0
    requires Runs(res.bench, s, nodes, m, res.seed3, runs0) && RecordOf(res) == AfterRuns(res.bench, s, m, runs0)
    modifies nodes`next, nodes`info, Infos(nodes)`data16
    modifies res`calls, res`crc, res`crcmatrix, res`crcstate
    ensures Entry(res, nodes, m) && forall n :: n in nodes ==> n.info == old(n.info)
    ensures |runs| == |runs0| + 2 && runs0 <= runs
    ensures Runs(res.bench, s, nodes, m, res.seed3, runs) && RecordOf(res) == AfterRuns(res.bench, s, m, runs)
  {
    hide Entry, Runs, IsRun, AfterRuns, AfterRun;
    ghost var r1 := Call(res, 1, nodes, m);
    RunsSnoc(res.bench, s, nodes, m, res.seed3, runs0, r1);
    ghost var r2 := Call(res, -1, nodes, m);
    RunsSnoc(res.bench, s, nodes, m, res.seed3, runs0 + [r1], r2);
    runs := runs0 + [r1] + [r2];
  }

  /** `iterate`: the two calls of every iteration find the list as the first one did, and leave it so.
      The results record has gone through all of them in turn, and `crclist` is the CRC after the
      first two. */
  method Iterate(res: CoreResults, iterations: uint32, ghost nodes: seq<ListHead>, ghost m: Contents)
    returns (ghost runs: seq<Run>)
    requires Entry(res, nodes, m)
    modifies nodes`next, nodes`info, Infos(nodes)`data16
    modifies res`calls, res`crc, res`crclist, res`crcmatrix, res`crcstate
    ensures Entry(res, nodes, m)
    ensures forall n :: n in nodes ==> n.info == old(n.info)
    ensures var s := Record(old(res.calls), 0, Word(0, 0), Word(0, 0));
      && |runs| == 2 * iterations && Runs(res.bench, s, nodes, m, res.seed3, runs)
      && RecordOf(res) == AfterRuns(res.bench, s, m, runs)
      && res.crc == CrcThrough(0, RunValues(res.bench, s, m, runs))
      && res.crclist == if iterations == 0 then 0 else CrcThrough(0, RunValues(res.bench, s, m, runs[..2]))
  {
    hide Entry, Runs, IsRun, AfterRuns, AfterRun, RunValues, CrcThrough;
    ghost var s := Record(res.calls, 0, Word(0, 0), Word(0, 0));
    res.crc, res.crclist, res.crcmatrix, res.crcstate := 0, 0, Word(0, 0), Word(0, 0);
    runs := [];
    NoRuns(res.bench, s, nodes, m, res.seed3);
    var i := 0;
    while i < iterations
      invariant 0 <= i <= iterations
      invariant Entry(res, nodes, m) && forall n :: n in nodes ==> n.info == old(n.info)
      invariant |runs| == 2 * i && Runs(res.bench, s, nodes, m, res.seed3, runs)
      invariant RecordOf(res) == AfterRuns(res.bench, s, m, runs)
      invariant res.crclist == if i == 0 then 0 else AfterRuns(res.bench, s, m, runs[..2]).crc
      decreases iterations - i
    {
      ghost var was := runs;
      runs := IterateOnce(res, nodes, m, s, runs);
      if i == 0 { res.crclist := res.crc; }
      assert if i == 0 then runs[..2] == runs else runs[..2] == was[..2];
      i := i + 1;
    }
    RunsCrc(res.bench, s, m, runs);
    if iterations > 0 { RunsCrc(res.bench, s, m, runs[..2]); }
  }

  lemma NoRuns(bench: Bench, s: Record, nodes: seq<ListHead>, m0: Contents, seed3: int16)
    ensures Runs(bench, s, nodes, m0, seed3, []) && AfterRuns(bench, s, m0, []) == s
  {
  }

  lemma EntryItem(n: ListHead, s: seq<ListHead>, size: nat, p: nat, seed: int16)
    requires size >= 1 && n in s && I.Entry(n, size, p, seed)
    ensures ItemOf(Items(s), n) == Item(X.EntryIdx(size, p, seed), I.EntryWord(size - 1, p, seed))
  {
  }

  /** `core_list_init`, and a record of what it leaves in the list. */
  method Prepare(size: nat, seed1: int16)
    returns (list: ListHead, ghost built: seq<ListHead>, ghost nodes: seq<ListHead>, ghost m: Contents)
    requires size >= 4 && X.Apart(size, seed1)
    ensures |built| == |nodes| == size - 1 && SameElements(nodes, built) && StrictIdx(nodes, m) && AllRegenerated(nodes, m)
    ensures forall p :: 0 <= p < size - 1 ==>
      ItemOf(m, built[p]) == Item(X.EntryIdx(size, p, seed1), I.EntryWord(size - 1, p, seed1))
    ensures IsList(list, nodes) && OwnInfos(nodes) && Items(nodes) == m
    ensures fresh(nodes) && fresh(Infos(nodes))
  {
    hide Linked, Distinct, OwnInfos, StrictIdx, AllRegenerated, StablySorted, Items, ItemOf, X.Apart, X.EntryIdx, I.EntryWord;
    list, built, nodes := I.Init(size, seed1);
    m := Items(nodes);
    assert forall i :: 0 <= i < |nodes| ==> nodes[i] in nodes;
    forall p | 0 <= p < size - 1
      ensures ItemOf(m, built[p]) == Item(X.EntryIdx(size, p, seed1), I.EntryWord(size - 1, p, seed1))
    {
      assert built[p] in nodes && I.Entry(built[p], size, p, seed1);
      EntryItem(built[p], nodes, size, p, seed1);
    }
  }

  /** `main` as far as the list goes: a list of `size` items from one seed, and any number of iterations
      with any other seed and any inner results. Where the indices of the list are all different, it is
      after every iteration the list that was built, in order and contents. */
  method RunList(size: nat, seed1: int16, seed3: int16, bench: Bench, iterations: uint32)
    returns (res: CoreResults, ghost built: seq<ListHead>, ghost nodes: seq<ListHead>, ghost m: Contents,
             ghost runs: seq<Run>)
    requires size >= 4 && X.Apart(size, seed1)
    ensures |built| == size - 1 && SameElements(nodes, built) && StrictIdx(nodes, m)
    ensures var s := Record(0, 0, Word(0, 0), Word(0, 0));
      && |runs| == 2 * iterations && Runs(bench, s, nodes, m, seed3, runs)
      && res.crc == CrcThrough(0, RunValues(bench, s, m, runs))
      && res.crclist == if iterations == 0 then 0 else CrcThrough(0, RunValues(bench, s, m, runs[..2]))
    ensures forall p :: 0 <= p < size - 1 ==>
      ItemOf(m, built[p]) == Item(X.EntryIdx(size, p, seed1), I.EntryWord(size - 1, p, seed1))
    ensures IsList(res.list, nodes) && Items(nodes) == m
  {
    hide Linked, Distinct, OwnInfos, StrictIdx, AllRegenerated, SameElements, ItemOf, Infos, X.Apart, X.EntryIdx, I.EntryWord;
    var list;
    list, built, nodes, m := Prepare(size, seed1);
    res := new CoreResults(list, seed3, bench);
    hide Runs, RunValues, CrcThrough, AfterRuns;
    runs := Iterate(res, iterations, nodes, m);
  }
}
