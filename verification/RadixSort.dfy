/** `sort` of the radix sort benchmark: four stable counting passes over 8-bit digits, counting
    and scattering four elements per turn, between two buffers that swap roles. */
module RadixSort {
  import opened Arith
  import opened MachineTypes

  const LOG_BASE := 8
  const BASE := 256

  /** The digit of a that starts at bit exp. */
  function Digit(a: uint32, exp: nat): (d: int)
    ensures 0 <= d < BASE
  {
    a / Pow2(exp) % BASE
  }

  /** The low exp bits of a. */
  function Low(a: uint32, exp: nat): int {
    a % Pow2(exp)
  }

  // ----- what one pass computes

  /** The elements with digit d, in their order. */
  function Filter(s: seq<uint32>, exp: nat, d: int): (r: seq<uint32>) {
    if s == [] then []
    else Filter(s[..|s| - 1], exp, d) + (if Digit(s[|s| - 1], exp) == d then [s[|s| - 1]] else [])
  }

  lemma {:induction false} FilterMembers(s: seq<uint32>, exp: nat, d: int)
    ensures forall x :: x in Filter(s, exp, d) ==> x in s && Digit(x, exp) == d
  {
    hide Digit;
    if s != [] {
      FilterMembers(s[..|s| - 1], exp, d);
    }
  }

  /** The elements with digits below d, by digit, and in their order within a digit. */
  function Bucketed(s: seq<uint32>, exp: nat, d: nat): (r: seq<uint32>) {
    if d == 0 then [] else Bucketed(s, exp, d - 1) + Filter(s, exp, d - 1)
  }

  ghost predicate SortedLow(s: seq<uint32>, exp: nat) {
    forall i, j :: 0 <= i < j < |s| ==> Low(s[i], exp) <= Low(s[j], exp)
  }

  ghost function Below(s: seq<uint32>, exp: nat, d: int): seq<uint32> {
    if s == [] then []
    else Below(s[..|s| - 1], exp, d) + (if Digit(s[|s| - 1], exp) < d then [s[|s| - 1]] else [])
  }

  lemma {:induction false} BelowSplits(s: seq<uint32>, exp: nat, d: int)
    ensures multiset(Below(s, exp, d + 1)) == multiset(Below(s, exp, d)) + multiset(Filter(s, exp, d))
  {
    hide Digit, Low;
    if s != [] {
      BelowSplits(s[..|s| - 1], exp, d);
    }
  }

  lemma {:induction false} BelowEnds(s: seq<uint32>, exp: nat)
    ensures Below(s, exp, 0) == [] && Below(s, exp, BASE) == s
  {
    if s != [] {
      BelowEnds(s[..|s| - 1], exp);
      assert s == s[..|s| - 1] + [s[|s| - 1]];
    }
  }

  lemma {:induction false} BucketedIsBelow(s: seq<uint32>, exp: nat, d: nat)
    ensures multiset(Bucketed(s, exp, d)) == multiset(Below(s, exp, d))
  {
    hide Digit, Low, Below, Filter;
    if d == 0 {
      BelowEnds(s, exp);
    } else {
      BucketedIsBelow(s, exp, d - 1);
      BelowSplits(s, exp, d - 1);
    }
  }

  /** A pass loses and invents nothing. */
  lemma PassPermutes(s: seq<uint32>, exp: nat)
    ensures multiset(Bucketed(s, exp, BASE)) == multiset(s)
    ensures |Bucketed(s, exp, BASE)| == |s|
  {
    BucketedIsBelow(s, exp, BASE);
    BelowEnds(s, exp);
    assert |multiset(s)| == |s| && |multiset(Bucketed(s, exp, BASE))| == |Bucketed(s, exp, BASE)|;
  }

  /** The low exp + 8 bits are the digit followed by the low exp bits. */
  lemma LowSplits(a: uint32, exp: nat)
    ensures Low(a, exp + 8) == Digit(a, exp) * Pow2(exp) + Low(a, exp)
    ensures 0 <= Low(a, exp) < Pow2(exp)
  {
    hide Pow2;
    Pow2Add8(exp);
    DigitsOf(a, Pow2(exp));
  }

  lemma DigitsOf(a: int, p: int)
    requires p >= 1
    ensures a % (256 * p) == a / p % 256 * p + a % p
    ensures 0 <= a % p < p
  {
    var q, r := a / p, a % p;
    var h, d := q / 256, q % 256;
    Euclid(p, a);
    assert q == 256 * h + d;
    assert a == p * (256 * h + d) + r;
    assert p * (256 * h + d) == 256 * p * h + d * p;
    MulMono(d, 255, p);
    DivModUnique(256 * p, a, h, d * p + r);
  }

  lemma DigitFirst(x: uint32, y: uint32, exp: nat)
    requires Digit(x, exp) < Digit(y, exp) || (Digit(x, exp) == Digit(y, exp) && Low(x, exp) <= Low(y, exp))
    ensures Low(x, exp + 8) <= Low(y, exp + 8)
  {
    LowSplits(x, exp);
    LowSplits(y, exp);
    hide Digit, Low, Pow2;
    if Digit(x, exp) < Digit(y, exp) {
      MulMono(Digit(x, exp) + 1, Digit(y, exp), Pow2(exp));
      assert (Digit(x, exp) + 1) * Pow2(exp) == Digit(x, exp) * Pow2(exp) + Pow2(exp);
    }
  }

  lemma {:induction false} FilterKeepsOrder(s: seq<uint32>, exp: nat, d: int)
    requires SortedLow(s, exp)
    ensures SortedLow(Filter(s, exp, d), exp)
  {
    hide Digit, Low;
    if s != [] {
      var rest, last := s[..|s| - 1], s[|s| - 1];
      FilterKeepsOrder(rest, exp, d);
      FilterMembers(rest, exp, d);
      assert forall x :: x in rest ==> Low(x, exp) <= Low(last, exp);
    }
  }

  lemma {:induction false} BucketedDigits(s: seq<uint32>, exp: nat, d: nat)
    ensures forall x :: x in Bucketed(s, exp, d) ==> Digit(x, exp) < d
  {
    hide Digit, Low, Filter;
    if d > 0 {
      BucketedDigits(s, exp, d - 1);
      FilterMembers(s, exp, d - 1);
    }
  }

  /** A pass over elements in order of their low exp bits puts them in order of exp + 8. */
  lemma {:induction false} PassSorts(s: seq<uint32>, exp: nat, d: nat)
    requires SortedLow(s, exp)
    ensures SortedLow(Bucketed(s, exp, d), exp + 8)
  {
    hide Digit, Low, Filter;
    if d > 0 {
      PassSorts(s, exp, d - 1);
      BucketedDigits(s, exp, d - 1);
      FilterKeepsOrder(s, exp, d - 1);
      FilterMembers(s, exp, d - 1);
      var a, b := Bucketed(s, exp, d - 1), Filter(s, exp, d - 1);
      var c := a + b;
      forall i, j | 0 <= i < j < |c| ensures Low(c[i], exp + 8) <= Low(c[j], exp + 8) {
        if i >= |a| {
          assert c[i] == b[i - |a|] && c[j] == b[j - |a|];
          DigitFirst(c[i], c[j], exp);
        } else if j >= |a| {
          assert c[i] in a && c[j] in b;
          DigitFirst(c[i], c[j], exp);
        }
      }
    }
  }

  // ----- stability

  /** The elements whose low exp bits are v, in their order. */
  function Class(s: seq<uint32>, exp: nat, v: int): (r: seq<uint32>) {
    if s == [] then []
    else Class(s[..|s| - 1], exp, v) + (if Low(s[|s| - 1], exp) == v then [s[|s| - 1]] else [])
  }

  /** s is s0 sorted stably by the low exp bits. */
  ghost predicate StableLow(s0: seq<uint32>, s: seq<uint32>, exp: nat) {
    SortedLow(s, exp) && forall v: int :: SameClass(s0, s, exp, v)
  }

  ghost predicate SameClass(s0: seq<uint32>, s: seq<uint32>, exp: nat, v: int) {
    Class(s, exp, v) == Class(s0, exp, v)
  }

  lemma LowIs(x: uint32, exp: nat, w: int)
    ensures Low(x, exp + 8) == w <==> Digit(x, exp) == w / Pow2(exp) && Low(x, exp) == w % Pow2(exp)
  {
    var p := Pow2(exp);
    LowSplits(x, exp);
    hide Low, Digit, Pow2;
    Euclid(p, w);
    if Low(x, exp + 8) == w {
      DivModUnique(p, w, Digit(x, exp), Low(x, exp));
    }
  }

  lemma {:induction false} ClassSplits(s: seq<uint32>, exp: nat, w: int)
    ensures Class(s, exp + 8, w) == Filter(Class(s, exp, w % Pow2(exp)), exp, w / Pow2(exp))
  {
    if s != [] {
      var r, x := s[..|s| - 1], s[|s| - 1];
      var d, v := w / Pow2(exp), w % Pow2(exp);
      ClassSplits(r, exp, w);
      LowIs(x, exp, w);
      assert Class(s, exp, v) == Class(r, exp, v) + if Low(x, exp) == v then [x] else [];
      assert Class(s, exp + 8, w) == Class(r, exp + 8, w) + if Low(x, exp + 8) == w then [x] else [];
      FilterSnoc(Class(r, exp, v), x, exp, d);
      hide Low, Digit, Pow2, Class, Filter;
      assert Class(r, exp, v) + [] == Class(r, exp, v);
      assert Class(r, exp + 8, w) + [] == Class(r, exp + 8, w);
    }
  }

  lemma FilterSnoc(s: seq<uint32>, x: uint32, exp: nat, d: int)
    ensures Filter(s + [x], exp, d) == Filter(s, exp, d) + if Digit(x, exp) == d then [x] else []
  {
    hide Digit;
    assert (s + [x])[..|s|] == s;
  }

  lemma {:induction false} ClassConcat(a: seq<uint32>, b: seq<uint32>, exp: nat, v: int)
    ensures Class(a + b, exp, v) == Class(a, exp, v) + Class(b, exp, v)
  {
    hide Low;
    if b == [] {
      assert a + b == a;
    } else {
      assert (a + b)[..|a + b| - 1] == a + b[..|b| - 1];
      ClassConcat(a, b[..|b| - 1], exp, v);
    }
  }

  lemma ClassOne(x: uint32, exp: nat, v: int)
    ensures Class([x], exp, v) == if Low(x, exp) == v then [x] else []
  {
    hide Low;
    assert [x][..0] == [];
  }

  lemma {:induction false} ClassOfDigit(s: seq<uint32>, exp: nat, e: int, w: int)
    ensures Class(Filter(s, exp, e), exp + 8, w) == if e == w / Pow2(exp) then Class(s, exp + 8, w) else []
  {
    if s != [] {
      var rest, x := s[..|s| - 1], s[|s| - 1];
      ClassOfDigit(rest, exp, e, w);
      LowIs(x, exp, w);
      ClassConcat(Filter(rest, exp, e), [x], exp + 8, w);
      ClassOne(x, exp + 8, w);
      hide Low, Digit, Pow2;
      assert Filter(rest, exp, e) + [] == Filter(rest, exp, e);
    }
  }

  lemma BucketedIs(s: seq<uint32>, exp: nat, d: nat)
    ensures Bucketed(s, exp, d) == if d == 0 then [] else Bucketed(s, exp, d - 1) + Filter(s, exp, d - 1)
  {
  }

  lemma ClassNone(exp: nat, w: int)
    ensures Class([], exp, w) == []
  {
  }

  lemma {:induction false} ClassOfBuckets(s: seq<uint32>, exp: nat, d: nat, w: int)
    ensures Class(Bucketed(s, exp, d), exp + 8, w) == if 0 <= w / Pow2(exp) < d then Class(s, exp + 8, w) else []
  {
    hide Low, Digit, Filter, Pow2, Bucketed, Class;
    BucketedIs(s, exp, d);
    if d == 0 {
      ClassNone(exp + 8, w);
    } else {
      ClassOfBuckets(s, exp, d - 1, w);
      ClassConcat(Bucketed(s, exp, d - 1), Filter(s, exp, d - 1), exp + 8, w);
      ClassOfDigit(s, exp, d - 1, w);
    }
  }

  lemma {:induction false} NoSuchDigit(s: seq<uint32>, exp: nat, d: int)
    requires !(0 <= d < BASE)
    ensures Filter(s, exp, d) == []
  {
    hide Digit;
    if s != [] { NoSuchDigit(s[..|s| - 1], exp, d); }
  }

  /** A pass keeps, for every value of the low exp + 8 bits, the elements that have it in order. */
  lemma PassKeepsClasses(s: seq<uint32>, exp: nat, w: int)
    ensures Class(Bucketed(s, exp, BASE), exp + 8, w) == Class(s, exp + 8, w)
  {
    hide Class, Bucketed, Filter, Pow2;
    ClassOfBuckets(s, exp, BASE, w);
    if !(0 <= w / Pow2(exp) < BASE) {
      ClassSplits(s, exp, w);
      NoSuchDigit(Class(s, exp, w % Pow2(exp)), exp, w / Pow2(exp));
    }
  }

  /** Each pass is stable: from a stable order by the low exp bits to one by eight more. */
  lemma PassStable(s0: seq<uint32>, s: seq<uint32>, exp: nat)
    requires StableLow(s0, s, exp)
    ensures StableLow(s0, Bucketed(s, exp, BASE), exp + 8)
  {
    PassSorts(s, exp, BASE);
    hide SortedLow, Bucketed, Class, Pow2;
    var t, e := Bucketed(s, exp, BASE), exp + 8;
    forall w: int ensures SameClass(s0, t, e, w) {
      PassKeepsClasses(s, exp, w);
      assert SameClass(s0, s, exp, w % Pow2(exp));
      ClassSplits(s, exp, w);
      ClassSplits(s0, exp, w);
    }
  }

  // ----- counting and prefix sums

  ghost predicate Counted(b: seq<int>, s: seq<uint32>, exp: nat, m: nat) {
    && |b| == BASE && m <= |s|
    && forall d :: 0 <= d < BASE ==> b[d] == |Filter(s[..m], exp, d)|
  }

  lemma CountOne(b: seq<int>, s: seq<uint32>, exp: nat, m: nat)
    requires Counted(b, s, exp, m) && m < |s|
    ensures Counted(b[Digit(s[m], exp) := b[Digit(s[m], exp)] + 1], s, exp, m + 1)
  {
    hide Digit;
    assert s[..m + 1][..m] == s[..m];
  }

  /** Adds to a bucket and returns what it held. */
  method FetchAdd(bucket: array<int>, d: int, inc: int) returns (was: int)
    requires 0 <= d < bucket.Length
    modifies bucket
    ensures was == old(bucket[d]) && bucket[..] == old(bucket[..])[d := was + inc]
  {
    bucket[d] := bucket[d] + inc;
    was := bucket[d] - inc;
  }

  method CountNext(arr: array<uint32>, bucket: array<int>, exp: nat, ghost m: nat, a: uint32)
    requires Counted(bucket[..], arr[..], exp, m) && m < arr.Length && a == arr[m]
    modifies bucket
    ensures Counted(bucket[..], arr[..], exp, m + 1)
  {
    CountOne(bucket[..], arr[..], exp, m);
    var _ := FetchAdd(bucket, Digit(a, exp), 1);
  }

  method Count(arr: array<uint32>, bucket: array<int>, exp: nat)
    requires bucket.Length == BASE
    modifies bucket
    ensures Counted(bucket[..], arr[..], exp, arr.Length)
  {
    hide Counted, Digit;
    var n := arr.Length;
    for b := 0 to BASE
      invariant forall d :: 0 <= d < b ==> bucket[d] == 0
    {
      bucket[b] := 0;
    }
    NothingCounted(bucket[..], arr[..], exp);
    var p := 0;
    while p < n - 3
      invariant p <= n && Counted(bucket[..], arr[..], exp, p)
    {
      var a0, a1, a2, a3 := arr[p], arr[p + 1], arr[p + 2], arr[p + 3];
      CountNext(arr, bucket, exp, p, a0);
      CountNext(arr, bucket, exp, p + 1, a1);
      CountNext(arr, bucket, exp, p + 2, a2);
      CountNext(arr, bucket, exp, p + 3, a3);
      p := p + 4;
    }
    while p < n
      invariant p <= n && Counted(bucket[..], arr[..], exp, p)
    {
      CountNext(arr, bucket, exp, p, arr[p]);
      p := p + 1;
    }
  }

  lemma NothingCounted(b: seq<int>, s: seq<uint32>, exp: nat)
    requires |b| == BASE && forall d :: 0 <= d < BASE ==> b[d] == 0
    ensures Counted(b, s, exp, 0)
  {
    assert s[..0] == [];
  }

  /** bucket[d] is where the elements of digit d end among the first p elements' places. */
  ghost predicate Slots(b: seq<int>, s: seq<uint32>, exp: nat, p: nat) {
    && |b| == BASE && p <= |s|
    && forall d :: 0 <= d < BASE ==> b[d] == |Bucketed(s, exp, d)| + |Filter(s[..p], exp, d)|
  }

  /** The first m entries are summed. */
  ghost predicate Summed(b: seq<int>, s: seq<uint32>, exp: nat, m: nat) {
    && |b| == BASE && m <= BASE
    && forall d :: 0 <= d < BASE ==>
         b[d] == (if d < m then |Bucketed(s, exp, d)| else 0) + |Filter(s, exp, d)|
  }

  lemma CountedSummed(b: seq<int>, s: seq<uint32>, exp: nat)
    requires Counted(b, s, exp, |s|)
    ensures Summed(b, s, exp, 1) && b[0] == |Bucketed(s, exp, 1)|
  {
    assert s[..|s|] == s;
    assert Bucketed(s, exp, 1) == Filter(s, exp, 0);
  }

  method SumNext(bucket: array<int>, d: nat, prev0: int, ghost s: seq<uint32>, exp: nat) returns (prev: int)
    requires Summed(bucket[..], s, exp, d) && d < BASE == bucket.Length && prev0 == |Bucketed(s, exp, d)|
    modifies bucket
    ensures Summed(bucket[..], s, exp, d + 1) && prev == |Bucketed(s, exp, d + 1)|
  {
    var was := FetchAdd(bucket, d, prev0);
    prev := prev0 + was;
  }

  method PrefixSums(bucket: array<int>, exp: nat, ghost s: seq<uint32>)
    requires bucket.Length == BASE && Counted(bucket[..], s, exp, |s|)
    modifies bucket
    ensures Slots(bucket[..], s, exp, |s|)
  {
    hide Summed, Counted, Slots, Bucketed, Filter;
    CountedSummed(bucket[..], s, exp);
    var prev := bucket[0];
    prev := SumNext(bucket, 1, prev, s, exp);
    var b := 2;
    while b < BASE
      invariant 2 <= b <= BASE && b % 2 == 0
      invariant Summed(bucket[..], s, exp, b) && prev == |Bucketed(s, exp, b)|
    {
      prev := SumNext(bucket, b, prev, s, exp);
      prev := SumNext(bucket, b + 1, prev, s, exp);
      b := b + 2;
    }
    SummedSlots(bucket[..], s, exp);
  }

  lemma SummedSlots(b: seq<int>, s: seq<uint32>, exp: nat)
    requires Summed(b, s, exp, BASE)
    ensures Slots(b, s, exp, |s|)
  {
    assert s[..|s|] == s;
  }

  // ----- scattering

  /** The place of the p-th element in the output of the pass. */
  ghost function Place(s: seq<uint32>, exp: nat, p: nat): int
    requires p < |s|
  {
    var d := Digit(s[p], exp);
    |Bucketed(s, exp, d)| + |Filter(s[..p], exp, d)|
  }

  lemma {:induction false} FilterPrefix(s: seq<uint32>, exp: nat, d: int, p: nat)
    requires p <= |s|
    ensures |Filter(s[..p], exp, d)| <= |Filter(s, exp, d)|
    ensures Filter(s, exp, d)[..|Filter(s[..p], exp, d)|] == Filter(s[..p], exp, d)
  {
    hide Digit;
    if p == |s| {
      assert s[..p] == s;
    } else {
      assert s[..|s| - 1][..p] == s[..p];
      FilterPrefix(s[..|s| - 1], exp, d, p);
    }
  }

  lemma FilterNext(s: seq<uint32>, exp: nat, p: nat)
    requires p < |s|
    ensures var d := Digit(s[p], exp); var k := |Filter(s[..p], exp, d)|;
      && |Filter(s[..p + 1], exp, d)| == k + 1
      && k < |Filter(s, exp, d)| && Filter(s, exp, d)[k] == s[p]
  {
    hide Digit;
    var d := Digit(s[p], exp);
    assert s[..p + 1][..p] == s[..p];
    assert Filter(s[..p + 1], exp, d) == Filter(s[..p], exp, d) + [s[p]];
    FilterPrefix(s, exp, d, p + 1);
  }

  lemma FilterSkips(s: seq<uint32>, exp: nat, p: nat, d: int)
    requires p < |s| && d != Digit(s[p], exp)
    ensures Filter(s[..p + 1], exp, d) == Filter(s[..p], exp, d)
  {
    assert s[..p + 1][..p] == s[..p];
  }

  lemma {:induction false} BucketMono(s: seq<uint32>, exp: nat, c: nat, d: nat)
    requires c <= d
    ensures |Bucketed(s, exp, c)| <= |Bucketed(s, exp, d)|
    ensures c < d ==> |Bucketed(s, exp, c)| + |Filter(s, exp, c)| <= |Bucketed(s, exp, d)|
    decreases d
  {
    if c < d {
      BucketMono(s, exp, c, d - 1);
    }
  }

  lemma PlaceInBounds(s: seq<uint32>, exp: nat, p: nat)
    requires p < |s|
    ensures 0 <= Place(s, exp, p) < |s|
  {
    hide Digit;
    FilterNext(s, exp, p);
    BucketMono(s, exp, Digit(s[p], exp), BASE);
    PassPermutes(s, exp);
  }

  /** No two elements have the same place. */
  lemma PlacesDiffer(s: seq<uint32>, exp: nat, p: nat, q: nat)
    requires p < q < |s|
    ensures Place(s, exp, p) != Place(s, exp, q)
  {
    hide Digit, Filter, Bucketed;
    var d, e := Digit(s[p], exp), Digit(s[q], exp);
    FilterNext(s, exp, p);
    FilterNext(s, exp, q);
    if d == e {
      assert s[..q][..p + 1] == s[..p + 1];
      FilterPrefix(s[..q], exp, d, p + 1);
    } else if d < e {
      BucketMono(s, exp, d, e);
    } else {
      BucketMono(s, exp, e, d);
    }
  }

  /** The slots of the elements from p on. */
  ghost function Used(s: seq<uint32>, exp: nat, p: nat): set<int>
    requires p <= |s|
    decreases |s| - p
  {
    if p == |s| then {} else Used(s, exp, p + 1) + {Place(s, exp, p)}
  }

  lemma {:induction false} UsedAre(s: seq<uint32>, exp: nat, p: nat)
    requires p <= |s|
    ensures forall i :: i in Used(s, exp, p) ==> exists q: nat :: p <= q < |s| && i == Place(s, exp, q)
    decreases |s| - p
  {
    hide Place;
    if p < |s| { UsedAre(s, exp, p + 1); }
  }

  /** The slot of element p is not among those of the elements after it. */
  lemma FreshSlot(s: seq<uint32>, exp: nat, p: nat)
    requires p < |s|
    ensures Place(s, exp, p) !in Used(s, exp, p + 1)
  {
    hide Place, Used;
    UsedAre(s, exp, p + 1);
    if Place(s, exp, p) in Used(s, exp, p + 1) {
      var q: nat :| p + 1 <= q < |s| && Place(s, exp, p) == Place(s, exp, q);
      PlacesDiffer(s, exp, p, q);
    }
  }

  lemma {:induction false} UsedCount(s: seq<uint32>, exp: nat, p: nat)
    requires p <= |s|
    ensures |Used(s, exp, p)| == |s| - p && Used(s, exp, p) <= Slice(|s|)
    decreases |s| - p
  {
    if p < |s| {
      UsedCount(s, exp, p + 1);
      FreshSlot(s, exp, p);
      PlaceInBounds(s, exp, p);
    }
  }

  ghost function Slice(n: nat): (r: set<int>)
    ensures |r| == n && forall i :: i in r <==> 0 <= i < n
  {
    if n == 0 then {} else Slice(n - 1) + {n - 1}
  }

  /** A pass uses every slot, and each for one element only. */
  lemma EverySlotOnce(s: seq<uint32>, exp: nat)
    ensures Used(s, exp, 0) == Slice(|s|)
    ensures forall p: nat, q: nat :: p < q < |s| ==> Place(s, exp, p) != Place(s, exp, q)
  {
    hide Place, Used;
    UsedCount(s, exp, 0);
    var a, b := Used(s, exp, 0), Slice(|s|);
    assert b == a + (b - a);
    forall p: nat, q: nat | p < q < |s| ensures Place(s, exp, p) != Place(s, exp, q) {
      PlacesDiffer(s, exp, p, q);
    }
  }

  /** Taking a place for element p - 1: the counter gives its place and moves down. */
  lemma SlotsDown(b: seq<int>, s: seq<uint32>, exp: nat, p: nat)
    requires Slots(b, s, exp, p + 1) && p < |s|
    ensures var d := Digit(s[p], exp);
      b[d] == Place(s, exp, p) + 1 && Slots(b[d := b[d] - 1], s, exp, p)
  {
    hide Digit;
    FilterNext(s, exp, p);
    forall d | 0 <= d < BASE && d != Digit(s[p], exp)
      ensures |Filter(s[..p + 1], exp, d)| == |Filter(s[..p], exp, d)|
    {
      FilterSkips(s, exp, p, d);
    }
  }

  /** The elements from p on are in their places. */
  ghost predicate Placed(t: seq<uint32>, s: seq<uint32>, exp: nat, p: nat) {
    && |t| == |s| && p <= |s|
    && forall d: nat, k: nat :: d < BASE && |Filter(s[..p], exp, d)| <= k < |Filter(s, exp, d)| ==>
         InPlace(t, s, exp, d, k)
  }

  lemma NothingPlaced(t: seq<uint32>, s: seq<uint32>, exp: nat)
    requires |t| == |s|
    ensures Placed(t, s, exp, |s|)
  {
    assert s[..|s|] == s;
  }

  /** The k-th element of digit d keeps its place when element p takes its own. */
  lemma PlaceApart(s: seq<uint32>, exp: nat, p: nat, d: int, k: nat)
    requires p < |s| && 0 <= d < BASE && |Filter(s[..p], exp, d)| <= k < |Filter(s, exp, d)|
    ensures d != Digit(s[p], exp) || k != |Filter(s[..p], exp, d)| ==>
      && |Bucketed(s, exp, d)| + k != Place(s, exp, p)
      && |Filter(s[..p + 1], exp, d)| <= k
    ensures d == Digit(s[p], exp) && k == |Filter(s[..p], exp, d)| ==>
      |Bucketed(s, exp, d)| + k == Place(s, exp, p) && Filter(s, exp, d)[k] == s[p]
  {
    hide Digit, Bucketed, Filter;
    var e := Digit(s[p], exp);
    FilterNext(s, exp, p);
    if d < e {
      FilterSkips(s, exp, p, d);
      BucketMono(s, exp, d, e);
    } else if d > e {
      FilterSkips(s, exp, p, d);
      BucketMono(s, exp, e, d);
    }
  }

  /** The k-th element of digit d is in its place. */
  ghost predicate InPlace(t: seq<uint32>, s: seq<uint32>, exp: nat, d: nat, k: nat)
    requires k < |Filter(s, exp, d)|
  {
    var i := |Bucketed(s, exp, d)| + k;
    i < |t| && t[i] == Filter(s, exp, d)[k]
  }

  lemma PlaceOneAt(t: seq<uint32>, s: seq<uint32>, exp: nat, p: nat, d: nat, k: nat)
    requires Placed(t, s, exp, p + 1) && p < |s| && 0 <= Place(s, exp, p) < |t|
    requires d < BASE && |Filter(s[..p], exp, d)| <= k < |Filter(s, exp, d)|
    ensures InPlace(t[Place(s, exp, p) := s[p]], s, exp, d, k)
  {
    hide Digit, Bucketed, Filter, Place;
    PlaceApart(s, exp, p, d, k);
    if d != Digit(s[p], exp) || k != |Filter(s[..p], exp, d)| {
      assert InPlace(t, s, exp, d, k);
    }
  }

  lemma PlaceOne(t: seq<uint32>, s: seq<uint32>, exp: nat, p: nat)
    requires Placed(t, s, exp, p + 1) && p < |s|
    ensures 0 <= Place(s, exp, p) < |t| && Placed(t[Place(s, exp, p) := s[p]], s, exp, p)
  {
    PlaceInBounds(s, exp, p);
    hide Digit, Bucketed, Filter, Place, InPlace;
    var t' := t[Place(s, exp, p) := s[p]];
    forall d: nat, k: nat | d < BASE && |Filter(s[..p], exp, d)| <= k < |Filter(s, exp, d)|
      ensures InPlace(t', s, exp, d, k)
    {
      PlaceOneAt(t, s, exp, p, d, k);
    }
  }

  lemma NoneFiltered(s: seq<uint32>, exp: nat, d: int)
    ensures Filter(s[..0], exp, d) == []
  {
  }

  lemma {:induction false} AllPlaced(t: seq<uint32>, s: seq<uint32>, exp: nat, d: nat)
    requires Placed(t, s, exp, 0) && d <= BASE
    ensures |Bucketed(s, exp, d)| <= |t| && t[..|Bucketed(s, exp, d)|] == Bucketed(s, exp, d)
  {
    hide Digit, Filter;
    PassPermutes(s, exp);
    BucketMono(s, exp, d, BASE);
    if d > 0 {
      AllPlaced(t, s, exp, d - 1);
      NoneFiltered(s, exp, d - 1);
      var a, f := Bucketed(s, exp, d - 1), Filter(s, exp, d - 1);
      forall i | 0 <= i < |a + f| ensures t[i] == (a + f)[i] {
        if i < |a| {
          assert t[..|a|][i] == a[i];
        } else {
          assert InPlace(t, s, exp, d - 1, i - |a|) && f[i - |a|] == (a + f)[i];
        }
      }
    }
  }

  /** Takes the next slot of the digit of element p: the result is one past its place. */
  method Fetch(bucket: array<int>, exp: nat, ghost s: seq<uint32>, ghost p: nat, a: uint32) returns (slot: int)
    requires p < |s| && a == s[p] && Slots(bucket[..], s, exp, p + 1)
    modifies bucket
    ensures slot == Place(s, exp, p) + 1 && Slots(bucket[..], s, exp, p)
  {
    SlotsDown(bucket[..], s, exp, p);
    slot := FetchAdd(bucket, Digit(a, exp), -1);
  }

  /** The slots written so far, in the order of writing: those of the elements from p on. */
  ghost predicate Written(written: seq<int>, s: seq<uint32>, exp: nat, p: nat) {
    && p <= |s| && |written| == |s| - p
    && forall k: nat :: k < |written| ==> written[k] == Place(s, exp, |s| - 1 - k)
  }

  lemma WrittenOnce(written: seq<int>, s: seq<uint32>, exp: nat)
    requires Written(written, s, exp, 0)
    ensures forall i, j :: 0 <= i < j < |written| ==> written[i] != written[j]
    ensures forall i :: i in written <==> 0 <= i < |s|
  {
    hide Place, Used;
    EverySlotOnce(s, exp);
    UsedAre(s, exp, 0);
    forall i | 0 <= i < |s| ensures i in written {
      assert i in Used(s, exp, 0);
      var q: nat :| q < |s| && i == Place(s, exp, q);
      assert written[|s| - 1 - q] == i;
    }
    forall k | 0 <= k < |written| ensures 0 <= written[k] < |s| { PlaceInBounds(s, exp, |s| - 1 - k); }
  }

  /** Stores element p in its slot, which no element after it has been stored in. */
  method Store(scratch: array<uint32>, slot: int, exp: nat, ghost s: seq<uint32>, ghost p: nat, a: uint32,
               ghost written0: seq<int>)
    returns (ghost written: seq<int>)
    requires p < |s| && a == s[p] && slot == Place(s, exp, p) + 1 && Placed(scratch[..], s, exp, p + 1)
    requires Written(written0, s, exp, p + 1)
    modifies scratch
    ensures 0 < slot <= scratch.Length && scratch[..] == old(scratch[..])[slot - 1 := a] && slot - 1 !in written0
    ensures Placed(scratch[..], s, exp, p) && written == written0 + [slot - 1] && Written(written, s, exp, p)
  {
    hide Place, Placed;
    PlaceOne(scratch[..], s, exp, p);
    forall k: nat | k < |written0| ensures written0[k] != slot - 1 { PlacesDiffer(s, exp, p, |s| - 1 - k); }
    PlacedSize(scratch[..], s, exp, p + 1);
    scratch[slot - 1] := a;
    written := written0 + [slot - 1];
  }

  lemma PlacedSize(t: seq<uint32>, s: seq<uint32>, exp: nat, p: nat)
    requires Placed(t, s, exp, p)
    ensures |t| == |s|
  {
  }

  lemma NothingWritten(s: seq<uint32>, exp: nat)
    ensures Written([], s, exp, |s|)
  {
  }

  /** The scatter loops, four elements per turn from the back, then one at a time. */
  method Scatter(arr: array<uint32>, scratch: array<uint32>, bucket: array<int>, exp: nat) returns (ghost written: seq<int>)
    requires arr != scratch && arr.Length == scratch.Length && Slots(bucket[..], arr[..], exp, arr.Length)
    modifies scratch, bucket
    ensures scratch[..] == Bucketed(arr[..], exp, BASE)
    ensures forall i, j :: 0 <= i < j < |written| ==> written[i] != written[j]
    ensures forall i :: i in written <==> 0 <= i < scratch.Length
  {
    hide Slots, Placed, Digit, Bucketed, Filter, Place, Written;
    ghost var s := arr[..];
    written := [];
    NothingWritten(s, exp);
    NothingPlaced(scratch[..], s, exp);
    var p := arr.Length - 1;
    while p >= 3
      invariant -1 <= p < arr.Length && Slots(bucket[..], s, exp, p + 1) && Placed(scratch[..], s, exp, p + 1)
      invariant Written(written, s, exp, p + 1)
    {
      var a0, a1, a2, a3 := arr[p], arr[p - 1], arr[p - 2], arr[p - 3];
      var s0 := Fetch(bucket, exp, s, p, a0);
      var s1 := Fetch(bucket, exp, s, p - 1, a1);
      var s2 := Fetch(bucket, exp, s, p - 2, a2);
      var s3 := Fetch(bucket, exp, s, p - 3, a3);
      written := Store(scratch, s0, exp, s, p, a0, written);
      written := Store(scratch, s1, exp, s, p - 1, a1, written);
      written := Store(scratch, s2, exp, s, p - 2, a2, written);
      written := Store(scratch, s3, exp, s, p - 3, a3, written);
      p := p - 4;
    }
    while p >= 0
      invariant -1 <= p < arr.Length && Slots(bucket[..], s, exp, p + 1) && Placed(scratch[..], s, exp, p + 1)
      invariant Written(written, s, exp, p + 1)
    {
      var slot := Fetch(bucket, exp, s, p, arr[p]);
      written := Store(scratch, slot, exp, s, p, arr[p], written);
      p := p - 1;
    }
    AllPlaced(scratch[..], s, exp, BASE);
    PassPermutes(s, exp);
    PlacedSize(scratch[..], s, exp, 0);
    WrittenOnce(written, s, exp);
    assert scratch[..][..|s|] == scratch[..];
  }

  // ----- the sort

  lemma SortedByAllBits(s0: seq<uint32>, s: seq<uint32>)
    requires StableLow(s0, s, 32)
    ensures forall i, j :: 0 <= i < j < |s| ==> s[i] <= s[j]
  {
    assert Pow2(8) == 256;
    Pow2Add8(8);
    Pow2Add8(16);
    Pow2Add8(24);
    forall x: uint32 ensures Low(x, 32) == x { Whole(x, Pow2(32)); }
    hide Low;
    forall i, j | 0 <= i < j < |s| ensures s[i] <= s[j] {
      assert Low(s[i], 32) <= Low(s[j], 32);
    }
  }

  lemma Whole(x: int, p: int)
    requires 0 <= x < p
    ensures x % p == x
  {
  }

  lemma StartsSorted(s: seq<uint32>)
    ensures StableLow(s, s, 0)
  {
  }

  /** Ends with the sorted elements in arrIn. After k passes the
      current buffer holds the input sorted stably by its low 8k bits. The copy after the loop, which
      would copy the wrong way round, is unreachable: the number of passes is even. */
  method Sort(arrIn: array<uint32>, scratchIn: array<uint32>)
    requires arrIn != scratchIn && arrIn.Length == scratchIn.Length
    modifies arrIn, scratchIn
    ensures forall i, j :: 0 <= i < j < arrIn.Length ==> arrIn[i] <= arrIn[j]
    ensures multiset(arrIn[..]) == multiset(old(arrIn[..]))
  {
    hide SortedLow, StableLow, Bucketed, Counted, Slots;
    var logExp := 0;
    var bucket := new int[BASE];
    var arr, scratch := arrIn, scratchIn;
    StartsSorted(arr[..]);
    while logExp < 32
      invariant logExp <= 32 && logExp % LOG_BASE == 0
      invariant {arr, scratch} == {arrIn, scratchIn} && arr != scratch
      invariant arr == arrIn <==> logExp % 16 == 0
      invariant StableLow(old(arrIn[..]), arr[..], logExp) && multiset(arr[..]) == multiset(old(arrIn[..]))
    {
      ghost var s := arr[..];
      Count(arr, bucket, logExp);
      PrefixSums(bucket, logExp, s);
      ghost var _ := Scatter(arr, scratch, bucket, logExp);
      PassPermutes(s, logExp);
      PassStable(old(arrIn[..]), s, logExp);
      arr, scratch := scratch, arr;
      logExp := logExp + LOG_BASE;
    }
    if arr != arrIn {
      assert false;  // the copy between the buffers
    }
    SortedByAllBits(old(arrIn[..]), arr[..]);
  }
}
