/** `sort` of the quicksort benchmark: median-of-three partitioning with unguarded scans, an
    explicit stack, and insertion sort below a threshold. Pointers are indices into `arr`. */
module QuickSort {
  import opened Arith

  const INSERTION_THRESHOLD := 10
  const NSTACK := 50

  // ----- permutations within a segment

  /** b rearranges a within [lo, hi) and agrees with it elsewhere. */
  ghost predicate Rearranged(a: seq<int>, b: seq<int>, lo: int, hi: int) {
    && 0 <= lo <= hi <= |a| == |b|
    && (forall k :: 0 <= k < |a| && !(lo <= k < hi) ==> b[k] == a[k])
    && multiset(b[lo..hi]) == multiset(a[lo..hi])
  }

  lemma RearrangedSelf(a: seq<int>, lo: int, hi: int)
    requires 0 <= lo <= hi <= |a|
    ensures Rearranged(a, a, lo, hi)
  {
  }

  lemma RearrangedTrans(a: seq<int>, b: seq<int>, c: seq<int>, lo: int, hi: int)
    requires Rearranged(a, b, lo, hi) && Rearranged(b, c, lo, hi)
    ensures Rearranged(a, c, lo, hi)
  {
  }

  lemma SwapRearranges(a: seq<int>, b: seq<int>, lo: int, hi: int, i: int, j: int)
    requires 0 <= lo <= i < hi <= |a| && lo <= j < hi && b == a[i := a[j]][j := a[i]]
    ensures Rearranged(a, b, lo, hi)
  {
    var s, t := a[lo..hi], b[lo..hi];
    assert t == s[i - lo := s[j - lo]][j - lo := s[i - lo]];
  }

  /** Every element of the rearranged segment was in the segment before. */
  lemma Source(a: seq<int>, b: seq<int>, lo: int, hi: int, k: int) returns (o: int)
    requires Rearranged(a, b, lo, hi) && lo <= k < hi
    ensures lo <= o < hi && a[o] == b[k]
  {
    assert b[lo..hi][k - lo] == b[k];
    assert b[k] in multiset(b[lo..hi]);
    assert b[k] in a[lo..hi];
    var m :| 0 <= m < hi - lo && a[lo..hi][m] == b[k];
    o := lo + m;
  }

  lemma WholeMultiset(a: seq<int>, b: seq<int>, lo: int, hi: int)
    requires Rearranged(a, b, lo, hi)
    ensures multiset(b) == multiset(a)
  {
    assert a == a[..lo] + a[lo..hi] + a[hi..] && b == b[..lo] + b[lo..hi] + b[hi..];
    assert a[..lo] == b[..lo] && a[hi..] == b[hi..];
  }

  method Swap(arr: array<int>, i: int, j: int, ghost lo: int, ghost hi: int)
    requires 0 <= lo <= i < hi <= arr.Length && lo <= j < hi
    modifies arr
    ensures arr[..] == old(arr[..])[i := old(arr[j])][j := old(arr[i])]
    ensures Rearranged(old(arr[..]), arr[..], lo, hi)
  {
    arr[i], arr[j] := arr[j], arr[i];
    SwapRearranges(old(arr[..]), arr[..], lo, hi, i, j);
  }

  // ----- insertion sort

  ghost predicate SortedIn(a: seq<int>, lo: int, hi: int) {
    forall i, j :: 0 <= lo <= i < j < hi <= |a| ==> a[i] <= a[j]
  }

  lemma SliceSplits(s: seq<int>, i: int, j: int, k: int)
    requires 0 <= i <= j <= k <= |s|
    ensures s[i..k] == s[i..j] + s[j..k]
  {
  }

  lemma MovedFront(p: seq<int>, q: seq<int>, x: int, r: seq<int>)
    ensures multiset(p + ([x] + (q + r))) == multiset(p + (q + ([x] + r)))
  {
  }

  /** Moving a value from position i down to position j past greater ones. */
  lemma InsertRearranges(a: seq<int>, b: seq<int>, lo: int, hi: int, i: int, j: int)
    requires 0 <= lo <= j <= i < hi <= |a| == |b|
    requires forall k :: 0 <= k < |a| && !(j <= k <= i) ==> b[k] == a[k]
    requires forall k :: j < k <= i ==> b[k] == a[k - 1]
    requires b[j] == a[i]
    ensures Rearranged(a, b, lo, hi)
  {
    var p, q, x, r := a[lo..j], a[j..i], a[i], a[i + 1..hi];
    assert b[lo..hi] == p + ([x] + (q + r)) by {
      SliceSplits(b, lo, j, hi);
      SliceSplits(b, j, j + 1, hi);
      SliceSplits(b, j + 1, i + 1, hi);
      assert b[lo..j] == p && b[j..j + 1] == [x] && b[j + 1..i + 1] == q && b[i + 1..hi] == r;
    }
    assert a[lo..hi] == p + (q + ([x] + r)) by {
      SliceSplits(a, lo, j, hi);
      SliceSplits(a, j, i, hi);
      SliceSplits(a, i, i + 1, hi);
      assert a[i..i + 1] == [x];
    }
    MovedFront(p, q, x, r);
  }

  /** The inner loop: moves arr[i] down to its place among the sorted elements before it. */
  method InsertNext(arr: array<int>, lo: nat, i: nat, hi: nat)
    requires lo < i < hi <= arr.Length && SortedIn(arr[..], lo, i)
    modifies arr
    ensures Rearranged(old(arr[..]), arr[..], lo, hi) && SortedIn(arr[..], lo, i + 1)
  {
    hide Rearranged, SortedIn;
    ghost var a := arr[..];
    var value := arr[i];
    var j := i;
    while value < arr[j - 1]
      invariant lo < j <= i
      invariant forall k :: 0 <= k < |a| && !(j <= k <= i) ==> arr[k] == a[k]
      invariant forall k :: j < k <= i ==> arr[k] == a[k - 1] && value < arr[k]
      decreases j
    {
      arr[j] := arr[j - 1];
      j := j - 1;
      if j == lo {
        break;
      }
    }
    arr[j] := value;
    InsertRearranges(a, arr[..], lo, hi, i, j);
    InsertSorts(a, arr[..], lo, i, j);
  }

  lemma InsertSorts(a: seq<int>, b: seq<int>, lo: int, i: int, j: int)
    requires 0 <= lo <= j <= i < |a| == |b| && SortedIn(a, lo, i)
    requires forall k :: 0 <= k < |a| && !(j <= k <= i) ==> b[k] == a[k]
    requires forall k :: j < k <= i ==> b[k] == a[k - 1] && b[j] < b[k]
    requires j > lo ==> a[j - 1] <= b[j]
    ensures SortedIn(b, lo, i + 1)
  {
    forall p, q | lo <= p < q < i + 1 ensures b[p] <= b[q] {
      var p' := if p > j then p - 1 else p;
      var q' := if q > j then q - 1 else q;
      if p != j && q != j {
        assert b[p] == a[p'] && b[q] == a[q'];
      } else if q == j {
        assert b[p] == a[p] && a[p] <= a[j - 1];
      }
    }
  }

  /** Insertion sort of the n elements from lo on. */
  method InsertionSort(arr: array<int>, lo: nat, n: nat)
    requires lo + n <= arr.Length
    modifies arr
    ensures Rearranged(old(arr[..]), arr[..], lo, lo + n)
    ensures SortedIn(arr[..], lo, lo + n)
  {
    hide Rearranged;
    ghost var a := arr[..];
    RearrangedSelf(a, lo, lo + n);
    var i := lo + 1;
    while i < lo + n
      invariant lo + 1 <= i && (n > 0 ==> i <= lo + n)
      invariant Rearranged(a, arr[..], lo, lo + n)
      invariant n > 0 ==> SortedIn(arr[..], lo, i)
    {
      ghost var b := arr[..];
      InsertNext(arr, lo, i, lo + n);
      RearrangedTrans(a, b, arr[..], lo, lo + n);
      i := i + 1;
    }
  }

  // ----- partitioning

  /** Everything in [lo, hi) is at most v, or at least v. */
  ghost predicate AtMost(a: seq<int>, lo: int, hi: int, v: int) {
    forall k :: 0 <= lo <= k < hi <= |a| ==> a[k] <= v
  }

  ghost predicate AtLeast(a: seq<int>, lo: int, hi: int, v: int) {
    forall k :: 0 <= lo <= k < hi <= |a| ==> a[k] >= v
  }

  method SwapIfGreater(arr: array<int>, i: int, j: int, ghost lo: int, ghost hi: int)
    requires 0 <= lo <= i < hi <= arr.Length && lo <= j < hi
    modifies arr
    ensures arr[i] == old(if arr[i] > arr[j] then arr[j] else arr[i])
    ensures arr[j] == old(if arr[i] > arr[j] then arr[i] else arr[j])
    ensures forall k :: 0 <= k < arr.Length && k != i && k != j ==> arr[k] == old(arr[k])
    ensures Rearranged(old(arr[..]), arr[..], lo, hi)
  {
    RearrangedSelf(arr[..], lo, hi);
    if arr[i] > arr[j] {
      Swap(arr, i, j, lo, hi);
    }
  }

  /** The three conditional swaps sort the two ends and l. */
  method SortThree(arr: array<int>, l: int, ir: int)
    requires 1 <= l && l + INSERTION_THRESHOLD <= ir <= arr.Length
    modifies arr
    ensures Rearranged(old(arr[..]), arr[..], l - 1, ir)
    ensures arr[l - 1] <= arr[l] <= arr[ir - 1]
    ensures multiset{arr[l - 1], arr[l], arr[ir - 1]} == old(multiset{arr[l - 1], arr[l], arr[ir - 1]})
  {
    hide Rearranged;
    ghost var b := arr[..];
    SwapIfGreater(arr, l - 1, ir - 1, l - 1, ir);
    ghost var c := arr[..];
    SwapIfGreater(arr, l, ir - 1, l - 1, ir);
    ghost var d := arr[..];
    SwapIfGreater(arr, l - 1, l, l - 1, ir);
    RearrangedTrans(b, c, d, l - 1, ir);
    RearrangedTrans(b, d, arr[..], l - 1, ir);
  }

  /** Median of three: the first, middle and last element go in order to l - 1, l and ir - 1, the
      two ends being the sentinels of the scans. */
  method MedianOfThree(arr: array<int>, l: int, ir: int)
    requires 1 <= l && l + INSERTION_THRESHOLD <= ir <= arr.Length
    modifies arr
    ensures Rearranged(old(arr[..]), arr[..], l - 1, ir)
    ensures arr[l - 1] <= arr[l] <= arr[ir - 1]
    ensures multiset{arr[l - 1], arr[l], arr[ir - 1]} == old(multiset{arr[l - 1], arr[(l + ir) / 2 - 1], arr[ir - 1]})
  {
    hide Rearranged;
    ghost var a := arr[..];
    Swap(arr, (l + ir) / 2 - 1, l, l - 1, ir);
    ghost var b := arr[..];
    SortThree(arr, l, ir);
    RearrangedTrans(a, b, arr[..], l - 1, ir);
  }

  /** At the head of the partitioning loop: i is next to be read going up, j - 2 going down. */
  ghost predicate AtScan(a: seq<int>, l: int, ir: int, i: int, j: int, v: int) {
    && 1 <= l < i <= j <= ir <= |a| && i < ir && l + 2 <= j
    && a[l] == v && AtMost(a, l - 1, i, v) && AtLeast(a, j - 1, ir, v)
  }

  /** The scan up past elements below the pivot: it stops at the sentinel at j - 1 at the latest. */
  method ScanUp(arr: array<int>, ghost l: int, ghost ir: int, i0: int, ghost j: int, v: int) returns (i: int)
    requires AtScan(arr[..], l, ir, i0, j, v)
    ensures i0 < i <= j + 1 && i <= ir
    ensures arr[i - 1] >= v && AtMost(arr[..], l - 1, i - 1, v)
  {
    i := i0;
    while arr[i] < v
      invariant i0 <= i <= j && i < ir && AtMost(arr[..], l - 1, i, v)
      decreases ir - i
    {
      i := i + 1;
    }
    i := i + 1;
  }

  /** The scan down past elements above the pivot: it stops at the sentinel at l at the latest. */
  method ScanDown(arr: array<int>, ghost l: int, ghost ir: int, ghost i: int, j0: int, v: int) returns (j: int)
    requires 1 <= l && l + 2 <= i <= j0 + 1 && j0 <= ir <= arr.Length && l + 2 <= j0
    requires arr[l] == v && AtMost(arr[..], l - 1, i - 1, v) && AtLeast(arr[..], j0 - 1, ir, v)
    ensures i - 2 <= j < j0 && l < j
    ensures arr[j - 1] <= v && AtLeast(arr[..], j, ir, v)
  {
    j := j0;
    while arr[j - 2] > v
      invariant i - 1 <= j <= j0 && l + 2 <= j && AtLeast(arr[..], j - 1, ir, v)
      decreases j
    {
      j := j - 1;
    }
    j := j - 1;
  }

  /** After both scans: arr[i - 1] and arr[j - 1] belong on the other side, or the scans crossed. */
  ghost predicate Scanned(a: seq<int>, l: int, ir: int, i: int, j: int, v: int) {
    && 1 <= l && l + 2 <= i <= ir <= |a| && l < j < ir && i <= j + 2
    && a[l] == v && a[i - 1] >= v && a[j - 1] <= v
    && AtMost(a, l - 1, i - 1, v) && AtLeast(a, j, ir, v)
  }

  method ScanBoth(arr: array<int>, ghost l: int, ghost ir: int, i0: int, j0: int, v: int) returns (i: int, j: int)
    requires AtScan(arr[..], l, ir, i0, j0, v)
    ensures Scanned(arr[..], l, ir, i, j, v) && j < j0
  {
    hide AtMost, AtLeast;
    i := ScanUp(arr, l, ir, i0, j0, v);
    j := ScanDown(arr, l, ir, i, j0, v);
  }

  /** Scans and exchanges until the scans have crossed. */
  method ScanAndExchange(arr: array<int>, l: int, ir: int, v: int) returns (i: int, j: int)
    requires 1 <= l < ir <= arr.Length && AtScan(arr[..], l, ir, l + 1, ir, v)
    modifies arr
    ensures Rearranged(old(arr[..]), arr[..], l - 1, ir)
    ensures Scanned(arr[..], l, ir, i, j, v) && j < i
  {
    hide Rearranged, AtMost, AtLeast, AtScan;
    ghost var a := arr[..];
    RearrangedSelf(a, l - 1, ir);
    i, j := l + 1, ir;
    while true
      invariant AtScan(arr[..], l, ir, i, j, v)
      invariant Rearranged(a, arr[..], l - 1, ir) && j <= ir
      decreases j - l
    {
      i, j := ScanBoth(arr, l, ir, i, j, v);
      if j < i {
        return;
      }
      ghost var b := arr[..];
      SwapKeepsScan(b, l, ir, i, j, v);
      Swap(arr, i - 1, j - 1, l - 1, ir);
      RearrangedTrans(a, b, arr[..], l - 1, ir);
    }
  }

  /** Puts the pivot between the two parts. */
  method InsertPivot(arr: array<int>, l: int, ghost ir: int, ghost i: int, j: int, v: int)
    requires Scanned(arr[..], l, ir, i, j, v) && j < i
    modifies arr
    ensures Rearranged(old(arr[..]), arr[..], l - 1, ir) && arr[j - 1] == v
    ensures AtMost(arr[..], l - 1, i - 1, v) && AtLeast(arr[..], j - 1, ir, v)
  {
    hide Rearranged, AtMost, AtLeast;
    ghost var b := arr[..];
    arr[l] := arr[j - 1];
    arr[j - 1] := v;
    assert arr[..] == b[l := b[j - 1]][j - 1 := b[l]];
    SwapRearranges(b, arr[..], l - 1, ir, l, j - 1);
    PivotInPlace(b, l, ir, i, j, v);
  }

  /** Partitions [l - 1, ir): afterwards [l - 1, j - 1) is at most the pivot at j - 1, the gap up
      to i - 1 equals it, and [i - 1, ir) is at least it. */
  method Partition(arr: array<int>, l: int, ir: int) returns (i: int, j: int)
    requires 1 <= l && l + INSERTION_THRESHOLD <= ir <= arr.Length
    modifies arr
    ensures Rearranged(old(arr[..]), arr[..], l - 1, ir)
    ensures l <= j - 1 < i - 1 <= ir - 1
    ensures AtMost(arr[..], l - 1, i - 1, arr[j - 1]) && AtLeast(arr[..], j - 1, ir, arr[j - 1])
  {
    hide Rearranged, AtMost, AtLeast, AtScan;
    ghost var a := arr[..];
    MedianOfThree(arr, l, ir);
    ghost var b := arr[..];
    var v := arr[l];
    ScanStart(arr[..], l, ir);
    i, j := ScanAndExchange(arr, l, ir, v);
    ghost var c := arr[..];
    assert l < j < i <= ir;
    InsertPivot(arr, l, ir, i, j, v);
    RearrangedTrans(a, b, c, l - 1, ir);
    RearrangedTrans(a, c, arr[..], l - 1, ir);
  }

  lemma ScanStart(a: seq<int>, l: int, ir: int)
    requires 1 <= l && l + INSERTION_THRESHOLD <= ir <= |a| && a[l - 1] <= a[l] <= a[ir - 1]
    ensures AtScan(a, l, ir, l + 1, ir, a[l])
  {
  }

  lemma SwapKeepsScan(b: seq<int>, l: int, ir: int, i: int, j: int, v: int)
    requires Scanned(b, l, ir, i, j, v) && i <= j
    ensures AtScan(b[i - 1 := b[j - 1]][j - 1 := b[i - 1]], l, ir, i, j, v)
  {
  }

  lemma PivotInPlace(b: seq<int>, l: int, ir: int, i: int, j: int, v: int)
    requires Scanned(b, l, ir, i, j, v) && j < i
    ensures var c := b[l := b[j - 1]][j - 1 := v];
      AtMost(c, l - 1, i - 1, v) && AtLeast(c, j - 1, ir, v)
  {
  }

  // ----- the pending segments

  datatype Seg = Seg(lo: int, hi: int) {
    function Size(): int { hi - lo }

    predicate Has(i: int) { lo <= i < hi }
  }

  /** The segments lie within the array and do not overlap. */
  ghost predicate Layout(segs: seq<Seg>, n: int) {
    && (forall k :: 0 <= k < |segs| ==> 0 <= segs[k].lo <= segs[k].hi <= n)
    && forall p, q :: 0 <= p < q < |segs| ==> segs[p].hi <= segs[q].lo || segs[q].hi <= segs[p].lo
  }

  ghost predicate Together(segs: seq<Seg>, i: int, j: int) {
    exists k :: 0 <= k < |segs| && segs[k].Has(i) && segs[k].Has(j)
  }

  /** Only elements of one pending segment can still be out of order. */
  ghost predicate Ordered(a: seq<int>, segs: seq<Seg>) {
    forall i, j :: 0 <= i < j < |a| && !Together(segs, i, j) ==> a[i] <= a[j]
  }

  lemma TogetherTop(segs: seq<Seg>, cur: Seg, n: int, i: int, j: int)
    requires Layout(segs + [cur], n) && Together(segs + [cur], i, j) && (cur.Has(i) || cur.Has(j))
    ensures cur.Has(i) && cur.Has(j)
  {
    var all := segs + [cur];
    var k :| 0 <= k < |all| && all[k].Has(i) && all[k].Has(j);
    assert all[|segs|] == cur;
  }

  lemma NotTogetherTop(segs: seq<Seg>, cur: Seg, i: int, j: int)
    requires Together(segs + [cur], i, j) && !cur.Has(i)
    ensures Together(segs, i, j)
  {
    var all := segs + [cur];
    var k :| 0 <= k < |all| && all[k].Has(i) && all[k].Has(j);
    assert segs[k] == all[k];
  }

  lemma TogetherBelow(segs: seq<Seg>, more: seq<Seg>, i: int, j: int)
    ensures Together(segs, i, j) ==> Together(segs + more, i, j)
  {
    if Together(segs, i, j) {
      var k :| 0 <= k < |segs| && segs[k].Has(i) && segs[k].Has(j);
      assert (segs + more)[k] == segs[k];
    }
  }

  /** Rearranging the current segment keeps the order between it and everything else. */
  lemma AcrossTop(a: seq<int>, b: seq<int>, segs: seq<Seg>, cur: Seg, i: int, j: int)
    requires Layout(segs + [cur], |a|) && Ordered(a, segs + [cur]) && Rearranged(a, b, cur.lo, cur.hi)
    requires 0 <= i < j < |a| && !(cur.Has(i) && cur.Has(j)) && !Together(segs, i, j)
    ensures b[i] <= b[j]
  {
    var i', j' := i, j;
    if cur.Has(i) { i' := Source(a, b, cur.lo, cur.hi, i); }
    if cur.Has(j) { j' := Source(a, b, cur.lo, cur.hi, j); }
    if Together(segs + [cur], i', j') {
      if cur.Has(i) || cur.Has(j) {
        TogetherTop(segs, cur, |a|, i', j');
      } else {
        NotTogetherTop(segs, cur, i', j');
      }
      assert false;
    }
  }

  /** Sorting the current segment settles it. */
  lemma SortTop(a: seq<int>, b: seq<int>, segs: seq<Seg>, cur: Seg)
    requires Layout(segs + [cur], |a|) && Ordered(a, segs + [cur])
    requires Rearranged(a, b, cur.lo, cur.hi) && SortedIn(b, cur.lo, cur.hi)
    ensures Ordered(b, segs)
  {
    forall i, j | 0 <= i < j < |b| && !Together(segs, i, j) ensures b[i] <= b[j] {
      if !(cur.Has(i) && cur.Has(j)) { AcrossTop(a, b, segs, cur, i, j); }
    }
  }

  /** Partitioning it leaves two smaller segments, in either order. */
  lemma SplitTop(a: seq<int>, b: seq<int>, segs: seq<Seg>, cur: Seg, mid: int, high: int, x: Seg, y: Seg)
    requires Layout(segs + [cur], |a|) && Ordered(a, segs + [cur]) && Rearranged(a, b, cur.lo, cur.hi)
    requires cur.lo <= mid < high <= cur.hi
    requires AtMost(b, cur.lo, high, b[mid]) && AtLeast(b, mid, cur.hi, b[mid])
    requires {x, y} == {Seg(cur.lo, mid), Seg(high, cur.hi)}
    ensures Ordered(b, segs + [x] + [y])
  {
    var all := segs + [x] + [y];
    forall i, j | 0 <= i < j < |b| && !Together(all, i, j) ensures b[i] <= b[j] {
      assert all[|segs|] == x && all[|segs| + 1] == y;
      assert all == segs + ([x] + [y]);
      TogetherBelow(segs, [x] + [y], i, j);
      if !(cur.Has(i) && cur.Has(j)) {
        AcrossTop(a, b, segs, cur, i, j);
      } else {
        assert !(x.Has(i) && x.Has(j)) && !(y.Has(i) && y.Has(j));
      }
    }
  }

  lemma SplitLayout(segs: seq<Seg>, cur: Seg, n: int, mid: int, high: int, x: Seg, y: Seg)
    requires Layout(segs + [cur], n) && cur.lo <= mid < high <= cur.hi
    requires {x, y} == {Seg(cur.lo, mid), Seg(high, cur.hi)} && x != y
    ensures Layout(segs + [x] + [y], n)
  {
    var all := segs + [cur];
    assert all[|segs|] == cur;
    assert forall k :: 0 <= k < |segs| ==> all[k] == segs[k];
  }

  // ----- the depth of the stack

  /** The segment at depth k has at most n / 2^k elements. */
  ghost predicate Halving(segs: seq<Seg>, n: int) {
    forall k :: 0 <= k < |segs| ==> segs[k].Size() * Pow2(k) <= n
  }

  /** A segment large enough to be partitioned lies at depth 23 or less. */
  lemma DepthBound(size: int, d: nat, n: int, limit: int)
    requires size > INSERTION_THRESHOLD && size * Pow2(d) <= n < 11 * limit && limit == Pow2(24)
    ensures d < 24
  {
    if d >= 24 {
      Pow2Mono(24, d);
      MulMono(11, size, Pow2(d));
      assert false;
    }
  }

  lemma HalfFits(x: int, y: int, whole: int, d: nat)
    requires 0 <= y <= x && x + y <= whole
    ensures x * Pow2(d) <= whole * Pow2(d) && y * Pow2(d + 1) <= whole * Pow2(d)
  {
    var p := Pow2(d);
    assert Pow2(d + 1) == 2 * p;
    hide Pow2;
    MulMono(x, whole, p);
    MulMono(2 * y, whole, p);
  }

  lemma HalvingPush(segs: seq<Seg>, cur: Seg, x: Seg, y: Seg, n: int)
    requires Halving(segs + [cur], n)
    requires 0 <= y.Size() <= x.Size() && x.Size() + y.Size() <= cur.Size()
    ensures Halving(segs + [x] + [y], n)
  {
    var all, d := segs + [x] + [y], |segs|;
    var before := segs + [cur];
    assert before[d] == cur && cur.Size() * Pow2(d) <= n;
    HalfFits(x.Size(), y.Size(), cur.Size(), d);
    hide Pow2;
    forall k | 0 <= k < |all| ensures all[k].Size() * Pow2(k) <= n {
      if k < d { assert before[k] == segs[k] == all[k]; }
    }
  }

  ghost function Work(segs: seq<Seg>): int {
    if segs == [] then 0 else Work(segs[..|segs| - 1]) + segs[|segs| - 1].Size()
  }

  lemma WorkPush(segs: seq<Seg>, x: Seg)
    ensures Work(segs + [x]) == Work(segs) + x.Size()
  {
    assert (segs + [x])[..|segs|] == segs;
  }

  lemma {:induction false} WorkNonNegative(segs: seq<Seg>, n: int)
    requires Layout(segs, n)
    ensures Work(segs) >= 0
  {
    if segs != [] { WorkNonNegative(segs[..|segs| - 1], n); }
  }

  /** The pushed pointers: entry k of the stack occupies words 2k + 1 and 2k + 2. */
  ghost predicate OnStack(stack: seq<int>, segs: seq<Seg>) {
    && 2 * |segs| < |stack|
    && forall k :: 0 <= k < |segs| ==> stack[2 * k + 1] == segs[k].lo + 1 && stack[2 * k + 2] == segs[k].hi
  }

  // ----- the sort

  ghost predicate Pending(a: seq<int>, segs: seq<Seg>, cur: Seg, n: int) {
    && |a| == n
    && Layout(segs + [cur], n) && Ordered(a, segs + [cur]) && Halving(segs + [cur], n)
  }

  lemma PopPending(a: seq<int>, b: seq<int>, segs: seq<Seg>, cur: Seg, n: int)
    requires Pending(a, segs, cur, n) && Rearranged(a, b, cur.lo, cur.hi) && SortedIn(b, cur.lo, cur.hi)
    ensures segs == [] ==> SortedIn(b, 0, n)
    ensures segs != [] ==> Pending(b, segs[..|segs| - 1], segs[|segs| - 1], n)
    ensures cur.Size() >= 0
  {
    SortTop(a, b, segs, cur);
    var all := segs + [cur];
    assert all[|segs|] == cur;
    assert forall k :: 0 <= k < |segs| ==> all[k] == segs[k];
    if segs != [] {
      assert segs == segs[..|segs| - 1] + [segs[|segs| - 1]];
    }
  }

  lemma PushPending(a: seq<int>, b: seq<int>, segs: seq<Seg>, cur: Seg, n: int, mid: int, high: int, x: Seg, y: Seg)
    requires Pending(a, segs, cur, n) && Rearranged(a, b, cur.lo, cur.hi)
    requires cur.lo <= mid < high <= cur.hi
    requires AtMost(b, cur.lo, high, b[mid]) && AtLeast(b, mid, cur.hi, b[mid])
    requires {x, y} == {Seg(cur.lo, mid), Seg(high, cur.hi)} && y.Size() <= x.Size()
    ensures Pending(b, segs + [x], y, n)
    ensures Work(segs + [x] + [y]) < Work(segs + [cur])
  {
    hide Ordered, AtMost, AtLeast, Rearranged;
    assert |b| == |a| by { RearrangedLength(a, b, cur.lo, cur.hi); }
    SplitTop(a, b, segs, cur, mid, high, x, y);
    SplitLayout(segs, cur, n, mid, high, x, y);
    HalvingPush(segs, cur, x, y, n);
    WorkPush(segs, cur);
    WorkPush(segs, x);
    WorkPush(segs + [x], y);
  }

  lemma RearrangedLength(a: seq<int>, b: seq<int>, lo: int, hi: int)
    requires Rearranged(a, b, lo, hi)
    ensures |b| == |a| && multiset(b) == multiset(a)
  {
    WholeMultiset(a, b, lo, hi);
  }

  lemma StartPending(a: seq<int>)
    ensures Pending(a, [], Seg(0, |a|), |a|)
  {
    var segs := [] + [Seg(0, |a|)];
    forall i, j | 0 <= i < j < |a| ensures Together(segs, i, j) {
      assert segs[0].Has(i) && segs[0].Has(j);
    }
  }

  lemma TopDepth(a: seq<int>, segs: seq<Seg>, cur: Seg, n: int)
    requires Pending(a, segs, cur, n) && cur.Size() > INSERTION_THRESHOLD && n < 11 * Pow2(24)
    ensures |segs| < 24
  {
    var all := segs + [cur];
    assert all[|segs|] == cur;
    DepthBound(cur.Size(), |segs|, n, Pow2(24));
  }

  /** Pushes the two ends of a segment. */
  method Push(stack: array<int>, stackp0: int, l: int, ir: int, ghost segs: seq<Seg>) returns (stackp: int)
    requires OnStack(stack[..], segs) && stackp0 == 2 * |segs| && |segs| < 24 && stack.Length == NSTACK
    modifies stack
    ensures OnStack(stack[..], segs + [Seg(l - 1, ir)]) && stackp == stackp0 + 2
  {
    stackp := stackp0 + 2;
    stack[stackp] := ir;
    stack[stackp - 1] := l;
  }

  /** Pops the two ends of the last segment pushed. */
  method Pop(stack: array<int>, stackp0: int, ghost segs: seq<Seg>) returns (l: int, ir: int, stackp: int)
    requires OnStack(stack[..], segs) && stackp0 == 2 * |segs| && segs != []
    ensures segs[|segs| - 1] == Seg(l - 1, ir) && stackp == stackp0 - 2
    ensures OnStack(stack[..], segs[..|segs| - 1])
  {
    ir := stack[stackp0];
    l := stack[stackp0 - 1];
    stackp := stackp0 - 2;
  }

  /** Sorts any array of fewer than 11 * 2^24 elements. The stack index never
      passes 48, so the accesses to the 50-word stack stay in bounds. */
  method Sort(arr: array<int>)
    requires arr.Length < 11 * Pow2(24)
    modifies arr
    ensures SortedIn(arr[..], 0, arr.Length)
    ensures multiset(arr[..]) == multiset(old(arr[..]))
  {
    hide Pending, Rearranged, SortedIn, AtMost, AtLeast, Pow2, OnStack, Work;
    var n := arr.Length;
    var ir, l := n, 1;
    var stack := new int[NSTACK];
    var stackp := 0;
    ghost var segs: seq<Seg> := [];
    StartPending(arr[..]);
    EmptyStack(stack[..]);
    while true
      invariant Pending(arr[..], segs, Seg(l - 1, ir), n)
      invariant multiset(arr[..]) == multiset(old(arr[..]))
      invariant stackp == 2 * |segs| <= 48 && OnStack(stack[..], segs)
      decreases Work(segs + [Seg(l - 1, ir)]), |segs|
    {
      ghost var a, cur := arr[..], Seg(l - 1, ir);
      PendingBounds(a, segs, cur, n);
      if ir - l < INSERTION_THRESHOLD {
        InsertionSort(arr, l - 1, ir - l + 1);
        RearrangedLength(a, arr[..], l - 1, ir);
        PopPending(a, arr[..], segs, cur, n);
        if stackp == 0 {
          break;
        }
        l, ir, stackp := Pop(stack, stackp, segs);
        WorkPush(segs, cur);
        assert segs == segs[..|segs| - 1] + [segs[|segs| - 1]];
        segs := segs[..|segs| - 1];
      } else {
        var i, j := Partition(arr, l, ir);
        RearrangedLength(a, arr[..], l - 1, ir);
        TopDepth(a, segs, cur, n);
        ghost var left, right := Seg(l - 1, j - 1), Seg(i - 1, ir);
        if ir - i + 1 >= j - l {
          PushPending(a, arr[..], segs, cur, n, j - 1, i - 1, right, left);
          stackp := Push(stack, stackp, i, ir, segs);
          ir := j - 1;
          segs := segs + [right];
        } else {
          PushPending(a, arr[..], segs, cur, n, j - 1, i - 1, left, right);
          stackp := Push(stack, stackp, l, j - 1, segs);
          l := i;
          segs := segs + [left];
        }
      }
    }
  }

  lemma EmptyStack(stack: seq<int>)
    requires |stack| == NSTACK
    ensures OnStack(stack, [])
  {
  }

  lemma PendingBounds(a: seq<int>, segs: seq<Seg>, cur: Seg, n: int)
    requires Pending(a, segs, cur, n)
    ensures 0 <= cur.lo <= cur.hi <= n && Work(segs) >= 0 && Work(segs + [cur]) >= 0
  {
    var all := segs + [cur];
    assert all[|segs|] == cur;
    WorkNonNegative(all, n);
    assert forall k :: 0 <= k < |segs| ==> all[k] == segs[k];
    WorkNonNegative(segs, n);
  }
}
