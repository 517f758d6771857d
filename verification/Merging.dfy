/** Sequences of elements under a partial key: the order theory behind the bottom-up merge
    sort of CoreMark. A key is known only once its element has been compared; `rank` is the
    element's position before sorting. */
module Merging {

  /** The known keys. */
  type Keys<!T(==)> = map<T, int>

  ghost predicate Distinct<T>(s: seq<T>) {
    forall i, j :: 0 <= i < j < |s| ==> s[i] != s[j]
  }

  /** a comes before b in a stable sort: smaller key, or equal keys and earlier before. */
  ghost predicate Before<T>(key: Keys<T>, rank: map<T, int>, a: T, b: T) {
    && a in key && b in key && a in rank && b in rank
    && (key[a] < key[b] || (key[a] == key[b] && rank[a] < rank[b]))
  }

  /** In particular, every element of a sorted sequence of two or more has a known key. */
  ghost predicate Sorted<T>(key: Keys<T>, rank: map<T, int>, s: seq<T>) {
    forall i, j :: 0 <= i < j < |s| ==> Before(key, rank, s[i], s[j])
  }

  /** Every element of a stood before every element of b. */
  ghost predicate RankBelow<T>(rank: map<T, int>, a: seq<T>, b: seq<T>) {
    && (forall x :: x in a ==> x in rank)
    && (forall y :: y in b ==> y in rank)
    && forall x, y :: x in a && y in b ==> rank[x] < rank[y]
  }

  ghost predicate Extends<T>(key: Keys<T>, key': Keys<T>) {
    forall x :: x in key ==> x in key' && key'[x] == key[x]
  }

  function Min(a: nat, b: nat): nat { if a < b then a else b }

  /** s is cut into sorted runs of k elements (the last may be shorter), each of which stood
      wholly before the next. */
  ghost predicate Runs<T>(key: Keys<T>, rank: map<T, int>, s: seq<T>, k: nat)
    requires k > 0
    decreases |s|
  {
    && Sorted(key, rank, s[..Min(k, |s|)])
    && (|s| > k ==> RankBelow(rank, s[..k], s[k..]) && Runs(key, rank, s[k..], k))
  }

  /** The length of s is a multiple of k. */
  ghost predicate Whole<T>(s: seq<T>, k: nat)
    requires k > 0
    decreases |s|
  {
    s == [] || (|s| >= k && Whole(s[k..], k))
  }

  lemma SortedUnderMoreKeys<T>(key: Keys<T>, key': Keys<T>, rank: map<T, int>, s: seq<T>)
    requires Sorted(key, rank, s) && Extends(key, key')
    ensures Sorted(key', rank, s)
  {
  }

  lemma {:induction false} RunsUnderMoreKeys<T>(key: Keys<T>, key': Keys<T>, rank: map<T, int>, s: seq<T>, k: nat)
    requires k > 0 && Runs(key, rank, s, k) && Extends(key, key')
    ensures Runs(key', rank, s, k)
    decreases |s|
  {
    SortedUnderMoreKeys(key, key', rank, s[..Min(k, |s|)]);
    if |s| > k {
      RunsUnderMoreKeys(key, key', rank, s[k..], k);
    }
  }

  lemma {:induction false} AppendRun<T>(key: Keys<T>, rank: map<T, int>, s: seq<T>, m: seq<T>, k: nat)
    requires k > 0 && Runs(key, rank, s, k) && Whole(s, k)
    requires 0 < |m| <= k && Sorted(key, rank, m) && RankBelow(rank, s, m)
    ensures Runs(key, rank, s + m, k)
    ensures |m| == k ==> Whole(s + m, k)
    decreases |s|
  {
    if s == [] {
      assert s + m == m && m[..Min(k, |m|)] == m;
    } else {
      var rest := s[k..];
      assert (s + m)[..k] == s[..k] && (s + m)[k..] == rest + m;
      assert RankBelow(rank, rest, m);
      if |s| == k {
        assert rest == [];
      }
      RunsTail(key, rank, s, k);
      AppendRun(key, rank, rest, m, k);
      assert RankBelow(rank, s[..k], rest + m);
    }
  }

  lemma RunsTail<T>(key: Keys<T>, rank: map<T, int>, s: seq<T>, k: nat)
    requires k > 0 && Runs(key, rank, s, k) && |s| >= k
    ensures Runs(key, rank, s[k..], k)
    ensures RankBelow(rank, s[..k], s[k..]) || |s| == k
  {
  }

  /** Elements that stood in their present order form runs of one. */
  lemma {:induction false} SingletonRuns<T>(key: Keys<T>, rank: map<T, int>, s: seq<T>)
    requires forall x :: x in s ==> x in rank
    requires forall i, j :: 0 <= i < j < |s| ==> rank[s[i]] < rank[s[j]]
    ensures Runs(key, rank, s, 1)
    decreases |s|
  {
    if |s| > 1 {
      SingletonRuns(key, rank, s[1..]);
    }
  }

  // ----- one merge

  /** m is what has been output, p and q what is left of the two runs. */
  ghost predicate Merge<T>(key: Keys<T>, rank: map<T, int>, m: seq<T>, p: seq<T>, q: seq<T>) {
    Sorted(key, rank, m + p) && Sorted(key, rank, m + q) && RankBelow(rank, p, q)
  }

  /** The first two runs are ready to be merged. */
  lemma MergeStart<T>(key: Keys<T>, rank: map<T, int>, s: seq<T>, k: nat)
    requires k > 0 && Runs(key, rank, s, k) && forall x :: x in s ==> x in rank
    ensures var n := Min(k, |s|); var r := s[n..];
      Merge(key, rank, [], s[..n], r[..Min(k, |r|)])
  {
    var n := Min(k, |s|);
    var p, r := s[..n], s[n..];
    var q := r[..Min(k, |r|)];
    assert [] + p == p && [] + q == q;
    if |s| > k {
      forall x, y | x in p && y in q ensures rank[x] < rank[y] { assert y in r; }
    } else {
      assert q == [];
    }
  }

  /** Cutting a sequence of runs at one of the first two boundaries, or at its end. */
  lemma RunsCut<T>(key: Keys<T>, rank: map<T, int>, s: seq<T>, k: nat, n: nat)
    requires k > 0 && Runs(key, rank, s, k) && n <= |s| && forall x :: x in s ==> x in rank
    requires n == |s| || n == k || n == 2 * k
    ensures RankBelow(rank, s[..n], s[n..])
    ensures Runs(key, rank, s[n..], k)
  {
    if n == 2 * k && n < |s| {
      var tail := s[k..];
      assert tail[k..] == s[n..];
      forall x, y | x in s[..n] && y in s[n..] ensures rank[x] < rank[y] {
        if x !in s[..k] { assert x in tail[..k]; }
      }
    }
  }

  lemma TakeFromP<T>(key: Keys<T>, rank: map<T, int>, m: seq<T>, p: seq<T>, q: seq<T>)
    requires Merge(key, rank, m, p, q) && p != []
    requires q != [] ==> p[0] in key && q[0] in key && key[p[0]] <= key[q[0]]
    ensures Merge(key, rank, m + [p[0]], p[1..], q)
    ensures m + [p[0]] + p[1..] == m + p
  {
    assert m + [p[0]] + p[1..] == m + p;
    var s := m + [p[0]] + q;
    forall i, j | 0 <= i < j < |s| ensures Before(key, rank, s[i], s[j]) {
      if j < |m| {
        assert (m + p)[i] == s[i] && (m + p)[j] == s[j];
      } else if j == |m| {
        assert (m + p)[i] == s[i] && (m + p)[j] == s[j];
      } else if i == |m| {
        assert (m + q)[|m|] == q[0] && (m + q)[j - 1] == s[j];
        assert s[i] == p[0] && s[j] in q;
      } else {
        assert (m + q)[j - 1] == s[j];
        var i' := if i < |m| then i else i - 1;
        assert (m + q)[i'] == s[i];
      }
    }
  }

  lemma TakeFromQ<T>(key: Keys<T>, rank: map<T, int>, m: seq<T>, p: seq<T>, q: seq<T>)
    requires Merge(key, rank, m, p, q) && q != []
    requires p != [] ==> p[0] in key && q[0] in key && key[q[0]] < key[p[0]]
    ensures Merge(key, rank, m + [q[0]], p, q[1..])
    ensures m + [q[0]] + q[1..] == m + q
  {
    assert m + [q[0]] + q[1..] == m + q;
    var s := m + [q[0]] + p;
    forall i, j | 0 <= i < j < |s| ensures Before(key, rank, s[i], s[j]) {
      if j <= |m| {
        assert (m + q)[i] == s[i] && (m + q)[j] == s[j];
      } else if i == |m| {
        assert (m + p)[|m|] == p[0] && (m + p)[j - 1] == s[j];
        assert s[i] == q[0] && s[j] in p;
      } else {
        assert (m + p)[j - 1] == s[j];
        var i' := if i < |m| then i else i - 1;
        assert (m + p)[i'] == s[i];
      }
    }
  }

  lemma MergeUnderMoreKeys<T>(key: Keys<T>, key': Keys<T>, rank: map<T, int>, m: seq<T>, p: seq<T>, q: seq<T>)
    requires Merge(key, rank, m, p, q) && Extends(key, key')
    ensures Merge(key', rank, m, p, q)
  {
    SortedUnderMoreKeys(key, key', rank, m + p);
    SortedUnderMoreKeys(key, key', rank, m + q);
  }

  // ----- a stable sort is unique

  ghost predicate SameElements<T>(a: seq<T>, b: seq<T>) {
    |a| == |b| && Distinct(a) && Distinct(b) && (forall x :: x in a ==> x in b) && (forall x :: x in b ==> x in a)
  }

  lemma FirstIsLeast<T>(key: Keys<T>, rank: map<T, int>, s: seq<T>, x: T)
    requires Sorted(key, rank, s) && x in s
    ensures x == s[0] || Before(key, rank, s[0], x)
  {
  }

  lemma {:induction false} SortUnique<T>(key: Keys<T>, rank: map<T, int>, a: seq<T>, b: seq<T>)
    requires SameElements(a, b) && Sorted(key, rank, a) && Sorted(key, rank, b)
    ensures a == b
    decreases |a|
  {
    if a != [] {
      FirstIsLeast(key, rank, a, b[0]);
      FirstIsLeast(key, rank, b, a[0]);
      forall x | x in a[1..] ensures x in b[1..] { assert x in a && x != a[0]; }
      forall x | x in b[1..] ensures x in a[1..] { assert x in b && x != b[0]; }
      SortUnique(key, rank, a[1..], b[1..]);
    }
  }
}
