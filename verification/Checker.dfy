/** `verify` and `verifyDouble` of `benchmarks/common/util.h`, which decide the exit codes. */
module Checker {

  /** 0 when the vectors agree, else one more than the first index at which they differ. */
  function VerifyCode<T(==)>(got: seq<T>, want: seq<T>): (r: nat)
    requires |got| == |want|
    ensures r == 0 <==> got == want
    ensures r > 0 ==> r <= |got| && got[r - 1] != want[r - 1] && got[..r - 1] == want[..r - 1]
  {
    VerifyFrom(got, want, 0)
  }

  function VerifyFrom<T(==)>(got: seq<T>, want: seq<T>, i: nat): (r: nat)
    requires |got| == |want| && i <= |got| && got[..i] == want[..i]
    ensures r == 0 <==> got == want
    ensures r > 0 ==> r <= |got| && got[r - 1] != want[r - 1] && got[..r - 1] == want[..r - 1]
    decreases |got| - i
  {
    if i == |got| then 0
    else if got[i] != want[i] then i + 1
    else VerifyFrom(got, want, i + 1)
  }

  lemma VerifyCodeIsFirst<T>(got: seq<T>, want: seq<T>, k: nat)
    requires |got| == |want| && k < |got| && got[k] != want[k] && got[..k] == want[..k]
    ensures VerifyCode(got, want) == k + 1
  {
    var r := VerifyCode(got, want);
    assert r > 0;
    assert got[r - 1] != want[r - 1] && got[..r - 1] == want[..r - 1];
  }

  lemma PairAgrees<T>(got: seq<T>, want: seq<T>, i: nat)
    requires |got| == |want| && i + 2 <= |got| && got[..i] == want[..i]
    ensures got[i] == want[i] ==> got[..i + 1] == want[..i + 1]
    ensures got[i] == want[i] && got[i + 1] == want[i + 1] ==> got[..i + 2] == want[..i + 2]
  {
  }

  /** `verify`: pairs of elements, and then the odd last one. */
  method Verify(n: nat, test: array<int>, want: array<int>) returns (code: nat)
    requires n == test.Length == want.Length
    ensures code == VerifyCode(test[..], want[..])
  {
    hide VerifyCode;
    var i := 0;
    while i < n / 2 * 2
      invariant i <= n / 2 * 2 && i % 2 == 0 && test[..i] == want[..i]
    {
      PairAgrees(test[..], want[..], i);
      if test[i] != want[i] {
        VerifyCodeIsFirst(test[..], want[..], i);
        return i + 1;
      }
      if test[i + 1] != want[i + 1] {
        VerifyCodeIsFirst(test[..], want[..], i + 1);
        return i + 2;
      }
      i := i + 2;
    }
    code := LastOne(n, test, want);
  }

  method LastOne<T(==)>(n: nat, test: array<T>, want: array<T>) returns (code: nat)
    requires n == test.Length == want.Length && test[..n / 2 * 2] == want[..n / 2 * 2]
    ensures code == VerifyCode(test[..], want[..])
  {
    hide VerifyCode;
    if n % 2 != 0 && test[n - 1] != want[n - 1] {
      VerifyCodeIsFirst(test[..], want[..], n - 1);
      return n;
    }
    assert test[..] == want[..];
    return 0;
  }

  /** `verifyDouble`: both comparisons first, then one test of the two results. */
  method VerifyDouble(n: nat, test: array<real>, want: array<real>) returns (code: nat)
    requires n == test.Length == want.Length
    ensures code == VerifyCode(test[..], want[..])
  {
    hide VerifyCode;
    var i := 0;
    while i < n / 2 * 2
      invariant i <= n / 2 * 2 && i % 2 == 0 && test[..i] == want[..i]
    {
      PairAgrees(test[..], want[..], i);
      var eq1 := if test[i] == want[i] then 1 else 0;
      var eq2 := if test[i + 1] == want[i + 1] then 1 else 0;
      if eq1 == 0 || eq2 == 0 {
        VerifyCodeIsFirst(test[..], want[..], i + eq1);
        return i + 1 + eq1;
      }
      i := i + 2;
    }
    code := LastOne(n, test, want);
  }
}
