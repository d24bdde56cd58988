/** Strings of non-zero bytes and their order. */
module TextStrings {

  /** Text never contains a zero byte. */
  type Byte = b: int | 0 < b < 256 witness 1

  type Str = seq<Byte>

  /** The length of the longest common prefix. */
  function CommonLen(a: Str, b: Str): (n: nat)
    ensures n <= |a| && n <= |b| && a[..n] == b[..n]
    ensures n < |a| && n < |b| ==> a[n] != b[n]
  {
    if a != [] && b != [] && a[0] == b[0] then 1 + CommonLen(a[1..], b[1..]) else 0
  }

  lemma {:induction false} CommonLenIs(a: Str, b: Str, n: nat)
    requires n <= |a| && n <= |b| && a[..n] == b[..n]
    requires n < |a| && n < |b| ==> a[n] != b[n]
    ensures CommonLen(a, b) == n
  {
    var m := CommonLen(a, b);
    if m < n {
      PrefixAt(a, b, n, m);
    } else if n < m {
      PrefixAt(a, b, m, n);
    }
  }

  lemma PrefixAt(a: Str, b: Str, n: nat, k: nat)
    requires k < n <= |a| && n <= |b| && a[..n] == b[..n]
    ensures a[k] == b[k]
  {
    assert a[..n][k] == b[..n][k];
  }

  method CommonPrefix(a: Str, b: Str) returns (i: nat)
    ensures i == CommonLen(a, b)
  {
    i := 0;
    while i < |a| && i < |b| && a[i] == b[i]
      invariant i <= |a| && i <= |b| && a[..i] == b[..i]
    {
      i := i + 1;
    }
    CommonLenIs(a, b, i);
  }

  // ---- order ----

  /** Dictionary order, the reference for all comparisons. */
  ghost predicate Less(a: Str, b: Str) {
    b != [] && (a == [] || a[0] < b[0] || (a[0] == b[0] && Less(a[1..], b[1..])))
  }

  /** C's memcmp over the first `n` bytes: its sign. */
  function MemCmp(a: Str, b: Str, n: nat): (r: int)
    requires n <= |a| && n <= |b|
    ensures -1 <= r <= 1 && (r == 0 <==> a[..n] == b[..n])
    decreases n
  {
    if n == 0 then 0
    else if a[0] < b[0] then -1
    else if a[0] > b[0] then 1
    else
      assert a[..n] == [a[0]] + a[1..][..n - 1];
      assert b[..n] == [b[0]] + b[1..][..n - 1];
      MemCmp(a[1..], b[1..], n - 1)
  }

  function MinLen(a: Str, b: Str): nat { if |a| < |b| then |a| else |b| }

  /** The comparison made at a leaf: bytes first, then length. */
  function Compare(a: Str, b: Str): (r: int)
    ensures -1 <= r <= 1
  {
    var r := MemCmp(a, b, MinLen(a, b));
    if r != 0 then r
    else if |b| > |a| then -1
    else if |b| < |a| then 1
    else 0
  }

  lemma {:induction false} CompareIsOrder(a: Str, b: Str)
    ensures Compare(a, b) < 0 <==> Less(a, b)
    ensures Compare(a, b) == 0 <==> a == b
    ensures Compare(a, b) > 0 <==> Less(b, a)
  {
    if a != [] && b != [] {
      CompareIsOrder(a[1..], b[1..]);
      assert a == [a[0]] + a[1..] && b == [b[0]] + b[1..];
    }
  }

  /** Extending a string does not change how it compares on the bytes it already has. */
  lemma {:induction false} MemCmpOfPrefix(v: Str, s: Str, q: Str)
    requires v <= s
    ensures MemCmp(v, q, MinLen(v, q)) > 0 ==> Less(q, s)
    ensures MemCmp(v, q, MinLen(v, q)) < 0 ==> Less(s, q)
    ensures MemCmp(v, q, MinLen(v, q)) != 0 ==> s != q && !(q <= s)
  {
    if v != [] && q != [] && v[0] == q[0] {
      assert s[1..][..|v| - 1] == v[1..];
      MemCmpOfPrefix(v[1..], s[1..], q[1..]);
      if q <= s { assert s[1..][..|q| - 1] == q[1..]; }
    }
  }
}
