/** Lists of positions of a tuple vector, counted from 1, and what remains of them when some
    are marked. */
module Positions {

  /** Each of the first `n` positions once. */
  ghost function Upto(n: nat): multiset<nat> { if n == 0 then multiset{} else Upto(n - 1) + multiset{n} }

  lemma {:induction false} UptoCount(n: nat, x: nat)
    ensures Upto(n)[x] == if 1 <= x <= n then 1 else 0
  {
    if n > 0 { UptoCount(n - 1, x); }
  }

  lemma {:induction false} UptoSize(n: nat)
    ensures |Upto(n)| == n
  {
    if n > 0 { UptoSize(n - 1); }
  }

  lemma AllPositions(pos: seq<nat>, n: nat)
    requires multiset(pos) == Upto(n)
    ensures |pos| == n && forall k | 0 <= k < |pos| :: 1 <= pos[k] <= n
  {
    UptoSize(n);
    assert |multiset(pos)| == |pos|;
    forall k | 0 <= k < |pos| ensures 1 <= pos[k] <= n {
      assert pos[k] in multiset(pos);
      UptoCount(n, pos[k]);
    }
  }

  lemma OnceEach(pos: seq<nat>, n: nat, i: nat, j: nat)
    requires multiset(pos) == Upto(n) && i < j < |pos|
    ensures pos[i] != pos[j]
  {
    assert pos == pos[..i] + [pos[i]] + pos[i + 1..j] + [pos[j]] + pos[j + 1..];
    UptoCount(n, pos[i]);
    var m: multiset<nat> := multiset(pos);
    assert m == multiset(pos[..i]) + multiset{pos[i]} + multiset(pos[i + 1..j]) + multiset{pos[j]} + multiset(pos[j + 1..]);
    assert m[pos[i]] <= 1;
  }

  /** The elements at the given positions. */
  function Pick<T>(s: seq<T>, pos: seq<nat>): (r: seq<T>)
    requires forall k | 0 <= k < |pos| :: 1 <= pos[k] <= |s|
    ensures |r| == |pos|
  {
    seq(|pos|, k requires 0 <= k < |pos| => s[pos[k] - 1])
  }

  ghost predicate InRange(pos: seq<nat>, n: nat) { forall k | 0 <= k < |pos| :: 1 <= pos[k] <= n }

  lemma PickJoin<T>(s: seq<T>, a: seq<nat>, b: seq<nat>)
    requires InRange(a, |s|) && InRange(b, |s|)
    ensures InRange(a + b, |s|) && Pick(s, a + b) == Pick(s, a) + Pick(s, b)
  {
  }

  lemma Cancel(a: multiset<nat>, b: multiset<nat>, x: nat)
    requires a + multiset{x} == b + multiset{x}
    ensures a == b
  {
    assert a == (a + multiset{x}) - multiset{x};
    assert b == (b + multiset{x}) - multiset{x};
  }

  lemma WithoutLast(a: seq<nat>, n: nat, b: seq<nat>)
    requires n > 0 && multiset(a + [n] + b) == Upto(n)
    ensures multiset(a + b) == Upto(n - 1)
  {
    assert multiset(a + [n] + b) == multiset(a + b) + multiset{n};
    Cancel(multiset(a + b), Upto(n - 1), n);
  }

  lemma PickAround<T>(s: seq<T>, a: seq<nat>, n: nat, b: seq<nat>)
    requires InRange(a, |s|) && InRange(b, |s|) && 1 <= n <= |s|
    ensures InRange(a + [n] + b, |s|)
    ensures multiset(Pick(s, a + [n] + b)) == multiset(Pick(s, a + b)) + multiset{s[n - 1]}
  {
    PickJoin(s, a, b);
    PickJoin(s, a, [n]);
    PickJoin(s, a + [n], b);
    assert Pick(s, [n]) == [s[n - 1]];
  }

  lemma Around(pos: seq<nat>, x: nat) returns (a: seq<nat>, b: seq<nat>)
    requires x in pos
    ensures pos == a + [x] + b
  {
    var k :| 0 <= k < |pos| && pos[k] == x;
    a, b := pos[..k], pos[k + 1..];
  }

  lemma PickOneMore<T>(s: seq<T>, a: seq<nat>, n: nat, b: seq<nat>)
    requires InRange(a, |s|) && InRange(b, |s|) && 1 <= n <= |s|
    requires InRange(a + b, |s|) && multiset(Pick(s, a + b)) == multiset(s[..n - 1])
    ensures InRange(a + [n] + b, |s|) && multiset(Pick(s, a + [n] + b)) == multiset(s[..n])
  {
    PickAround(s, a, n, b);
    assert s[..n] == s[..n - 1] + [s[n - 1]];
  }

  lemma RangeParts(a: seq<nat>, n: nat, b: seq<nat>, m: nat)
    requires InRange(a + [n] + b, m)
    ensures InRange(a, m) && InRange(b, m) && InRange(a + b, m)
  {
    var c := a + [n] + b;
    forall k | 0 <= k < |a| ensures 1 <= a[k] <= m { assert c[k] == a[k]; }
    forall k | 0 <= k < |b| ensures 1 <= b[k] <= m { assert c[|a| + 1 + k] == b[k]; }
  }

  lemma {:induction false} PickAll<T>(s: seq<T>, pos: seq<nat>, n: nat)
    requires n <= |s| && multiset(pos) == Upto(n) && InRange(pos, |s|)
    ensures multiset(Pick(s, pos)) == multiset(s[..n])
    decreases n
  {
    AllPositions(pos, n);
    if n == 0 {
      assert Pick(s, pos) == [] && s[..0] == [];
    } else {
      UptoCount(n, n);
      assert n in multiset(pos);
      var a, b := Around(pos, n);
      RangeParts(a, n, b, |s|);
      WithoutLast(a, n, b);
      PickAll(s, a + b, n - 1);
      PickOneMore(s, a, n, b);
    }
  }

  // ---- marked positions ----

  /** Position `x` is marked; entry 0 of the marks is not used. */
  predicate Marked(marks: seq<bool>, x: nat) { x < |marks| && marks[x] }

  function Kept(pos: seq<nat>, marks: seq<bool>): seq<nat> {
    if pos == [] then [] else
      var k := Kept(pos[..|pos| - 1], marks);
      if Marked(marks, pos[|pos| - 1]) then k else k + [pos[|pos| - 1]]
  }

  /** The marked ones among the first `n` positions, in order. */
  function MarkedUpto(marks: seq<bool>, n: nat): seq<nat> {
    if n == 0 then [] else MarkedUpto(marks, n - 1) + if Marked(marks, n) then [n] else []
  }

  lemma {:induction false} KeptCount(pos: seq<nat>, marks: seq<bool>, x: nat)
    ensures multiset(Kept(pos, marks))[x] == if Marked(marks, x) then 0 else multiset(pos)[x]
  {
    if pos != [] {
      KeptCount(pos[..|pos| - 1], marks, x);
      assert pos == pos[..|pos| - 1] + [pos[|pos| - 1]];
    }
  }

  lemma {:induction false} MarkedCount(marks: seq<bool>, n: nat, x: nat)
    ensures multiset(MarkedUpto(marks, n))[x] == if 1 <= x <= n && Marked(marks, x) then 1 else 0
  {
    if n > 0 {
      MarkedCount(marks, n - 1, x);
      var m := MarkedUpto(marks, n - 1);
      OneMoreCount(m, n, x);
      assert MarkedUpto(marks, n) == if Marked(marks, n) then m + [n] else m;
    }
  }

  lemma OneMoreCount(s: seq<nat>, y: nat, x: nat)
    ensures multiset(s + [y])[x] == multiset(s)[x] + if x == y then 1 else 0
  {
  }

  lemma {:induction false} KeptJoin(a: seq<nat>, b: seq<nat>, marks: seq<bool>)
    ensures Kept(a + b, marks) == Kept(a, marks) + Kept(b, marks)
    decreases |b|
  {
    if b == [] {
      assert a + b == a;
    } else {
      assert (a + b)[..|a + b| - 1] == a + b[..|b| - 1];
      KeptJoin(a, b[..|b| - 1], marks);
    }
  }

  /** What is kept and what is marked make up all positions. */
  lemma KeptAndMarked(pos: seq<nat>, marks: seq<bool>, n: nat)
    requires multiset(pos) == Upto(n)
    ensures multiset(Kept(pos, marks)) + multiset(MarkedUpto(marks, n)) == Upto(n)
  {
    forall x: nat ensures (multiset(Kept(pos, marks)) + multiset(MarkedUpto(marks, n)))[x] == Upto(n)[x] {
      KeptCount(pos, marks, x);
      MarkedCount(marks, n, x);
      UptoCount(n, x);
    }
  }

  lemma {:induction false} MarkOne(marks: seq<bool>, n: nat, x: nat)
    requires x < |marks| && !marks[x]
    ensures |MarkedUpto(marks[x := true], n)| == |MarkedUpto(marks, n)| + if 1 <= x <= n then 1 else 0
    decreases n
  {
    if n > 0 { MarkOne(marks, n - 1, x); }
  }

  lemma {:induction false} NoneMarked(marks: seq<bool>, n: nat)
    requires forall x | 0 <= x < |marks| :: !marks[x]
    ensures MarkedUpto(marks, n) == []
    decreases n
  {
    if n > 0 { NoneMarked(marks, n - 1); }
  }
}
