/** Distance vectors of an ordered scan: compared coordinate by coordinate, nulls last. */
module Distances {

  datatype Coord = Value(v: real) | Null

  type Dist = seq<Coord>

  ghost predicate CoordLess(a: Coord, b: Coord) {
    a.Value? && (b.Null? || a.v < b.v)
  }

  /** Lexicographic order on vectors of one length. */
  ghost predicate Less(a: Dist, b: Dist)
    requires |a| == |b|
  {
    a != [] && (CoordLess(a[0], b[0]) || (a[0] == b[0] && Less(a[1..], b[1..])))
  }

  ghost predicate Leq(a: Dist, b: Dist) { |a| == |b| && !Less(b, a) }

  lemma {:induction false} LeqTransitive(a: Dist, b: Dist, c: Dist)
    requires Leq(a, b) && Leq(b, c)
    ensures Leq(a, c)
  {
    if a != [] && a[0] == b[0] && b[0] == c[0] {
      LeqTransitive(a[1..], b[1..], c[1..]);
    }
  }

  lemma {:induction false} LeqTotal(a: Dist, b: Dist)
    requires |a| == |b|
    ensures Leq(a, b) || Leq(b, a)
  {
    if a != [] && a[0] == b[0] {
      LeqTotal(a[1..], b[1..]);
    }
  }

  lemma {:induction false} SkipEqual(a: Dist, b: Dist, i: nat)
    requires |a| == |b| && i <= |a| && a[..i] == b[..i]
    ensures Less(a, b) <==> Less(a[i..], b[i..])
  {
    if i > 0 {
      assert a[..i][0] == a[0] && b[..i][0] == b[0];
      assert a[1..][..i - 1] == a[..i][1..] && b[1..][..i - 1] == b[..i][1..];
      SkipEqual(a[1..], b[1..], i - 1);
      assert a[1..][i - 1..] == a[i..] && b[1..][i - 1..] == b[i..];
    } else {
      assert a[0..] == a && b[0..] == b;
    }
  }

  /** 1 if `a` is nearer, -1 if `b` is. */
  method CompareDistances(a: Dist, b: Dist) returns (cmp: int)
    requires |a| == |b|
    ensures cmp == if Less(a, b) then 1 else if Less(b, a) then -1 else 0
  {
    var i := 0;
    while i < |a|
      invariant 0 <= i <= |a| && a[..i] == b[..i]
    {
      SkipEqual(a, b, i);
      SkipEqual(b, a, i);
      if a[i].Null? {
        if !b[i].Null? {
          return -1;
        }
      } else if b[i].Null? {
        return 1;
      } else if a[i].v != b[i].v {
        return if a[i].v < b[i].v then 1 else -1;
      }
      i := i + 1;
    }
    SkipEqual(a, b, i);
    SkipEqual(b, a, i);
    cmp := 0;
  }
}
