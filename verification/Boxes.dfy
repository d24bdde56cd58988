/** Spatiotemporal bounding boxes: the join used when two boxes are merged, and
    the hull of a run of consecutive segments. */
module Boxes {

  datatype Span = Span(lo: real, hi: real)

  datatype Box = Box(x: Span, y: Span, z: Span, t: Span)

  function Min(a: real, b: real): real { if a <= b then a else b }

  function Max(a: real, b: real): real { if a >= b then a else b }

  function Widen(s: Span, u: Span): Span { Span(Min(s.lo, u.lo), Max(s.hi, u.hi)) }

  /** The box `b` expanded so that it also covers `a`. */
  function Expand(a: Box, b: Box): Box {
    Box(Widen(b.x, a.x), Widen(b.y, a.y), Widen(b.z, a.z), Widen(b.t, a.t))
  }

  predicate Inside(s: Span, u: Span) { u.lo <= s.lo && s.hi <= u.hi }

  predicate Covers(outer: Box, inner: Box) {
    && Inside(inner.x, outer.x) && Inside(inner.y, outer.y)
    && Inside(inner.z, outer.z) && Inside(inner.t, outer.t)
  }

  /** Hull of the boxes numbered `i` up to but not including `j`. */
  ghost function Hull(boxes: seq<Box>, i: nat, j: nat): Box
    requires i < j <= |boxes|
    decreases j
  {
    if j == i + 1 then boxes[i] else Expand(boxes[j - 1], Hull(boxes, i, j - 1))
  }

  lemma {:induction false} HullJoin(boxes: seq<Box>, i: nat, j: nat, k: nat)
    requires i < j < k <= |boxes|
    ensures Expand(Hull(boxes, j, k), Hull(boxes, i, j)) == Hull(boxes, i, k)
    decreases k
  {
    if k > j + 1 {
      HullJoin(boxes, i, j, k - 1);
    }
  }

  /** The hull is the least box covering every box of the run. */
  lemma {:induction false} HullIsLeast(boxes: seq<Box>, i: nat, j: nat, b: Box)
    requires i < j <= |boxes|
    ensures forall k | i <= k < j :: Covers(Hull(boxes, i, j), boxes[k])
    ensures Covers(b, Hull(boxes, i, j)) <==> forall k | i <= k < j :: Covers(b, boxes[k])
    decreases j
  {
    if j > i + 1 {
      HullIsLeast(boxes, i, j - 1, b);
    }
  }

  /** The segment boxes of a sequence of instants: segment `i` joins the boxes of
      instants `i` and `i + 1`. */
  function Segments(insts: seq<Box>): (segs: seq<Box>)
    requires |insts| >= 1
    ensures |segs| == |insts| - 1
    ensures forall i | 0 <= i < |segs| :: segs[i] == Expand(insts[i + 1], insts[i])
  {
    seq(|insts| - 1, i requires 0 <= i < |insts| - 1 => Expand(insts[i + 1], insts[i]))
  }
}
