/** Range bounds and their order. */
module RangeBounds {

  datatype Bound = Bound(val: real, infinite: bool, inclusive: bool, lower: bool)

  /** Compares two bounds as positions on the line: an exclusive lower bound lies just above
      its value, an exclusive upper bound just below. */
  function CmpBounds(b1: Bound, b2: Bound): int {
    if b1.infinite && b2.infinite then (if b1.lower == b2.lower then 0 else if b1.lower then -1 else 1)
    else if b1.infinite then (if b1.lower then -1 else 1)
    else if b2.infinite then (if b2.lower then 1 else -1)
    else if b1.val < b2.val then -1
    else if b1.val > b2.val then 1
    else if !b1.inclusive && !b2.inclusive then (if b1.lower == b2.lower then 0 else if b1.lower then 1 else -1)
    else if !b1.inclusive then (if b1.lower then 1 else -1)
    else if !b2.inclusive then (if b2.lower then -1 else 1)
    else 0
  }

  predicate Le(a: Bound, b: Bound) { CmpBounds(a, b) <= 0 }

  predicate Lt(a: Bound, b: Bound) { CmpBounds(a, b) < 0 }

  lemma Through(a: Bound, b: Bound, c: Bound)
    requires Le(a, b) && Le(b, c)
    ensures Le(a, c)
    ensures Lt(a, b) || Lt(b, c) ==> Lt(a, c)
  {
  }

  lemma EitherWay(a: Bound, b: Bound)
    ensures Le(a, b) <==> !Lt(b, a)
    ensures Le(a, a)
  {
  }

  /** An upper bound that ends exactly where a lower bound begins. */
  predicate BoundsAdjacent(a: Bound, b: Bound) {
    !a.infinite && !b.infinite && a.val == b.val && a.inclusive != b.inclusive
  }

  datatype Range = Range(lower: Bound, upper: Bound)

  /** A range that is not empty. */
  predicate RangeOk(r: Range) { r.lower.lower && !r.upper.lower && Le(r.lower, r.upper) }

  predicate Overlaps(a: Range, b: Range) { Le(a.lower, b.upper) && Le(b.lower, a.upper) }

  predicate Within(a: Range, b: Range) { Le(b.lower, a.lower) && Le(a.upper, b.upper) }

  /** Between an upper bound and the lower bound adjacent to it there is no other bound. */
  lemma NothingBetween(a: Bound, b: Bound, c: Bound)
    requires !a.lower && b.lower && BoundsAdjacent(a, b)
    ensures Lt(a, b) && (Lt(a, c) <==> Le(b, c))
    ensures c.lower ==> (Le(c, b) <==> Le(c, a) || BoundsAdjacent(a, c))
  {
  }

  /** Ranges in order, apart from each other. */
  predicate Normalized(rs: seq<Range>) {
    && rs != [] && (forall i | 0 <= i < |rs| :: RangeOk(rs[i]))
    && forall i, j | 0 <= i < j < |rs| :: Lt(rs[i].upper, rs[j].lower)
  }

  lemma InOrder(rs: seq<Range>, i: nat, j: nat)
    requires Normalized(rs) && i <= j < |rs|
    ensures Le(rs[i].lower, rs[j].lower) && Le(rs[i].upper, rs[j].upper) && Le(rs[i].lower, rs[j].upper)
  {
    if i < j {
      Through(rs[i].lower, rs[i].upper, rs[j].lower);
      Through(rs[i].upper, rs[j].lower, rs[j].upper);
      Through(rs[i].lower, rs[j].lower, rs[j].upper);
    }
  }
}
