/** The quadtree over ranges: a range is a point whose coordinates are its bounds, and each
    inner tuple divides the plane at its centroid. Pruning never loses an entry that is
    looked for. */
module RangeQuad {
  import opened RangeBounds
  import opened MultirangeEntries

  /** Quadrants: 1 both bounds not below the centroid's, 2 only the lower one, 3 none, 4 only
      the upper one. */
  function GetQuadrant(centroid: Range, r: Range): int {
    if Le(centroid.lower, r.lower) then (if Le(centroid.upper, r.upper) then 1 else 2)
    else (if Le(centroid.upper, r.upper) then 4 else 3)
  }

  /** Whether bounds adjacent to `arg` lie to the left of the centroid (-1) or not (1). */
  function AdjacentCmpBounds(arg: Bound, centroid: Bound): int {
    var cmp := CmpBounds(arg, centroid);
    if centroid.lower then (if cmp < 0 && !BoundsAdjacent(arg, centroid) then -1 else 1)
    else (if cmp <= 0 then -1 else 1)
  }

  datatype Maybe = None | Some(range: Range)

  /** The same, or 0 if the step from the previous centroid already went the wrong way. */
  function AdjacentInnerConsistent(arg: Bound, centroid: Bound, hasPrev: bool, prev: Bound): int {
    if hasPrev
       && var prevcmp, cmp := AdjacentCmpBounds(arg, prev), CmpBounds(centroid, prev);
          (prevcmp < 0 && cmp >= 0) || (prevcmp > 0 && cmp < 0)
    then 0 else AdjacentCmpBounds(arg, centroid)
  }

  /** The quadrants that may hold ranges adjacent to the query, at either of its bounds. */
  function AdjacentQuadrants(lower: Bound, upper: Bound, centroid: Range, prev: Maybe): set<int> {
    var any := Bound(0.0, true, false, true);
    var c1 := AdjacentInnerConsistent(lower, centroid.upper, prev.Some?, if prev.Some? then prev.range.upper else any);
    var c2 := AdjacentInnerConsistent(upper, centroid.lower, prev.Some?, if prev.Some? then prev.range.lower else any);
    (if c1 > 0 then {1, 4} else if c1 < 0 then {2, 3} else {})
    + (if c2 > 0 then {1, 2} else if c2 < 0 then {3, 4} else {})
  }

  /** Limits on the bounds of a range; an absent limit is an infinite one. */
  datatype Limit = NoLimit | At(bound: Bound)

  datatype Window = Window(minLower: Limit, maxLower: Limit, minUpper: Limit, maxUpper: Limit, inclusive: bool)

  function WindowOf(q: Query): Window
    requires q.ranges != []
  {
    var lower, upper := First(q).lower, Last(q).upper;
    match q.op
    case Before => Window(NoLimit, NoLimit, NoLimit, At(lower), false)
    case Overleft => Window(NoLimit, NoLimit, NoLimit, At(upper), true)
    case OverlapsOp => Window(NoLimit, At(upper), At(lower), NoLimit, true)
    case Overright => Window(At(lower), NoLimit, NoLimit, NoLimit, true)
    case After => Window(At(upper), NoLimit, NoLimit, NoLimit, false)
    case AdjacentOp => Window(NoLimit, NoLimit, NoLimit, NoLimit, true)
    case Contains =>
      if q.multi then Window(NoLimit, At(upper), At(lower), NoLimit, true)
      else Window(NoLimit, At(lower), At(upper), NoLimit, true)
    case ContainedBy => Window(At(lower), NoLimit, NoLimit, At(upper), true)
  }

  function WindowQuadrants(w: Window, centroid: Range): set<int> {
    var low := if w.minLower.At? && CmpBounds(centroid.lower, w.minLower.bound) <= 0 then {1, 2} else {1, 2, 3, 4};
    var high :=
      if w.maxLower.At?
         && (CmpBounds(centroid.lower, w.maxLower.bound) > 0 || (!w.inclusive && CmpBounds(centroid.lower, w.maxLower.bound) == 0))
      then {3, 4} else {1, 2, 3, 4};
    var left := if w.minUpper.At? && CmpBounds(centroid.upper, w.minUpper.bound) <= 0 then {1, 4} else {1, 2, 3, 4};
    var right :=
      if w.maxUpper.At?
         && (CmpBounds(centroid.upper, w.maxUpper.bound) > 0 || (!w.inclusive && CmpBounds(centroid.upper, w.maxUpper.bound) == 0))
      then {2, 3} else {1, 2, 3, 4};
    low * high * left * right
  }

  /** The quadrants one scan key leaves to be visited. */
  function KeyQuadrants(q: Query, centroid: Range, prev: Maybe): set<int>
    requires q.ranges != []
  {
    WindowQuadrants(WindowOf(q), centroid)
    * if q.op == AdjacentOp then AdjacentQuadrants(First(q).lower, Last(q).upper, centroid, prev) else {1, 2, 3, 4}
  }

  // ---- pruning is safe ----

  ghost predicate InWindow(r: Range, w: Window) {
    && (w.minLower.At? ==> Le(w.minLower.bound, r.lower) && (w.inclusive || Lt(w.minLower.bound, r.lower)))
    && (w.maxLower.At? ==> Le(r.lower, w.maxLower.bound) && (w.inclusive || Lt(r.lower, w.maxLower.bound)))
    && (w.minUpper.At? ==> Le(w.minUpper.bound, r.upper) && (w.inclusive || Lt(w.minUpper.bound, r.upper)))
    && (w.maxUpper.At? ==> Le(r.upper, w.maxUpper.bound) && (w.inclusive || Lt(r.upper, w.maxUpper.bound)))
  }

  /** A range below the centroid stays below whatever is above the centroid. */
  lemma LowerSide(r: Bound, c: Bound, limit: Bound)
    ensures Lt(r, c) && Le(c, limit) ==> Lt(r, limit)
    ensures Le(c, r) && Lt(limit, c) ==> Lt(limit, r)
    ensures Le(c, r) && Le(limit, c) ==> Le(limit, r)
  {
  }

  lemma WindowKeeps(r: Range, w: Window, centroid: Range)
    requires InWindow(r, w)
    ensures GetQuadrant(centroid, r) in WindowQuadrants(w, centroid)
  {
    if w.minLower.At? { LowerSide(r.lower, centroid.lower, w.minLower.bound); }
    if w.maxLower.At? { LowerSide(r.lower, centroid.lower, w.maxLower.bound); }
    if w.minUpper.At? { LowerSide(r.upper, centroid.upper, w.minUpper.bound); }
    if w.maxUpper.At? { LowerSide(r.upper, centroid.upper, w.maxUpper.bound); }
  }

  /** Where the upper bounds adjacent to a lower bound lie, and the lower bounds adjacent to
      an upper one. */
  lemma AdjacentSide(arg: Bound, x: Bound, centroid: Bound)
    requires x.lower != arg.lower && centroid.lower == x.lower
    requires if x.lower then BoundsAdjacent(arg, x) else BoundsAdjacent(x, arg)
    ensures AdjacentCmpBounds(arg, centroid) == if Le(centroid, x) then 1 else -1
  {
    if x.lower {
      NothingBetween(arg, x, centroid);
      EitherWay(arg, centroid);
    } else {
      NothingBetween(x, arg, centroid);
    }
  }

  /** The step from the previous centroid went the way of the entry, and so of the adjacent
      bound. */
  lemma AdjacentKept(arg: Bound, x: Bound, centroid: Bound, hasPrev: bool, prev: Bound)
    requires x.lower != arg.lower && centroid.lower == x.lower && (hasPrev ==> prev.lower == x.lower)
    requires if x.lower then BoundsAdjacent(arg, x) else BoundsAdjacent(x, arg)
    requires hasPrev ==> (Le(prev, x) <==> Le(prev, centroid))
    ensures AdjacentInnerConsistent(arg, centroid, hasPrev, prev) == if Le(centroid, x) then 1 else -1
  {
    AdjacentSide(arg, x, centroid);
    if hasPrev {
      AdjacentSide(arg, x, prev);
      EitherWay(prev, centroid);
      Flip(prev, centroid);
    }
  }

  lemma Flip(a: Bound, b: Bound)
    ensures CmpBounds(a, b) == -CmpBounds(b, a)
  {
  }

  /** Centroids, entries and queries are non-empty ranges; a centroid lies in the quadrant of
      the previous one through which it was reached. */
  ghost predicate SameWay(prev: Maybe, centroid: Range, r: Range) {
    prev.Some? ==> RangeOk(prev.range) && GetQuadrant(prev.range, r) == GetQuadrant(prev.range, centroid)
  }

  lemma AdjacentQuadrantsKeep(r: Range, lower: Bound, upper: Bound, centroid: Range, prev: Maybe)
    requires RangeOk(r) && RangeOk(centroid) && lower.lower && !upper.lower && SameWay(prev, centroid, r)
    requires BoundsAdjacent(r.upper, lower) || BoundsAdjacent(upper, r.lower)
    ensures GetQuadrant(centroid, r) in AdjacentQuadrants(lower, upper, centroid, prev)
  {
    var any := Bound(0.0, true, false, true);
    if BoundsAdjacent(r.upper, lower) {
      AdjacentKept(lower, r.upper, centroid.upper, prev.Some?, if prev.Some? then prev.range.upper else any);
    } else {
      AdjacentKept(upper, r.lower, centroid.lower, prev.Some?, if prev.Some? then prev.range.lower else any);
    }
  }

  lemma KeyKeeps(r: Range, q: Query, centroid: Range, prev: Maybe)
    requires RangeOk(r) && RangeOk(centroid) && QueryOk(q) && Sought(r, q) && SameWay(prev, centroid, r)
    ensures GetQuadrant(centroid, r) in KeyQuadrants(q, centroid, prev)
  {
    assert RangeOk(First(q)) && RangeOk(Last(q));
    assert InWindow(r, WindowOf(q));
    WindowKeeps(r, WindowOf(q), centroid);
    if q.op == AdjacentOp {
      AdjacentQuadrantsKeep(r, First(q).lower, Last(q).upper, centroid, prev);
    }
  }

  // ---- pruning leaves out all it can ----

  /** The window is what is looked for, but for adjacency. */
  lemma WindowIsSought(r: Range, q: Query)
    requires QueryOk(q) && q.op != AdjacentOp
    ensures InWindow(r, WindowOf(q)) <==> Sought(r, q)
  {
  }

  ghost predicate WithinMax(x: Bound, max: Bound, inclusive: bool) { Lt(x, max) || (inclusive && Le(x, max)) }

  /** A limit from below leaves some position below the centroid's bound, and one from above
      some position from it on. */
  ghost predicate Admits(min: Limit, max: Limit, inclusive: bool, c: Bound, high: bool) {
    && (min.At? && !high ==> exists x :: Lt(x, c) && Le(min.bound, x))
    && (max.At? && high ==> exists x :: Le(c, x) && WithinMax(x, max.bound, inclusive))
  }

  lemma AdmitsExactly(min: Limit, max: Limit, inclusive: bool, c: Bound, high: bool)
    ensures Admits(min, max, inclusive, c, high) <==>
            && (min.At? && !high ==> Lt(min.bound, c))
            && (max.At? && high ==> WithinMax(c, max.bound, inclusive))
  {
    EitherWay(c, c);
    if min.At? {
      EitherWay(min.bound, min.bound);
      forall x | Lt(x, c) && Le(min.bound, x) ensures Lt(min.bound, c) { Through(min.bound, x, c); }
    }
    if max.At? {
      forall x | Le(c, x) && WithinMax(x, max.bound, inclusive) ensures WithinMax(c, max.bound, inclusive) {
        Through(c, x, max.bound);
      }
    }
  }

  /** Each limit leaves some position on the quadrant's side of the centroid. */
  ghost predicate WithinReach(w: Window, centroid: Range, j: int) {
    && Admits(w.minLower, w.maxLower, w.inclusive, centroid.lower, j == 1 || j == 2)
    && Admits(w.minUpper, w.maxUpper, w.inclusive, centroid.upper, j == 1 || j == 4)
  }

  lemma WindowExact(w: Window, centroid: Range, j: int)
    requires 1 <= j <= 4
    ensures j in WindowQuadrants(w, centroid) <==> WithinReach(w, centroid, j)
  {
    AdmitsExactly(w.minLower, w.maxLower, w.inclusive, centroid.lower, j == 1 || j == 2);
    AdmitsExactly(w.minUpper, w.maxUpper, w.inclusive, centroid.upper, j == 1 || j == 4);
    if w.minLower.At? { Flip(centroid.lower, w.minLower.bound); }
    if w.minUpper.At? { Flip(centroid.upper, w.minUpper.bound); }
  }

  /** The bound adjacent to a finite one. */
  function Neighbour(arg: Bound): (x: Bound)
    requires !arg.infinite
    ensures x.lower != arg.lower && BoundsAdjacent(arg, x) && BoundsAdjacent(x, arg)
  {
    Bound(arg.val, false, !arg.inclusive, !arg.lower)
  }

  /** It lies on the side where the step from the previous centroid went. */
  ghost predicate OnTheWay(arg: Bound, centroid: Bound, hasPrev: bool, prev: Bound)
    requires !arg.infinite
  {
    hasPrev ==> (Le(prev, Neighbour(arg)) <==> Le(prev, centroid))
  }

  lemma AdjacentExactly(arg: Bound, centroid: Bound, hasPrev: bool, prev: Bound)
    requires !arg.infinite && centroid.lower != arg.lower && (hasPrev ==> prev.lower == centroid.lower)
    ensures AdjacentInnerConsistent(arg, centroid, hasPrev, prev) ==
            if !OnTheWay(arg, centroid, hasPrev, prev) then 0 else if Le(centroid, Neighbour(arg)) then 1 else -1
  {
    AdjacentSide(arg, Neighbour(arg), centroid);
    if hasPrev {
      AdjacentSide(arg, Neighbour(arg), prev);
      Flip(prev, centroid);
    }
  }

  /** The bound adjacent to one end of the query lies in the quadrant, and where the previous
      centroid sent the search. */
  ghost predicate BesideAnEnd(lower: Bound, upper: Bound, centroid: Range, prev: Maybe, j: int)
    requires !lower.infinite && !upper.infinite
  {
    var before := if prev.Some? then prev.range else centroid;
    || (OnTheWay(lower, centroid.upper, prev.Some?, before.upper)
        && (Le(centroid.upper, Neighbour(lower)) <==> j == 1 || j == 4))
    || (OnTheWay(upper, centroid.lower, prev.Some?, before.lower)
        && (Le(centroid.lower, Neighbour(upper)) <==> j == 1 || j == 2))
  }

  lemma AdjacentExact(lower: Bound, upper: Bound, centroid: Range, prev: Maybe, j: int)
    requires lower.lower && !upper.lower && !lower.infinite && !upper.infinite && RangeOk(centroid) && 1 <= j <= 4
    requires prev.Some? ==> RangeOk(prev.range)
    ensures j in AdjacentQuadrants(lower, upper, centroid, prev) <==> BesideAnEnd(lower, upper, centroid, prev, j)
  {
    var any := Bound(0.0, true, false, true);
    AdjacentExactly(lower, centroid.upper, prev.Some?, if prev.Some? then prev.range.upper else any);
    AdjacentExactly(upper, centroid.lower, prev.Some?, if prev.Some? then prev.range.lower else any);
  }

  /** A key keeps a quadrant exactly if no limit on the bounds rules it out; for adjacency to a
      query with finite ends, exactly if the bound adjacent to an end is to be found there. */
  lemma KeyExact(q: Query, centroid: Range, prev: Maybe, j: int)
    requires QueryOk(q) && RangeOk(centroid) && 1 <= j <= 4 && (prev.Some? ==> RangeOk(prev.range))
    ensures q.op != AdjacentOp ==> (j in KeyQuadrants(q, centroid, prev) <==> WithinReach(WindowOf(q), centroid, j))
    ensures q.op == AdjacentOp && !First(q).lower.infinite && !Last(q).upper.infinite ==>
              (j in KeyQuadrants(q, centroid, prev) <==> BesideAnEnd(First(q).lower, Last(q).upper, centroid, prev, j))
  {
    WindowExact(WindowOf(q), centroid, j);
    assert RangeOk(First(q)) && RangeOk(Last(q));
    if q.op == AdjacentOp && !First(q).lower.infinite && !Last(q).upper.infinite {
      AdjacentExact(First(q).lower, Last(q).upper, centroid, prev, j);
    }
  }
}
