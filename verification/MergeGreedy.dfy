/** When a merge is the cheapest one: exactly if no stale element hides a cheaper pair. With
    the splitter's own penalty this can happen. */
module MergeGreedy {
  import opened Boxes
  import opened MergeState
  import opened MergeSplit

  /** No two neighbouring live boxes have a smaller penalty. */
  ghost predicate Cheapest(s: LoopState, pen: Penalty, p: nat, b: nat)
    requires p < |s.boxes| && b < |s.boxes| == |s.st|
  {
    forall q: nat, d: nat | Run(Cuts(s.st), |s.st|, q, d) && d < |s.st| ::
      pen(s.boxes[p], s.boxes[b]) <= pen(s.boxes[q], s.boxes[d])
  }

  /** Neighbours with a stale flag between them. */
  ghost predicate StalePair(s: LoopState, q: nat, d: nat) {
    Run(Cuts(s.st), |s.st|, q, d) && d < |s.st| && !Current(s, q, d)
  }

  /** A merge that the loop carries out is the cheapest exactly if no pair with a stale flag
      has become cheaper. */
  lemma CheapestExactly(segs: seq<Box>, pen: Penalty, s: LoopState, p: nat, b: nat)
    requires Inv(segs, pen, s.st, s.boxes, s.stored) && Pops(s, p, b) && Current(s, p, b)
    ensures Cheapest(s, pen, p, b)
       <==> forall q: nat, d: nat | StalePair(s, q, d) :: pen(s.boxes[p], s.boxes[b]) <= pen(s.boxes[q], s.boxes[d])
  {
    var c := MergeStepIsGreedy(segs, pen, s, p, b);
    forall q: nat, d: nat | Run(Cuts(s.st), |s.st|, q, d) && d < |s.st| && Current(s, q, d)
      ensures pen(s.boxes[p], s.boxes[b]) <= pen(s.boxes[q], s.boxes[d])
    {
      assert EntryOk(s.st, s.boxes, pen, q, d, s.stored[d]);
    }
  }

  /** So it is while no flag is stale. */
  lemma CheapestWhenFresh(segs: seq<Box>, pen: Penalty, s: LoopState, p: nat, b: nat)
    requires Inv(segs, pen, s.st, s.boxes, s.stored) && Pops(s, p, b) && Current(s, p, b)
    requires Staleness(s.st) == 0
    ensures Cheapest(s, pen, p, b)
  {
    forall q: nat, d: nat | Run(Cuts(s.st), |s.st|, q, d) && d < |s.st| ensures Current(s, q, d) {
      assert q !in RightStale(s.st) && d !in LeftStale(s.st);
    }
    CheapestExactly(segs, pen, s, p, b);
  }

  lemma StartIsExact(segs: seq<Box>, pen: Penalty)
    requires segs != []
    ensures var s := Start(segs, pen); Underestimates(s.st, s.boxes, pen, s.stored)
  {
    var s := Start(segs, pen);
    forall q: nat, d: nat | Run(Cuts(s.st), |segs|, q, d) && d < |segs| && d in s.stored ensures q == d - 1 {
      assert d - 1 in Cuts(s.st);
    }
  }

  /** A penalty that never falls when boxes grow would make every merge the cheapest. */
  lemma {:induction false} MonotoneHistory(segs: seq<Box>, pen: Penalty, hist: seq<LoopState>, i: nat)
    requires Monotone(pen) && History(segs, pen, hist) && i < |hist|
    ensures Inv(segs, pen, hist[i].st, hist[i].boxes, hist[i].stored)
    ensures Underestimates(hist[i].st, hist[i].boxes, pen, hist[i].stored)
    decreases i
  {
    HistoryKeepsInv(segs, pen, hist, i);
    if i == 0 {
      StartIsExact(segs, pen);
    } else {
      MonotoneHistory(segs, pen, hist, i - 1);
      var s := hist[i - 1];
      assert Round(pen, s, hist[i]);
      var p, b :| RoundAt(pen, s, hist[i], p, b);
      if Current(s, p, b) {
        MergeKeepsUnderestimates(segs, pen, s.st, s.boxes, s.stored, p, b);
      } else {
        RefreshKeepsUnderestimates(s.st, s.boxes, pen, s.stored, p, b);
      }
    }
  }

  lemma MonotoneIsCheapest(segs: seq<Box>, pen: Penalty, hist: seq<LoopState>, i: nat, p: nat, b: nat)
    requires Monotone(pen) && History(segs, pen, hist) && i < |hist| && Pops(hist[i], p, b) && Current(hist[i], p, b)
    ensures Cheapest(hist[i], pen, p, b)
  {
    var s := hist[i];
    MonotoneHistory(segs, pen, hist, i);
    var c := MergeStepIsGreedy(segs, pen, s, p, b);
    forall q: nat, d: nat | Run(Cuts(s.st), |s.st|, q, d) && d < |s.st|
      ensures pen(s.boxes[p], s.boxes[b]) <= pen(s.boxes[q], s.boxes[d])
    {
      assert d in s.stored;
    }
  }

  // ---- the penalty of the splitter ----

  function Width(s: Span): real { s.hi - s.lo }

  /** Boxes without extent in some dimension have no size. Time is in minutes. */
  function Size(b: Box, hasz: bool): real {
    if Width(b.x) <= 0.0 || Width(b.y) <= 0.0 || (hasz && Width(b.z) <= 0.0) || Width(b.t) <= 0.0 then 0.0
    else Width(b.x) * Width(b.y) * (if hasz then Width(b.z) else 1.0) * Width(b.t)
  }

  function Common(s: Span, u: Span): Span { Span(Max(s.lo, u.lo), Min(s.hi, u.hi)) }

  function Intersection(a: Box, b: Box): Box {
    Box(Common(a.x, b.x), Common(a.y, b.y), Common(a.z, b.z), Common(a.t, b.t))
  }

  /** How much larger the union is than what the two boxes cover. */
  function StboxPenalty(hasz: bool): Penalty {
    (a: Box, b: Box) => Size(Expand(b, a), hasz) - Size(a, hasz) - Size(b, hasz) + Size(Intersection(a, b), hasz)
  }

  // ---- a trajectory for which the loop passes over a cheaper merge ----

  function Instant(x: real, y: real, t: real): Box { Box(Span(x, x), Span(y, y), Span(0.0, 0.0), Span(t, t)) }

  function Trajectory(): seq<Box> {
    [Instant(2.0, 0.5, 0.0), Instant(0.0, 0.0, 0.1), Instant(1.0, 1.0, 1.1), Instant(2.0, 2.0, 2.1), Instant(3.0, 3.0, 2.9)]
  }

  function Flat(x0: real, x1: real, y0: real, y1: real, t0: real, t1: real): Box {
    Box(Span(x0, x1), Span(y0, y1), Span(0.0, 0.0), Span(t0, t1))
  }

  ghost predicate FourSegments(segs: seq<Box>) {
    segs == [Flat(0.0, 2.0, 0.0, 0.5, 0.0, 0.1), Flat(0.0, 1.0, 0.0, 1.0, 0.1, 1.1),
             Flat(1.0, 2.0, 1.0, 2.0, 1.1, 2.1), Flat(2.0, 3.0, 2.0, 3.0, 2.1, 2.9)]
  }

  lemma TrajectorySegments(segs: seq<Box>)
    requires segs == Segments(Trajectory())
    ensures FourSegments(segs)
  {
    var insts := Trajectory();
    assert segs[0] == Expand(insts[1], insts[0]) && segs[1] == Expand(insts[2], insts[1]);
    assert segs[2] == Expand(insts[3], insts[2]) && segs[3] == Expand(insts[4], insts[3]);
    assert |segs| == 4;
  }

  /** The penalties of single segments, and of the first two together with the third. */
  lemma FirstPenalties(segs: seq<Box>)
    requires FourSegments(segs)
    ensures var pen := StboxPenalty(false);
      pen(segs[0], segs[1]) == 1.1 && pen(segs[1], segs[2]) == 6.0 && pen(segs[2], segs[3]) == 5.4
  {
    assert Expand(segs[1], segs[0]) == Flat(0.0, 2.0, 0.0, 1.0, 0.0, 1.1);
    assert Expand(segs[2], segs[1]) == Flat(0.0, 2.0, 0.0, 2.0, 0.1, 2.1);
    assert Expand(segs[3], segs[2]) == Flat(1.0, 3.0, 1.0, 3.0, 1.1, 2.9);
  }

  lemma LaterPenalty(segs: seq<Box>)
    requires FourSegments(segs)
    ensures StboxPenalty(false)(Expand(segs[1], segs[0]), segs[2]) == 5.2
  {
    assert Expand(segs[1], segs[0]) == Flat(0.0, 2.0, 0.0, 1.0, 0.0, 1.1);
    assert Expand(segs[2], Expand(segs[1], segs[0])) == Flat(0.0, 2.0, 0.0, 2.0, 0.0, 2.1);
  }

  /** Four segments of which the first two are cheapest to merge and the second two dearest,
      until the first of these has grown. */
  ghost predicate Hiding(segs: seq<Box>, pen: Penalty) {
    && |segs| == 4 && pen(segs[0], segs[1]) < pen(segs[2], segs[3]) < pen(segs[1], segs[2])
    && pen(Expand(segs[1], segs[0]), segs[2]) < pen(segs[2], segs[3])
  }

  lemma TrajectoryHides()
    ensures Hiding(Segments(Trajectory()), StboxPenalty(false))
  {
    var segs := Segments(Trajectory());
    TrajectorySegments(segs);
    FirstPenalties(segs);
    LaterPenalty(segs);
  }

  /** Only one round is possible if one element is the least. */
  lemma OnlyRound(pen: Penalty, s: LoopState, p: nat, b: nat, s': LoopState)
    requires Pops(s, p, b) && Current(s, p, b) && forall k | k in s.stored && k != b :: s.stored[b].penalty < s.stored[k].penalty
    ensures Round(pen, s, s') <==> s' == MergeRound(s, p, b)
  {
    if Round(pen, s, s') {
      var q, d :| RoundAt(pen, s, s', q, d);
      assert d == b;
      RunIsUnique(Cuts(s.st), |s.st|, p, b, q, d);
    }
    if s' == MergeRound(s, p, b) { assert RoundAt(pen, s, s', p, b); }
  }

  /** The first two segments are merged first. */
  lemma FirstRound(segs: seq<Box>, pen: Penalty, s0: LoopState)
    requires Hiding(segs, pen) && s0 == Start(segs, pen)
    ensures Pops(s0, 0, 1) && Current(s0, 0, 1)
    ensures forall k | k in s0.stored && k != 1 :: s0.stored[1].penalty < s0.stored[k].penalty
  {
    assert s0.stored.Keys == {1, 2, 3};
    assert Run(Cuts(s0.st), 4, 0, 1);
  }

  /** Then the last two, although merging the first three would be cheaper: the element for
      the second pair still has the penalty from before the first merge. */
  lemma SecondRound(segs: seq<Box>, pen: Penalty, s0: LoopState, s1: LoopState)
    requires Hiding(segs, pen) && s0 == Start(segs, pen) && s1 == MergeRound(s0, 0, 1)
    ensures Cuts(s1.st) == {0, 2, 3} && Pops(s1, 2, 3) && Current(s1, 2, 3) && !Cheapest(s1, pen, 2, 3)
    ensures forall k | k in s1.stored && k != 3 :: s1.stored[3].penalty < s1.stored[k].penalty
  {
    assert s1.st == [Changed, Deleted, OK, OK] && s1.stored.Keys == {2, 3};
    assert Run(Cuts(s1.st), 4, 2, 3) && Run(Cuts(s1.st), 4, 0, 2);
  }

  /** Every run on such segments that gets down to two boxes passes over a cheaper merge. */
  lemma HidingRun(segs: seq<Box>, pen: Penalty, hist: seq<LoopState>, cuts: set<nat>)
    requires Hiding(segs, pen) && RunTo(segs, pen, hist, cuts) && |cuts| == 2
    ensures |hist| >= 3 && Pops(hist[1], 2, 3) && Current(hist[1], 2, 3) && hist[2] == MergeRound(hist[1], 2, 3)
    ensures !Cheapest(hist[1], pen, 2, 3)
  {
    StartKeepsInv(segs, pen);
    assert |hist| > 1;
    FirstRound(segs, pen, hist[0]);
    assert Round(pen, hist[0], hist[1]);
    OnlyRound(pen, hist[0], 0, 1, hist[1]);
    SecondRound(segs, pen, hist[0], hist[1]);
    assert |{0, 2, 3}| == 3;
    assert |hist| > 2;
    assert Round(pen, hist[1], hist[2]);
    OnlyRound(pen, hist[1], 2, 3, hist[2]);
  }

  /** On this trajectory the loop, with its own penalty, merges the last two segments although
      another pair is cheaper. */
  lemma StaleElementHidesCheaperMerge(hist: seq<LoopState>, cuts: set<nat>)
    requires RunTo(Segments(Trajectory()), StboxPenalty(false), hist, cuts) && |cuts| == 2
    ensures |hist| >= 3 && Pops(hist[1], 2, 3) && Current(hist[1], 2, 3) && hist[2] == MergeRound(hist[1], 2, 3)
    ensures !Cheapest(hist[1], StboxPenalty(false), 2, 3)
  {
    TrajectoryHides();
    HidingRun(Segments(Trajectory()), StboxPenalty(false), hist, cuts);
  }

  /** There is such a run. */
  lemma TwoRounds(segs: seq<Box>, pen: Penalty) returns (hist: seq<LoopState>)
    requires Hiding(segs, pen)
    ensures RunTo(segs, pen, hist, {0, 2})
  {
    var s0 := Start(segs, pen);
    var s1 := MergeRound(s0, 0, 1);
    var s2 := MergeRound(s1, 2, 3);
    FirstRound(segs, pen, s0);
    OnlyRound(pen, s0, 0, 1, s1);
    SecondRound(segs, pen, s0, s1);
    OnlyRound(pen, s1, 2, 3, s2);
    hist := [s0, s1, s2];
    assert s2.st == [Changed, Deleted, Changed, Deleted];
  }

  lemma HidingNotMonotone(segs: seq<Box>, pen: Penalty)
    requires Hiding(segs, pen)
    ensures !Monotone(pen)
  {
    var grown := Expand(segs[1], segs[0]);
    assert Covers(grown, segs[1]) && Covers(segs[2], segs[2]);
    assert pen(segs[1], segs[2]) > pen(grown, segs[2]);
  }

  /** The splitter's penalty can fall when a box grows. */
  lemma NotMonotone()
    ensures !Monotone(StboxPenalty(false))
  {
    TrajectoryHides();
    HidingNotMonotone(Segments(Trajectory()), StboxPenalty(false));
  }
}
