/** The two greedy splitters of a trajectory: adjacent segment boxes are merged,
    cheapest stored candidate first, until few enough are left. */
module MergeSplit {
  import opened Boxes
  import opened MinHeap
  import opened MergeState

  // ---- the runs of the loop ----

  /** What the loop works on: states, boxes, and the heap's elements by run. */
  datatype LoopState = LoopState(st: seq<State>, boxes: seq<Box>, stored: map<nat, Elem>)

  /** The least element of the heap belongs to the run starting at `b`, next to the one
      starting at `p`. */
  ghost predicate Pops(s: LoopState, p: nat, b: nat) {
    && |s.boxes| == |s.st| && Run(Cuts(s.st), |s.st|, p, b) && b < |s.st| && b in s.stored
    && forall k | k in s.stored :: s.stored[b].penalty <= s.stored[k].penalty
  }

  predicate Current(s: LoopState, p: nat, b: nat) {
    p < |s.st| && b < |s.st| && RightFresh(s.st[p]) && LeftFresh(s.st[b])
  }

  function MergeRound(s: LoopState, p: nat, b: nat): LoopState
    requires p < b < |s.st| == |s.boxes|
  {
    LoopState(Merged(s.st, p, b), MergedBoxes(s.boxes, p, b), s.stored - {b})
  }

  function RefreshRound(s: LoopState, pen: Penalty, p: nat, b: nat): LoopState
    requires p < b < |s.st| == |s.boxes|
  {
    s.(st := Refreshed(s.st, p, b), stored := s.stored[b := Elem(p, b, pen(s.boxes[p], s.boxes[b]))])
  }

  /** One round: the least element is merged if it is current, and refreshed if not. */
  ghost predicate RoundAt(pen: Penalty, s: LoopState, s': LoopState, p: nat, b: nat) {
    Pops(s, p, b) && s' == if Current(s, p, b) then MergeRound(s, p, b) else RefreshRound(s, pen, p, b)
  }

  ghost predicate Round(pen: Penalty, s: LoopState, s': LoopState) { exists p, b :: RoundAt(pen, s, s', p, b) }

  /** Every segment its own run, and an element for each pair of neighbours. */
  ghost function Start(segs: seq<Box>, pen: Penalty): LoopState
    requires segs != []
  {
    LoopState(seq(|segs|, _ => OK), segs, Candidates(segs, pen, |segs| - 1))
  }

  /** The states of a run of the loop, round by round. */
  ghost predicate History(segs: seq<Box>, pen: Penalty, hist: seq<LoopState>) {
    && segs != [] && hist != [] && hist[0] == Start(segs, pen)
    && forall i, j | 0 <= i < |hist| && j == i + 1 < |hist| :: Round(pen, hist[i], hist[j])
  }

  /** A run that ends with these boxes live. */
  ghost predicate RunTo(segs: seq<Box>, pen: Penalty, hist: seq<LoopState>, cuts: set<nat>) {
    History(segs, pen, hist) && Cuts(hist[|hist| - 1].st) == cuts
  }

  lemma HistoryGrows(segs: seq<Box>, pen: Penalty, hist: seq<LoopState>, s': LoopState, p: nat, b: nat)
    requires History(segs, pen, hist) && RoundAt(pen, hist[|hist| - 1], s', p, b)
    ensures History(segs, pen, hist + [s'])
  {
    var h := hist + [s'];
    forall i, j | 0 <= i < |h| && j == i + 1 < |h| ensures Round(pen, h[i], h[j]) {
      if j < |hist| { assert Round(pen, hist[i], hist[j]); }
    }
  }

  lemma RoundKeepsInv(segs: seq<Box>, pen: Penalty, s: LoopState, s': LoopState, p: nat, b: nat)
    requires Inv(segs, pen, s.st, s.boxes, s.stored) && RoundAt(pen, s, s', p, b)
    ensures Inv(segs, pen, s'.st, s'.boxes, s'.stored)
    ensures Cuts(s'.st) == if Current(s, p, b) then Cuts(s.st) - {b} else Cuts(s.st)
  {
    if Current(s, p, b) {
      MergeKeepsInv(segs, pen, s.st, s.boxes, s.stored, p, b);
    } else {
      RefreshKeepsInv(segs, pen, s.st, s.boxes, s.stored, p, b);
    }
  }

  /** Every state of every run satisfies the invariant. */
  lemma {:induction false} HistoryKeepsInv(segs: seq<Box>, pen: Penalty, hist: seq<LoopState>, i: nat)
    requires History(segs, pen, hist) && i < |hist|
    ensures Inv(segs, pen, hist[i].st, hist[i].boxes, hist[i].stored)
    decreases i
  {
    if i == 0 {
      StartKeepsInv(segs, pen);
    } else {
      HistoryKeepsInv(segs, pen, hist, i - 1);
      assert Round(pen, hist[i - 1], hist[i]);
      var p, b :| RoundAt(pen, hist[i - 1], hist[i], p, b);
      RoundKeepsInv(segs, pen, hist[i - 1], hist[i], p, b);
    }
  }

  lemma StartKeepsInv(segs: seq<Box>, pen: Penalty)
    requires segs != []
    ensures var s := Start(segs, pen); Inv(segs, pen, s.st, s.boxes, s.stored) && |Cuts(s.st)| == |segs|
  {
    var st := Start(segs, pen).st;
    CountUpTo(|segs|);
    var n, cuts := |segs|, Cuts(st);
    forall i: nat, j: nat | Run(cuts, n, i, j) ensures j == i + 1 {
      assert i + 1 < n ==> i + 1 in cuts;
    }
  }

  ghost function RunEnd(starts: seq<nat>, k: nat, n: nat): nat
    requires k < |starts|
  {
    if k + 1 < |starts| then starts[k + 1] else n
  }

  /** `starts` cuts the segments 0 to `n - 1` into non-empty runs. */
  ghost predicate Starts(starts: seq<nat>, n: nat) {
    && |starts| > 0 && starts[0] == 0
    && forall k {:trigger RunEnd(starts, k, n)} | 0 <= k < |starts| :: starts[k] < RunEnd(starts, k, n) <= n
  }

  /** `boxes` are the hulls, in order, of the runs of segments that begin at `starts`. */
  ghost predicate Partition(segs: seq<Box>, starts: seq<nat>, boxes: seq<Box>) {
    && Starts(starts, |segs|) && |boxes| == |starts|
    && forall k {:trigger boxes[k]} | 0 <= k < |starts| ::
         boxes[k] == Hull(segs, starts[k], RunEnd(starts, k, |segs|))
  }

  /** The same over the instants of the trajectory: neighbouring runs share the instant
      at which they meet. A trajectory of a single instant has a single box. */
  ghost predicate InstantPartition(insts: seq<Box>, starts: seq<nat>, boxes: seq<Box>)
    requires |insts| > 0
  {
    if |insts| == 1 then
      starts == [0] && boxes == [insts[0]]
    else
      && Starts(starts, |insts| - 1) && |boxes| == |starts|
      && forall k {:trigger boxes[k]} | 0 <= k < |starts| ::
           boxes[k] == Hull(insts, starts[k], RunEnd(starts, k, |insts| - 1) + 1)
  }

  lemma {:induction false} SegmentHull(insts: seq<Box>, segs: seq<Box>, i: nat, j: nat)
    requires |insts| == |segs| + 1 && forall k | 0 <= k < |segs| :: segs[k] == Expand(insts[k + 1], insts[k])
    requires i < j <= |segs|
    ensures Hull(segs, i, j) == Hull(insts, i, j + 1)
    decreases j
  {
    if j > i + 1 {
      SegmentHull(insts, segs, i, j - 1);
      var h := Hull(insts, i, j - 1);
      assert Hull(segs, i, j) == Expand(Expand(insts[j], insts[j - 1]), Expand(insts[j - 1], h));
      Absorb(insts[j], insts[j - 1], h);
    } else {
      assert Hull(segs, i, j) == Expand(insts[j], Hull(insts, i, j));
    }
  }

  lemma Absorb(c: Box, b: Box, a: Box)
    ensures Expand(Expand(c, b), Expand(b, a)) == Expand(c, Expand(b, a))
  {
  }

  lemma PartitionOfInstants(insts: seq<Box>, starts: seq<nat>, boxes: seq<Box>)
    requires |insts| > 1 && Partition(Segments(insts), starts, boxes)
    ensures InstantPartition(insts, starts, boxes)
  {
    forall k | 0 <= k < |starts|
      ensures boxes[k] == Hull(insts, starts[k], RunEnd(starts, k, |insts| - 1) + 1)
    {
      SegmentHull(insts, Segments(insts), starts[k], RunEnd(starts, k, |insts| - 1));
    }
  }

  lemma {:induction false} StartsIncrease(starts: seq<nat>, n: nat, j: nat, k: nat)
    requires Starts(starts, n) && j < k < |starts|
    ensures starts[j] < starts[k]
    decreases k
  {
    assert starts[k - 1] < RunEnd(starts, k - 1, n);
    if j < k - 1 {
      StartsIncrease(starts, n, j, k - 1);
    }
  }

  /** Every segment lies in exactly one run, and the box of that run covers it. */
  lemma EverySegmentOnce(segs: seq<Box>, starts: seq<nat>, boxes: seq<Box>, i: nat) returns (k: nat)
    requires Partition(segs, starts, boxes) && i < |segs|
    ensures k < |boxes| && starts[k] <= i < RunEnd(starts, k, |segs|)
    ensures Covers(boxes[k], segs[i])
    ensures forall j: nat | j < |boxes| && j != k :: !(starts[j] <= i < RunEnd(starts, j, |segs|))
  {
    k := LastStart(starts, i, |starts|);
    HullIsLeast(segs, starts[k], RunEnd(starts, k, |segs|), boxes[k]);
    forall j: nat | j < |boxes| && j != k ensures !(starts[j] <= i < RunEnd(starts, j, |segs|)) {
      if j < k {
        if j + 1 < k { StartsIncrease(starts, |segs|, j + 1, k); }
      } else if k + 1 < j {
        StartsIncrease(starts, |segs|, k + 1, j);
      }
    }
  }

  lemma {:induction false} LastStart(starts: seq<nat>, i: nat, m: nat) returns (k: nat)
    requires 0 < m <= |starts| && starts[0] == 0 && (m < |starts| ==> i < starts[m])
    ensures k < |starts| && starts[k] <= i && (k + 1 < |starts| ==> i < starts[k + 1])
  {
    k := m - 1;
    if starts[k] > i {
      k := LastStart(starts, i, m - 1);
    }
  }

  // ---- the merge loop ----

  /** The invariant carried from one heap operation to the next. */
  ghost predicate LoopInv(segs: seq<Box>, pen: Penalty, st: seq<State>, boxes: seq<Box>, stored: map<nat, Elem>,
                          count: int, hist: seq<LoopState>)
  {
    && Inv(segs, pen, st, boxes, stored) && count == |Cuts(st)|
    && History(segs, pen, hist) && hist[|hist| - 1] == LoopState(st, boxes, stored)
  }

  /** What the least heap element says: which run it belongs to, and whether it is current. */
  lemma Popped(segs: seq<Box>, pen: Penalty, st: seq<State>, boxes: seq<Box>, stored: map<nat, Elem>, e: Elem)
    returns (p: nat)
    requires Inv(segs, pen, st, boxes, stored)
    requires e in stored.Values
    ensures 0 < e.boxid2 < |st| && e.boxid2 in stored && stored[e.boxid2] == e
    ensures Run(Cuts(st), |st|, p, e.boxid2) && p <= e.boxid1 < e.boxid2
    ensures EntryOk(st, boxes, pen, p, e.boxid2, e)
    ensures st[e.boxid1] == Deleted <==> !RightFresh(st[p])
    ensures st[e.boxid1] == Deleted <==> p != e.boxid1
    ensures st[p] != Deleted && st[e.boxid2] != Deleted && forall k | p < k < e.boxid2 :: st[k] == Deleted
  {
    var b :| b in stored && stored[b] == e;
    assert b in Cuts(st);
    p := Predecessor(Cuts(st), |st|, b, b - 1);
    assert EntryOk(st, boxes, pen, p, b, e);
    assert p in Cuts(st) && (e.boxid1 in Cuts(st) <==> st[e.boxid1] != Deleted);
    forall k | p < k < e.boxid2 ensures st[k] == Deleted {
      assert k !in Cuts(st);
    }
  }

  lemma ValuesWithout(stored: map<nat, Elem>, b: nat)
    requires b in stored && forall k | k in stored :: stored[k].boxid2 == k
    ensures (stored - {b}).Values == stored.Values - {stored[b]}
    ensures multiset((stored - {b}).Values) == multiset(stored.Values) - multiset{stored[b]}
  {
    assert forall k | k in stored && k != b :: k in stored - {b} && (stored - {b})[k] == stored[k];
  }

  lemma ValuesAdd(stored: map<nat, Elem>, b: nat, e: Elem)
    requires b !in stored && e.boxid2 == b && forall k | k in stored :: stored[k].boxid2 == k
    ensures multiset(stored[b := e].Values) == multiset(stored.Values) + multiset{e}
  {
    assert stored[b := e].Values == stored.Values + {e} by {
      assert b in stored[b := e];
      forall v | v in stored.Values ensures v in stored[b := e].Values {
        var k :| k in stored && stored[k] == v;
        assert k in stored[b := e] && stored[b := e][k] == v;
      }
    }
    assert e !in stored.Values;
  }

  lemma ValuesWith(stored: map<nat, Elem>, b: nat, e: Elem)
    requires b in stored && e.boxid2 == b && forall k | k in stored :: stored[k].boxid2 == k
    ensures multiset(stored[b := e].Values) == multiset(stored.Values) - multiset{stored[b]} + multiset{e}
  {
    ValuesWithout(stored, b);
    ValuesAdd(stored - {b}, b, e);
    assert stored[b := e] == (stored - {b})[b := e];
  }

  lemma KeyedByRun(segs: seq<Box>, pen: Penalty, st: seq<State>, boxes: seq<Box>, stored: map<nat, Elem>)
    requires Inv(segs, pen, st, boxes, stored)
    ensures forall k | k in stored :: stored[k].boxid2 == k
  {
    forall k | k in stored ensures stored[k].boxid2 == k {
      var p := Predecessor(Cuts(st), |st|, k, k - 1);
    }
  }

  /** A merge performed under the guard of the loop joins two neighbouring runs at their
      current penalty, and no stored penalty is smaller. */
  lemma MergeStepIsGreedy(segs: seq<Box>, pen: Penalty, s: LoopState, p: nat, b: nat) returns (c: nat)
    requires Inv(segs, pen, s.st, s.boxes, s.stored) && Pops(s, p, b) && Current(s, p, b)
    ensures Run(Cuts(s.st), |s.st|, b, c)
    ensures s.stored[b].penalty == pen(s.boxes[p], s.boxes[b]) == pen(Hull(segs, p, b), Hull(segs, b, c))
    ensures forall k | k in s.stored :: pen(s.boxes[p], s.boxes[b]) <= s.stored[k].penalty
  {
    c := Successor(Cuts(s.st), |s.st|, b, b + 1);
    assert EntryOk(s.st, s.boxes, pen, p, b, s.stored[b]);
  }

  lemma AfterMerge(segs: seq<Box>, pen: Penalty, st: seq<State>, boxes: seq<Box>, stored: map<nat, Elem>,
                   count: int, hist: seq<LoopState>, p: nat, b: nat)
    requires LoopInv(segs, pen, st, boxes, stored, count, hist)
    requires Run(Cuts(st), |st|, p, b) && b < |st| && RightFresh(st[p]) && LeftFresh(st[b])
    requires b in stored && forall e | e in multiset(stored.Values) :: stored[b].penalty <= e.penalty
    ensures LoopInv(segs, pen, Merged(st, p, b), MergedBoxes(boxes, p, b), stored - {b}, count - 1,
                    hist + [MergeRound(LoopState(st, boxes, stored), p, b)])
    ensures multiset((stored - {b}).Values) == multiset(stored.Values) - multiset{stored[b]}
  {
    LeastStored(st, boxes, stored, p, b);
    var s := LoopState(st, boxes, stored);
    RoundKeepsInv(segs, pen, s, MergeRound(s, p, b), p, b);
    HistoryGrows(segs, pen, hist, MergeRound(s, p, b), p, b);
    KeyedByRun(segs, pen, st, boxes, stored);
    ValuesWithout(stored, b);
  }

  lemma LeastStored(st: seq<State>, boxes: seq<Box>, stored: map<nat, Elem>, p: nat, b: nat)
    requires |boxes| == |st| && Run(Cuts(st), |st|, p, b) && b < |st|
    requires b in stored && forall e | e in multiset(stored.Values) :: stored[b].penalty <= e.penalty
    ensures Pops(LoopState(st, boxes, stored), p, b)
  {
    forall k | k in stored ensures stored[b].penalty <= stored[k].penalty {
      assert stored[k] in multiset(stored.Values);
    }
  }

  lemma AfterRefresh(segs: seq<Box>, pen: Penalty, st: seq<State>, boxes: seq<Box>, stored: map<nat, Elem>,
                     count: int, hist: seq<LoopState>, p: nat, b: nat)
    requires LoopInv(segs, pen, st, boxes, stored, count, hist)
    requires Run(Cuts(st), |st|, p, b) && b < |st| && (!RightFresh(st[p]) || !LeftFresh(st[b]))
    requires b in stored && forall e | e in multiset(stored.Values) :: stored[b].penalty <= e.penalty
    ensures var e := Elem(p, b, pen(boxes[p], boxes[b]));
            && LoopInv(segs, pen, Refreshed(st, p, b), boxes, stored[b := e], count,
                       hist + [RefreshRound(LoopState(st, boxes, stored), pen, p, b)])
            && multiset(stored[b := e].Values) == multiset(stored.Values) - multiset{stored[b]} + multiset{e}
  {
    LeastStored(st, boxes, stored, p, b);
    var s := LoopState(st, boxes, stored);
    RoundKeepsInv(segs, pen, s, RefreshRound(s, pen, p, b), p, b);
    HistoryGrows(segs, pen, hist, RefreshRound(s, pen, p, b), p, b);
    KeyedByRun(segs, pen, st, boxes, stored);
    ValuesWith(stored, b, Elem(p, b, pen(boxes[p], boxes[b])));
  }

  // ---- the state before the loop ----

  ghost function Candidates(boxes: seq<Box>, pen: Penalty, m: nat): map<nat, Elem>
    requires m < |boxes|
  {
    map b: nat | 1 <= b <= m :: Candidate(boxes, pen, b)
  }

  ghost function Candidate(boxes: seq<Box>, pen: Penalty, b: nat): Elem
    requires 1 <= b < |boxes|
  {
    Elem(b - 1, b, pen(boxes[b - 1], boxes[b]))
  }

  lemma NextCandidate(boxes: seq<Box>, pen: Penalty, m: nat)
    requires m + 1 < |boxes|
    ensures multiset(Candidates(boxes, pen, m + 1).Values)
            == multiset(Candidates(boxes, pen, m).Values) + multiset{Elem(m, m + 1, pen(boxes[m], boxes[m + 1]))}
  {
    var e := Elem(m, m + 1, pen(boxes[m], boxes[m + 1]));
    assert Candidates(boxes, pen, m + 1) == Candidates(boxes, pen, m)[m + 1 := e];
    ValuesAdd(Candidates(boxes, pen, m), m + 1, e);
  }

  lemma {:induction false} CountUpTo(n: nat)
    ensures |Cuts(seq(n, _ => OK))| == n
  {
    if n > 0 {
      CountUpTo(n - 1);
      assert Cuts(seq(n, _ => OK)) == Cuts(seq(n - 1, _ => OK)) + {n - 1};
    }
  }

  lemma InitialState(segs: seq<Box>, pen: Penalty, st: seq<State>)
    requires |segs| > 0 && st == seq(|segs|, _ => OK)
    ensures LoopInv(segs, pen, st, segs, Candidates(segs, pen, |segs| - 1), |segs|, [Start(segs, pen)])
  {
    StartKeepsInv(segs, pen);
  }

  // ---- reading off the result ----

  /** The live boxes below `m`, in order. */
  ghost function LiveList(st: seq<State>, m: nat): seq<nat>
    requires m <= |st|
  {
    if m == 0 then [] else
      LiveList(st, m - 1) + if st[m - 1] != Deleted then [m - 1] else []
  }

  ghost function CutsBelow(st: seq<State>, m: nat): set<nat>
    requires m <= |st|
  {
    set i: nat | i < m && st[i] != Deleted
  }

  lemma {:induction false} LiveListLength(st: seq<State>, m: nat)
    requires m <= |st|
    ensures |LiveList(st, m)| == |CutsBelow(st, m)| <= |Cuts(st)|
  {
    SmallerSet(CutsBelow(st, m), Cuts(st));
    if m > 0 {
      LiveListLength(st, m - 1);
      CutsBelowStep(st, m);
    }
  }

  lemma CutsBelowStep(st: seq<State>, m: nat)
    requires 0 < m <= |st|
    ensures CutsBelow(st, m) == CutsBelow(st, m - 1) + if st[m - 1] != Deleted then {m - 1} else {}
    ensures m - 1 !in CutsBelow(st, m - 1)
  {
  }

  lemma {:induction false} LiveListMembers(st: seq<State>, m: nat)
    requires m <= |st|
    ensures forall k :: k in LiveList(st, m) <==> k in CutsBelow(st, m)
  {
    if m > 0 {
      LiveListMembers(st, m - 1);
    }
  }

  lemma {:induction false} LiveListRuns(st: seq<State>, m: nat)
    requires 0 < m <= |st| && st[0] != Deleted
    ensures LiveList(st, m) != [] && LiveList(st, m)[0] == 0
    ensures forall k {:trigger RunEnd(LiveList(st, m), k, m)} | 0 <= k < |LiveList(st, m)| ::
              Run(CutsBelow(st, m), m, LiveList(st, m)[k], RunEnd(LiveList(st, m), k, m))
  {
    var l := LiveList(st, m);
    if m == 1 {
      assert LiveList(st, 0) == [];
    } else {
      LiveListRuns(st, m - 1);
      var l' := LiveList(st, m - 1);
      forall k | 0 <= k < |l| ensures Run(CutsBelow(st, m), m, l[k], RunEnd(l, k, m)) {
        if k < |l'| {
          assert Run(CutsBelow(st, m - 1), m - 1, l'[k], RunEnd(l', k, m - 1));
          assert m - 1 in CutsBelow(st, m) <==> st[m - 1] != Deleted;
          if k + 1 < |l'| {
            assert RunEnd(l, k, m) == l'[k + 1] == RunEnd(l', k, m - 1);
            assert Run(CutsBelow(st, m - 1), m - 1, l'[k + 1], RunEnd(l', k + 1, m - 1));
          } else {
            assert RunEnd(l', k, m - 1) == m - 1;
          }
          forall c: nat | l[k] < c < RunEnd(l, k, m) ensures c !in CutsBelow(st, m) {
            assert c < m - 1 ==> c !in CutsBelow(st, m - 1);
          }
        }
      }
    }
  }

  method FillHeap(boxes: array<Box>, n: nat, pen: Penalty) returns (heap: Heap)
    requires 0 < n <= boxes.Length
    ensures fresh(heap) && fresh(heap.elems) && heap.Valid() && heap.maxSize == heap.size == n - 1
    ensures multiset(heap.Contents()) == multiset(Candidates(boxes[..n], pen, n - 1).Values)
  {
    heap := new Heap(n - 1);
    var i := 0;
    while i < n - 1
      invariant 0 <= i <= n - 1
      invariant heap.Valid() && heap.size == i && heap.maxSize == n - 1 && fresh(heap) && fresh(heap.elems)
      invariant multiset(heap.Contents()) == multiset(Candidates(boxes[..n], pen, i).Values)
    {
      var elem := Elem(i, i + 1, pen(boxes[i], boxes[i + 1]));
      NextCandidate(boxes[..n], pen, i);
      heap.Insert(elem);
      i := i + 1;
    }
  }

  /** Merges the box of a current candidate into its left neighbour. */
  method Combine(boxes: array<Box>, states: array<State>, ghost pen: Penalty, elem: Elem, ghost count: nat,
                 ghost segs: seq<Box>, ghost stored: map<nat, Elem>, ghost hist: seq<LoopState>)
    returns (ghost hist': seq<LoopState>, ghost stored': map<nat, Elem>)
    requires states.Length <= boxes.Length && elem.boxid1 < elem.boxid2 < states.Length
    requires LoopInv(segs, pen, states[..], boxes[..states.Length], stored, count, hist)
    requires elem.boxid2 in stored && elem == stored[elem.boxid2]
    requires Run(Cuts(states[..]), states.Length, elem.boxid1, elem.boxid2)
    requires RightFresh(states[elem.boxid1]) && LeftFresh(states[elem.boxid2])
    requires forall e | e in multiset(stored.Values) :: elem.penalty <= e.penalty
    modifies boxes, states
    ensures LoopInv(segs, pen, states[..], boxes[..states.Length], stored', count - 1, hist')
    ensures multiset(stored'.Values) == multiset(stored.Values) - multiset{elem}
  {
    var b1, b2 := elem.boxid1, elem.boxid2;
    ghost var st, bs := states[..], boxes[..states.Length];
    boxes[b1] := Expand(boxes[b2], boxes[b1]);
    states[b1] := Changed;
    states[b2] := Deleted;
    assert states[..] == Merged(st, b1, b2) && boxes[..states.Length] == MergedBoxes(bs, b1, b2);
    hist' := hist + [MergeRound(LoopState(st, bs, stored), b1, b2)];
    stored' := stored - {b2};
    AfterMerge(segs, pen, st, bs, stored, count, hist, b1, b2);
  }

  /** Brings a popped candidate up to date; `p` is the true left neighbour of its run. */
  method Refresh(boxes: array<Box>, states: array<State>, elem: Elem, pen: Penalty, ghost p: nat, ghost count: nat,
                 ghost segs: seq<Box>, ghost stored: map<nat, Elem>, ghost hist: seq<LoopState>)
    returns (fresher: Elem, ghost stored': map<nat, Elem>, ghost hist': seq<LoopState>)
    requires states.Length <= boxes.Length && p <= elem.boxid1 < elem.boxid2 < states.Length
    requires LoopInv(segs, pen, states[..], boxes[..states.Length], stored, count, hist)
    requires elem.boxid2 in stored && elem == stored[elem.boxid2]
    requires Run(Cuts(states[..]), states.Length, p, elem.boxid2)
    requires states[p] != Deleted && states[elem.boxid2] != Deleted
    requires forall k | p < k < elem.boxid2 :: states[k] == Deleted
    requires states[elem.boxid1] == Deleted <==> !RightFresh(states[p])
    requires !RightFresh(states[p]) || !LeftFresh(states[elem.boxid2])
    requires forall e | e in multiset(stored.Values) :: elem.penalty <= e.penalty
    modifies states
    ensures LoopInv(segs, pen, states[..], boxes[..states.Length], stored', count, hist')
    ensures multiset(stored'.Values) == multiset(stored.Values) - multiset{elem} + multiset{fresher}
    ensures Staleness(states[..]) < old(Staleness(states[..]))
  {
    ghost var st := states[..];
    RefreshLessStale(st, p, elem.boxid2);
    AfterRefresh(segs, pen, st, boxes[..states.Length], stored, count, hist, p, elem.boxid2);
    fresher := Freshen(boxes, states, elem, pen, p);
    stored' := stored[elem.boxid2 := fresher];
    hist' := hist + [RefreshRound(LoopState(st, boxes[..states.Length], stored), pen, p, elem.boxid2)];
  }

  method Freshen(boxes: array<Box>, states: array<State>, elem: Elem, pen: Penalty, ghost p: nat) returns (fresher: Elem)
    requires p <= elem.boxid1 < elem.boxid2 < states.Length <= boxes.Length
    requires states[p] != Deleted && forall k | p < k < elem.boxid2 :: states[k] == Deleted
    requires states[elem.boxid1] == Deleted <==> !RightFresh(states[p])
    modifies states
    ensures states[..] == Refreshed(old(states[..]), p, elem.boxid2)
    ensures fresher == Elem(p, elem.boxid2, pen(boxes[p], boxes[elem.boxid2]))
  {
    var b1, b2 := elem.boxid1, elem.boxid2;
    if states[b1] == Deleted {
      var i := b1 - 1;
      while i >= 0
        invariant p <= i < b1
        invariant states[..] == old(states[..])
      {
        if states[i] == Changed || states[i] == OKChanged {
          b1 := i;
          states[i] := if states[i] == Changed then ChangedOK else OK;
          break;
        }
        i := i - 1;
      }
    }
    if states[b2] == Changed {
      states[b2] := OKChanged;
    } else if states[b2] == ChangedOK {
      states[b2] := OK;
    }
    fresher := Elem(b1, b2, pen(boxes[b1], boxes[b2]));
  }

  /** Merges the least candidate if it is current; if not, a fresher one is to be put back. */
  method Process(boxes: array<Box>, states: array<State>, elem: Elem, pen: Penalty, count: nat,
                 ghost segs: seq<Box>, ghost stored: map<nat, Elem>, ghost hist: seq<LoopState>)
    returns (again: bool, fresher: Elem, left: nat, ghost stored': map<nat, Elem>, ghost hist': seq<LoopState>)
    requires count > 0 && 0 < states.Length <= boxes.Length
    requires LoopInv(segs, pen, states[..], boxes[..states.Length], stored, count, hist)
    requires elem in multiset(stored.Values) && forall e | e in multiset(stored.Values) :: elem.penalty <= e.penalty
    modifies boxes, states
    ensures LoopInv(segs, pen, states[..], boxes[..states.Length], stored', left, hist')
    ensures left == if again then count else count - 1
    ensures multiset(stored'.Values) == multiset(stored.Values) - multiset{elem} + if again then multiset{fresher} else multiset{}
    ensures again ==> Staleness(states[..]) < old(Staleness(states[..]))
  {
    hist', fresher, left := hist, elem, count;
    assert elem in stored.Values;
    ghost var p := Popped(segs, pen, states[..], boxes[..states.Length], stored, elem);
    var b1, b2 := elem.boxid1, elem.boxid2;
    if (states[b1] == OK || states[b1] == ChangedOK) && (states[b2] == OK || states[b2] == OKChanged) {
      again := false;
      left := count - 1;
      hist', stored' := Combine(boxes, states, pen, elem, count, segs, stored, hist);
    } else {
      again := true;
      fresher, stored', hist' := Refresh(boxes, states, elem, pen, p, count, segs, stored, hist);
    }
  }

  /** One round of the loop: the least candidate is merged if it is current, and
      otherwise recomputed and put back. Fails exactly when one box is left. */
  method Step(boxes: array<Box>, states: array<State>, heap: Heap, pen: Penalty, count: nat,
              ghost segs: seq<Box>, ghost stored: map<nat, Elem>, ghost hist: seq<LoopState>)
    returns (ok: bool, left: nat, ghost stored': map<nat, Elem>, ghost hist': seq<LoopState>)
    requires states.Length == heap.maxSize + 1 <= boxes.Length && heap.Valid() && heap.size + 1 == count
    requires multiset(heap.Contents()) == multiset(stored.Values)
    requires LoopInv(segs, pen, states[..], boxes[..states.Length], stored, count, hist)
    modifies boxes, states, heap`size, heap.elems
    ensures heap.Valid() && heap.size + 1 == left && multiset(heap.Contents()) == multiset(stored'.Values)
    ensures LoopInv(segs, pen, states[..], boxes[..states.Length], stored', left, hist')
    ensures ok <==> count > 1
    ensures ok ==> left == count - 1 || (left == count && Staleness(states[..]) < old(Staleness(states[..])))
    ensures !ok ==> left == count
  {
    left, stored', hist' := count, stored, hist;
    var elem;
    ok, elem := heap.DeleteMin();
    if !ok {
      return;
    }
    assert states[..] == old(states[..]) && boxes[..states.Length] == old(boxes[..states.Length]);
    ghost var rest := heap.Contents();
    var again, fresher;
    again, fresher, left, stored', hist' := Process(boxes, states, elem, pen, count, segs, stored, hist);
    assert heap.Contents() == rest && heap.Valid();
    if again {
      heap.Insert(fresher);
    }
  }

  /** Every box its own run, with a current candidate for each pair of neighbours. */
  method Initialize(boxes: array<Box>, n: nat, pen: Penalty)
    returns (states: array<State>, heap: Heap, ghost stored: map<nat, Elem>)
    requires 0 < n <= boxes.Length
    ensures fresh(states) && fresh(heap) && fresh(heap.elems) && states.Length == n == heap.maxSize + 1
    ensures heap.Valid() && heap.size + 1 == n && multiset(heap.Contents()) == multiset(stored.Values)
    ensures LoopInv(boxes[..n], pen, states[..], boxes[..n], stored, n, [Start(boxes[..n], pen)])
  {
    states := new State[n](_ => OK);
    heap := FillHeap(boxes, n, pen);
    stored := Candidates(boxes[..n], pen, n - 1);
    assert states[..] == seq(n, _ => OK);
    InitialState(boxes[..n], pen, states[..]);
  }

  /** Merges the first `n` boxes until at most `maxCount` are left or only one is. */
  method MergeLoop(boxes: array<Box>, n: nat, pen: Penalty, maxCount: int)
    returns (result: seq<Box>, ghost starts: seq<nat>, ghost hist: seq<LoopState>)
    requires 0 < n <= boxes.Length && maxCount < n
    modifies boxes
    ensures |result| == if maxCount <= 1 then 1 else maxCount
    ensures Partition(old(boxes[..n]), starts, result)
    ensures RunTo(old(boxes[..n]), pen, hist, (set k | k in starts))
  {
    ghost var segs := boxes[..n];
    var count := n;
    var states, heap;
    ghost var stored;
    states, heap, stored := Initialize(boxes, n, pen);
    hist := [Start(segs, pen)];
    while count > maxCount
      invariant heap.Valid() && heap.size + 1 == count && multiset(heap.Contents()) == multiset(stored.Values)
      invariant fresh(heap.elems)
      invariant LoopInv(segs, pen, states[..], boxes[..n], stored, count, hist)
      invariant count >= maxCount && count <= n
      decreases count, Staleness(states[..])
    {
      var ok;
      ok, count, stored, hist := Step(boxes, states, heap, pen, count, segs, stored, hist);
      if !ok {
        break;
      }
    }
    result, starts := Finish(boxes, states, pen, count, segs, stored, hist);
  }

  method Finish(boxes: array<Box>, states: array<State>, ghost pen: Penalty, count: nat,
                ghost segs: seq<Box>, ghost stored: map<nat, Elem>, ghost hist: seq<LoopState>)
    returns (result: seq<Box>, ghost starts: seq<nat>)
    requires states.Length <= boxes.Length
    requires LoopInv(segs, pen, states[..], boxes[..states.Length], stored, count, hist)
    ensures |result| == count && Partition(segs, starts, result)
    ensures RunTo(segs, pen, hist, (set k | k in starts))
  {
    result, starts := Collect(boxes, states, states.Length, count);
    RunsGivePartition(segs, pen, boxes[..states.Length], states[..], stored, count, hist, starts, result);
  }

  lemma RunsGivePartition(segs: seq<Box>, pen: Penalty, boxes: seq<Box>, st: seq<State>, stored: map<nat, Elem>, count: nat,
                          hist: seq<LoopState>, starts: seq<nat>, result: seq<Box>)
    requires LoopInv(segs, pen, st, boxes, stored, count, hist)
    requires starts == LiveList(st, |st|) && |result| == |starts|
    requires forall k | 0 <= k < |starts| :: starts[k] < |boxes| && result[k] == boxes[starts[k]]
    ensures Partition(segs, starts, result)
    ensures RunTo(segs, pen, hist, (set k | k in starts))
  {
    LiveListMembers(st, |st|);
    LiveListRuns(st, |st|);
    assert CutsBelow(st, |st|) == Cuts(st);
    assert (set k | k in starts) == Cuts(st);
    forall k | 0 <= k < |starts| ensures result[k] == Hull(segs, starts[k], RunEnd(starts, k, |segs|)) {
      assert Run(Cuts(st), |st|, starts[k], RunEnd(starts, k, |st|));
    }
  }

  /** Copies the boxes that are not deleted, in order. */
  method Collect(boxes: array<Box>, states: array<State>, n: nat, count: nat) returns (result: seq<Box>, ghost starts: seq<nat>)
    requires states.Length == n <= boxes.Length && count == |Cuts(states[..])|
    ensures |result| == |starts| == count
    ensures starts == LiveList(states[..], |states[..]|)
    ensures forall k | 0 <= k < count :: starts[k] < n && result[k] == boxes[..n][starts[k]]
  {
    ghost var st := states[..];
    var copy := new Box[count](_ => Box(Span(0.0, 0.0), Span(0.0, 0.0), Span(0.0, 0.0), Span(0.0, 0.0)));
    var i, k := 0, 0;
    starts := [];
    while i < n
      invariant 0 <= i <= n && k == |starts| <= count
      invariant states[..] == st && starts == LiveList(st, i)
      invariant forall j | 0 <= j < k :: starts[j] < n && copy[j] == boxes[starts[j]]
    {
      LiveListLength(st, i + 1);
      if states[i] != Deleted {
        copy[k] := boxes[i];
        starts := starts + [i];
        k := k + 1;
      }
      i := i + 1;
    }
    LiveListLength(st, n);
    assert CutsBelow(st, n) == Cuts(st);
    result := copy[..];
  }

  /** The boxes of the segments between consecutive instants, in the first places of the array. */
  method SegmentBoxes(insts: seq<Box>) returns (boxes: array<Box>)
    requires |insts| > 0
    ensures fresh(boxes) && boxes.Length == |insts|
    ensures boxes[..|insts| - 1] == Segments(insts)
  {
    var count := |insts| - 1;
    boxes := new Box[|insts|](i requires 0 <= i < |insts| => insts[i]);
    var i := 0;
    while i < count
      invariant 0 <= i <= count
      invariant forall k | 0 <= k < i :: boxes[k] == Expand(insts[k + 1], insts[k])
      invariant forall k | i <= k < |insts| :: boxes[k] == insts[k]
    {
      boxes[i] := Expand(boxes[i + 1], boxes[i]);
      i := i + 1;
    }
  }

  /** At most `maxCount` boxes, or one if that is not positive: exactly that many
      unless the trajectory has fewer segments. */
  method MergeSplit(insts: seq<Box>, pen: Penalty, maxCount: int)
    returns (result: seq<Box>, ghost starts: seq<nat>, ghost hist: seq<LoopState>)
    requires |insts| > 0
    ensures |result| == if maxCount <= 1 || |insts| == 1 then 1 else if |insts| - 1 <= maxCount then |insts| - 1 else maxCount
    ensures InstantPartition(insts, starts, result)
    ensures |insts| > 1 && maxCount != 1 ==> RunTo(Segments(insts), pen, hist, (set k | k in starts))
  {
    hist, starts := [], [0];
    if |insts| == 1 || maxCount == 1 {
      return [HullOfAll(insts)], starts, hist;
    }
    var count := |insts| - 1;
    var boxes := SegmentBoxes(insts);
    if count <= maxCount {
      starts, hist := Identity(count), [Start(Segments(insts), pen)];
      result := boxes[..count];
      SingleSegments(Segments(insts), pen);
      PartitionOfInstants(insts, starts, result);
      return;
    }
    ghost var segs := boxes[..count];
    assert segs == Segments(insts);
    result, starts, hist := MergeLoop(boxes, count, pen, maxCount);
    assert Partition(segs, starts, result);
    PartitionOfInstants(insts, starts, result);
  }

  ghost function Identity(n: nat): seq<nat> { seq(n, i => i) }

  lemma SingleSegments(segs: seq<Box>, pen: Penalty)
    requires |segs| > 0
    ensures Partition(segs, Identity(|segs|), segs)
    ensures RunTo(segs, pen, [Start(segs, pen)], (set k | k in Identity(|segs|)))
  {
    var starts := Identity(|segs|);
    forall k: nat | k < |segs| ensures k in starts {
      assert starts[k] == k;
    }
    assert (set k | k in starts) == Cuts(seq(|segs|, _ => OK));
  }

  /** The bounding box stored with the trajectory. */
  function HullOfAll(insts: seq<Box>): (h: Box)
    requires |insts| > 0
    ensures h == Hull(insts, 0, |insts|)
  {
    if |insts| == 1 then insts[0] else
      var m := |insts| - 1;
      HullOfPrefix(insts, m);
      Expand(insts[m], HullOfAll(insts[..m]))
  }

  lemma {:induction false} HullOfPrefix(insts: seq<Box>, m: nat)
    requires 0 < m <= |insts|
    ensures Hull(insts[..m], 0, m) == Hull(insts, 0, m)
  {
    SameHull(insts[..m], insts, m);
  }

  lemma {:induction false} SameHull(a: seq<Box>, b: seq<Box>, m: nat)
    requires 0 < m <= |a| && m <= |b| && forall k | 0 <= k < m :: a[k] == b[k]
    ensures Hull(a, 0, m) == Hull(b, 0, m)
  {
    if m > 1 {
      SameHull(a, b, m - 1);
    }
  }

  /** About one box for `segsPerBox` instants. The dividend is positive, so Dafny's
      quotient is the truncated one for either sign of the divisor. */
  method AdaptSplit(insts: seq<Box>, pen: Penalty, segsPerBox: int)
    returns (result: seq<Box>, ghost starts: seq<nat>, ghost hist: seq<LoopState>)
    requires |insts| > 0 && segsPerBox != 0
    ensures |result| == if segsPerBox < 0 || |insts| < 2 * segsPerBox || |insts| == 1 then 1
                        else if segsPerBox == 1 then |insts| - 1 else |insts| / segsPerBox
    ensures InstantPartition(insts, starts, result)
    ensures |insts| / segsPerBox > 1 && |insts| > 1 ==> RunTo(Segments(insts), pen, hist, (set k | k in starts))
  {
    var maxCount := |insts| / segsPerBox;
    QuotientFacts(|insts|, segsPerBox);
    result, starts, hist := MergeSplit(insts, pen, if maxCount <= 1 then 1 else maxCount);
  }

  lemma QuotientFacts(a: nat, b: int)
    requires a > 0 && b != 0
    ensures a / b <= 1 <==> b < 0 || a < 2 * b
    ensures b == 1 ==> a / b == a
    ensures b >= 2 && a >= 2 ==> a / b <= a - 1
  {
    if b < 0 {
      assert a / b <= 0;
    } else if a >= 2 * b {
      assert a / b >= 2;
    }
  }
}
