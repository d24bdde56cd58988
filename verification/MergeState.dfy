/** What the merge loop of the merge and adaptive splitters keeps: the runs of
    merged segments, the freshness flags, and one stored candidate per run. */
module MergeState {
  import opened Boxes
  import opened MinHeap

  /** The first half of the name is the state of the left side (the candidate that
      merges this box into its left neighbour), the second that of the right side. */
  datatype State = OK | Changed | ChangedOK | OKChanged | Deleted

  predicate RightFresh(s: State) { s == OK || s == ChangedOK }

  predicate LeftFresh(s: State) { s == OK || s == OKChanged }

  function FreshenRight(s: State): State { if s == Changed then ChangedOK else OK }

  function FreshenLeft(s: State): State {
    match s
    case Changed => OKChanged
    case ChangedOK => OK
    case _ => s
  }

  type Penalty = (Box, Box) -> real

  /** First segments of the runs. */
  ghost function Cuts(st: seq<State>): set<nat> { set i: nat | i < |st| && st[i] != Deleted }

  /** `i` starts a run that ends just before `j`. */
  ghost predicate Run(cuts: set<nat>, n: nat, i: nat, j: nat) {
    && i in cuts && i < j <= n
    && (j < n ==> j in cuts)
    && forall k: nat | i < k < j :: k !in cuts
  }

  /** The candidate stored for the run starting at `b`, whose left neighbour starts at `p`. */
  ghost predicate EntryOk(st: seq<State>, boxes: seq<Box>, pen: Penalty, p: nat, b: nat, e: Elem)
    requires p < b < |st| == |boxes|
  {
    && e.boxid2 == b
    && (if RightFresh(st[p])
        then e.boxid1 == p && (LeftFresh(st[b]) ==> e.penalty == pen(boxes[p], boxes[b]))
        else p < e.boxid1 < b)
  }

  ghost predicate Inv(segs: seq<Box>, pen: Penalty, st: seq<State>, boxes: seq<Box>, stored: map<nat, Elem>) {
    && |segs| == |st| == |boxes| > 0
    && st[0] != Deleted
    && stored.Keys == Cuts(st) - {0}
    && (forall i: nat, j: nat | Run(Cuts(st), |st|, i, j) :: boxes[i] == Hull(segs, i, j))
    && (forall p: nat, b: nat | Run(Cuts(st), |st|, p, b) && b < |st| :: EntryOk(st, boxes, pen, p, b, stored[b]))
  }

  /** Box inclusion never makes a merge cheaper. */
  ghost predicate Monotone(pen: Penalty) {
    forall a, a', b, b' | Covers(a', a) && Covers(b', b) :: pen(a, b) <= pen(a', b')
  }

  /** No stored penalty exceeds the current one. */
  ghost predicate Underestimates(st: seq<State>, boxes: seq<Box>, pen: Penalty, stored: map<nat, Elem>)
    requires |st| == |boxes|
  {
    forall p: nat, b: nat | Run(Cuts(st), |st|, p, b) && b < |st| && b in stored :: stored[b].penalty <= pen(boxes[p], boxes[b])
  }

  lemma {:induction false} Predecessor(cuts: set<nat>, n: nat, b: nat, from: nat) returns (p: nat)
    requires 0 in cuts && from < b <= n && (b < n ==> b in cuts)
    requires forall k: nat | from < k < b :: k !in cuts
    ensures Run(cuts, n, p, b)
  {
    p := from;
    if p !in cuts {
      p := Predecessor(cuts, n, b, from - 1);
    }
  }

  lemma {:induction false} Successor(cuts: set<nat>, n: nat, i: nat, to: nat) returns (j: nat)
    requires i in cuts && i < to <= n
    requires forall k: nat | i < k < to :: k !in cuts
    ensures Run(cuts, n, i, j)
    decreases n - to
  {
    j := to;
    if j < n && j !in cuts {
      j := Successor(cuts, n, i, to + 1);
    }
  }

  lemma RunIsUnique(cuts: set<nat>, n: nat, i: nat, j: nat, i': nat, j': nat)
    requires Run(cuts, n, i, j) && Run(cuts, n, i', j')
    ensures i == i' <==> j == j'
  {
  }

  // ---- one merge ----

  function Merged(st: seq<State>, p: nat, b: nat): seq<State>
    requires p < b < |st|
  {
    st[p := Changed][b := Deleted]
  }

  function MergedBoxes(boxes: seq<Box>, p: nat, b: nat): seq<Box>
    requires p < b < |boxes|
  {
    boxes[p := Expand(boxes[b], boxes[p])]
  }

  /** Each run after a merge is an old run, or the union of the two merged ones. */
  lemma RunsAfterMerge(cuts: set<nat>, n: nat, p: nat, b: nat, c: nat, i: nat, j: nat)
    requires Run(cuts, n, p, b) && Run(cuts, n, b, c) && b < n
    requires Run(cuts - {b}, n, i, j)
    ensures (i == p && j == c) || (i != p && i != b && j != b && j != c && Run(cuts, n, i, j))
  {
    assert p in cuts - {b} && b !in cuts - {b};
    if i == p {
      assert c < n ==> c in cuts - {b};
      assert !(p < c < j);
      assert !(p < j < b) && !(b < j < c);
    } else if i < p {
      assert !(i < p < j);
    } else {
      assert !(p < i < b) && !(b < i < c);
      forall k: nat | i < k < j ensures k !in cuts { assert k !in cuts - {b}; }
    }
    if i < p {
      forall k: nat | i < k < j ensures k !in cuts { assert k !in cuts - {b}; }
    }
  }

  lemma MergeKeepsInv(segs: seq<Box>, pen: Penalty, st: seq<State>, boxes: seq<Box>, stored: map<nat, Elem>, p: nat, b: nat)
    requires Inv(segs, pen, st, boxes, stored)
    requires Run(Cuts(st), |st|, p, b) && b < |st|
    ensures Cuts(Merged(st, p, b)) == Cuts(st) - {b}
    ensures Inv(segs, pen, Merged(st, p, b), MergedBoxes(boxes, p, b), stored - {b})
  {
    var st', boxes', stored' := Merged(st, p, b), MergedBoxes(boxes, p, b), stored - {b};
    var n, cuts := |st|, Cuts(st);
    assert Cuts(st') == cuts - {b};
    var c := Successor(cuts, n, b, b + 1);
    HullJoin(segs, p, b, c);
    forall i: nat, j: nat | Run(cuts - {b}, n, i, j) ensures boxes'[i] == Hull(segs, i, j) {
      RunsAfterMerge(cuts, n, p, b, c, i, j);
    }
    forall q: nat, d: nat | Run(cuts - {b}, n, q, d) && d < n ensures EntryOk(st', boxes', pen, q, d, stored'[d]) {
      RunsAfterMerge(cuts, n, p, b, c, q, d);
      if q == p {
        assert EntryOk(st, boxes, pen, b, c, stored[c]);
      } else {
        assert EntryOk(st, boxes, pen, q, d, stored[d]);
      }
    }
  }

  lemma MergeKeepsUnderestimates(segs: seq<Box>, pen: Penalty, st: seq<State>, boxes: seq<Box>, stored: map<nat, Elem>,
                                 p: nat, b: nat)
    requires Inv(segs, pen, st, boxes, stored) && Monotone(pen)
    requires Underestimates(st, boxes, pen, stored)
    requires Run(Cuts(st), |st|, p, b) && b < |st|
    ensures Underestimates(Merged(st, p, b), MergedBoxes(boxes, p, b), pen, stored - {b})
  {
    var st', boxes', stored' := Merged(st, p, b), MergedBoxes(boxes, p, b), stored - {b};
    var n, cuts := |st|, Cuts(st);
    assert Cuts(st') == cuts - {b};
    var c := Successor(cuts, n, b, b + 1);
    forall q: nat, d: nat | Run(cuts - {b}, n, q, d) && d < n && d in stored'
      ensures stored'[d].penalty <= pen(boxes'[q], boxes'[d])
    {
      RunsAfterMerge(cuts, n, p, b, c, q, d);
      if q == p {
        assert stored[c].penalty <= pen(boxes[b], boxes[c]);
        assert Covers(boxes'[p], boxes[b]) && Covers(boxes[c], boxes[c]);
      } else {
        assert stored[d].penalty <= pen(boxes[q], boxes[d]);
        assert Covers(boxes'[q], boxes[q]) && Covers(boxes'[d], boxes[d]);
      }
    }
  }

  // ---- one refresh ----

  ghost function LeftStale(st: seq<State>): set<nat> { set i: nat | i < |st| && (st[i] == Changed || st[i] == ChangedOK) }

  ghost function RightStale(st: seq<State>): set<nat> { set i: nat | i < |st| && (st[i] == Changed || st[i] == OKChanged) }

  /** How many flags are stale. */
  ghost function Staleness(st: seq<State>): nat { |LeftStale(st)| + |RightStale(st)| }

  /** Flags of `p` (right) and `b` (left) are brought up to date, as far as they are stale. */
  function Refreshed(st: seq<State>, p: nat, b: nat): seq<State>
    requires p < b < |st|
  {
    var s := if RightFresh(st[p]) then st else st[p := FreshenRight(st[p])];
    s[b := FreshenLeft(s[b])]
  }

  lemma RefreshKeepsInv(segs: seq<Box>, pen: Penalty, st: seq<State>, boxes: seq<Box>, stored: map<nat, Elem>, p: nat, b: nat)
    requires Inv(segs, pen, st, boxes, stored)
    requires Run(Cuts(st), |st|, p, b) && b < |st|
    ensures Cuts(Refreshed(st, p, b)) == Cuts(st)
    ensures Inv(segs, pen, Refreshed(st, p, b), boxes, stored[b := Elem(p, b, pen(boxes[p], boxes[b]))])
  {
    var st', stored' := Refreshed(st, p, b), stored[b := Elem(p, b, pen(boxes[p], boxes[b]))];
    var n, cuts := |st|, Cuts(st);
    assert Cuts(st') == cuts;
    forall q: nat, d: nat | Run(cuts, n, q, d) && d < n ensures EntryOk(st', boxes, pen, q, d, stored'[d]) {
      RunIsUnique(cuts, n, p, b, q, d);
      assert EntryOk(st, boxes, pen, q, d, stored[d]);
    }
  }

  lemma RefreshKeepsUnderestimates(st: seq<State>, boxes: seq<Box>, pen: Penalty, stored: map<nat, Elem>, p: nat, b: nat)
    requires |st| == |boxes| && Run(Cuts(st), |st|, p, b) && b < |st|
    requires Underestimates(st, boxes, pen, stored)
    ensures Underestimates(Refreshed(st, p, b), boxes, pen, stored[b := Elem(p, b, pen(boxes[p], boxes[b]))])
  {
    var st' := Refreshed(st, p, b);
    assert Cuts(st') == Cuts(st);
    forall q: nat, d: nat | Run(Cuts(st), |st|, q, d) && d < |st| && d == b ensures q == p {
      RunIsUnique(Cuts(st), |st|, p, b, q, d);
    }
  }

  lemma SmallerSet(a: set<nat>, b: set<nat>)
    requires a <= b
    ensures |a| <= |b|
    ensures a != b ==> |a| < |b|
  {
    assert |b| == |a| + |b - a| by { assert b == a + (b - a); }
  }

  lemma RefreshLessStale(st: seq<State>, p: nat, b: nat)
    requires p < b < |st| && st[p] != Deleted && st[b] != Deleted
    requires !RightFresh(st[p]) || !LeftFresh(st[b])
    ensures Staleness(Refreshed(st, p, b)) < Staleness(st)
  {
    var st' := Refreshed(st, p, b);
    SmallerSet(LeftStale(st'), LeftStale(st));
    SmallerSet(RightStale(st'), RightStale(st));
    if !RightFresh(st[p]) {
      assert p in RightStale(st) && p !in RightStale(st');
    } else {
      assert b in LeftStale(st) && b !in LeftStale(st');
    }
  }
}
