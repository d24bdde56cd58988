/** The two one-pass splitters: the query-driven splitter of trajectories and the
    splitter of geometric paths. */
module LinearSplit {
  import opened Boxes
  import opened MergeSplit

  /** `starts` begins the runs found so far, which end at instant `u`; a run may still follow. */
  ghost predicate Prefix(insts: seq<Box>, starts: seq<nat>, boxes: seq<Box>, u: nat)
    requires u < |insts|
  {
    && |boxes| == |starts| <= u
    && (if starts == [] then u == 0 else Starts(starts, u))
    && forall k {:trigger boxes[k]} | 0 <= k < |starts| ::
         starts[k] < RunEnd(starts, k, u) <= u && boxes[k] == Hull(insts, starts[k], RunEnd(starts, k, u) + 1)
  }

  lemma ExtendPrefix(insts: seq<Box>, starts: seq<nat>, boxes: seq<Box>, u: nat, w: nat)
    requires u < w < |insts| && Prefix(insts, starts, boxes, u)
    ensures Prefix(insts, starts + [u], boxes + [Hull(insts, u, w + 1)], w)
  {
    var starts', boxes' := starts + [u], boxes + [Hull(insts, u, w + 1)];
    forall k | 0 <= k < |starts'|
      ensures starts'[k] < RunEnd(starts', k, w) <= w
      ensures boxes'[k] == Hull(insts, starts'[k], RunEnd(starts', k, w) + 1)
    {
      if k < |starts| {
        assert RunEnd(starts', k, w) == RunEnd(starts, k, u);
        assert boxes[k] == boxes'[k];
      }
    }
  }

  // ---- where the trajectory is cut ----

  /** The size of the pieces into which a run of `n` segments is cut. */
  function PieceSize(solve: (Box, nat) -> int, box: Box, n: nat): (c: nat)
    ensures c >= 1
  {
    if solve(box, n) >= 1 then solve(box, n) else 1
  }

  /** Whether the run pending from `u` is cut when instant `v` is reached. */
  ghost predicate CutAt(insts: seq<Box>, cost: (Box, Box) -> real, u: nat, v: nat)
    requires u < v < |insts| - 1
  {
    cost(Hull(insts, u, v + 1), Hull(insts, v, v + 2)) > 0.0
  }

  /** The instants up to `n` beyond `u` that end a piece of `c` segments. */
  ghost function CutPoints(u: nat, c: nat, n: nat): (r: seq<nat>)
    requires c >= 1
    ensures r != [] ==> r[|r| - 1] <= u + n
  {
    if n == 0 then [] else CutPoints(u, c, n - 1) + if n % c == 0 then [u + n] else []
  }

  lemma {:induction false} InCutPoints(u: nat, c: nat, n: nat, x: nat)
    requires c >= 1
    ensures x in CutPoints(u, c, n) <==> u < x <= u + n && (x - u) % c == 0
  {
    if n > 0 { InCutPoints(u, c, n - 1, x); }
  }

  /** As many as there are whole pieces, and the last where these end. */
  lemma {:induction false} CutPointsEnd(u: nat, c: nat, n: nat)
    requires c >= 1
    ensures |CutPoints(u, c, n)| == n / c
    ensures ([u] + CutPoints(u, c, n))[n / c] == u + n / c * c
  {
    if n > 0 {
      CutPointsEnd(u, c, n - 1);
      NextMultiple(n, c);
    } else {
      QuotientIs(0, c, 0, 0);
    }
  }

  /** The starts that instant `v` adds while a run is pending from `u`. */
  ghost function NewStarts(insts: seq<Box>, cost: (Box, Box) -> real, solve: (Box, nat) -> int, u: nat, v: nat): (r: seq<nat>)
    requires u < v < |insts| - 1
    ensures r != [] ==> r[|r| - 1] <= v
  {
    if !CutAt(insts, cost, u, v) then [] else
      var c := PieceSize(solve, Hull(insts, u, v + 1), v - u);
      CutPoints(u, c, v - u)
  }

  /** Where runs start, as decided when instant `v` is reached; the last run is pending. */
  ghost function RunStarts(insts: seq<Box>, cost: (Box, Box) -> real, solve: (Box, nat) -> int, v: nat): (r: seq<nat>)
    requires 1 <= v < |insts|
    ensures r != [] && r[|r| - 1] < v
    decreases v
  {
    if v == 1 then [0] else
      var before := RunStarts(insts, cost, solve, v - 1);
      before + NewStarts(insts, cost, solve, before[|before| - 1], v - 1)
  }

  /** The start of the run that is pending when instant `v` is reached. */
  ghost function Pending(insts: seq<Box>, cost: (Box, Box) -> real, solve: (Box, nat) -> int, v: nat): (u: nat)
    requires 1 <= v < |insts|
    ensures u < v
  {
    var starts := RunStarts(insts, cost, solve, v);
    starts[|starts| - 1]
  }

  /** At instant `v` a run is cut exactly if its widening costs more than it saves; then the
      pieces start one after the other, as far as they reach. */
  lemma CutRule(insts: seq<Box>, cost: (Box, Box) -> real, solve: (Box, nat) -> int, u: nat, v: nat, c: nat, x: nat)
    requires 1 <= v < |insts| - 1 && u == Pending(insts, cost, solve, v)
    requires var k := solve(Hull(insts, u, v + 1), v - u); c == if k >= 1 then k else 1
    ensures x in RunStarts(insts, cost, solve, v + 1) <==>
              || x in RunStarts(insts, cost, solve, v)
              || (cost(Hull(insts, u, v + 1), Hull(insts, v, v + 2)) > 0.0 && u < x <= v && (x - u) % c == 0)
  {
    NewStart(insts, cost, solve, u, v, c, x);
  }

  lemma NewStart(insts: seq<Box>, cost: (Box, Box) -> real, solve: (Box, nat) -> int, u: nat, v: nat, c: nat, x: nat)
    requires u < v < |insts| - 1 && c == PieceSize(solve, Hull(insts, u, v + 1), v - u)
    ensures x in NewStarts(insts, cost, solve, u, v) <==> CutAt(insts, cost, u, v) && u < x <= v && (x - u) % c == 0
  {
    InCutPoints(u, c, v - u, x);
  }

  /** Without a positive cost the trajectory is not cut. */
  lemma {:induction false} NeverCut(insts: seq<Box>, cost: (Box, Box) -> real, solve: (Box, nat) -> int, v: nat)
    requires 1 <= v < |insts| && forall a: Box, b: Box :: cost(a, b) <= 0.0
    ensures RunStarts(insts, cost, solve, v) == [0]
    decreases v
  {
    if v > 1 { NeverCut(insts, cost, solve, v - 1); }
  }

  /** It gets the one box around all its instants. */
  lemma UncutIsOneHull(insts: seq<Box>, cost: (Box, Box) -> real, solve: (Box, nat) -> int, starts: seq<nat>, boxes: seq<Box>)
    requires |insts| > 1 && InstantPartition(insts, starts, boxes) && starts == RunStarts(insts, cost, solve, |insts| - 1)
    requires forall a: Box, b: Box :: cost(a, b) <= 0.0
    ensures boxes == [Hull(insts, 0, |insts|)]
  {
    NeverCut(insts, cost, solve, |insts| - 1);
    assert boxes[0] == Hull(insts, 0, |insts|);
  }

  method Store(out: array<Box>, count: nat, b: Box)
    requires count < out.Length
    modifies out
    ensures out[..count + 1] == old(out[..count]) + [b]
  {
    out[count] := b;
  }

  /** Splits the pending run `u..v` into pieces of `c` segments; the rest stays pending. */
  method SplitRun(insts: seq<Box>, u: nat, v: nat, c: nat, out: array<Box>, count0: nat, ghost starts0: seq<nat>)
    returns (count: nat, u': nat, box1: Box, ghost starts: seq<nat>)
    requires u < v < |insts| - 1 && c >= 1 && out.Length == |insts| - 1
    requires count0 <= u && Prefix(insts, starts0, out[..count0], u)
    modifies out
    ensures u <= u' <= v && count <= u' && Prefix(insts, starts, out[..count], u')
    ensures box1 == Hull(insts, u', v + 1)
    ensures starts + [u'] == starts0 + [u] + CutPoints(u, c, v - u)
    ensures u' == u + (v - u) / c * c && count == count0 + (v - u) / c
  {
    count, u', box1, starts := CutPieces(insts, u, v, c, out, count0, starts0);
    CutPointsEnd(u, c, v - u);
    LastPiece(starts, u', starts0, u, CutPoints(u, c, v - u));
  }

  method CutPieces(insts: seq<Box>, u: nat, v: nat, c: nat, out: array<Box>, count0: nat, ghost starts0: seq<nat>)
    returns (count: nat, u': nat, box1: Box, ghost starts: seq<nat>)
    requires u < v < |insts| - 1 && c >= 1 && out.Length == |insts| - 1
    requires count0 <= u && Prefix(insts, starts0, out[..count0], u)
    modifies out
    ensures u <= u' && PieceInv(insts, u', v + 1, out[..], count, box1, starts)
    ensures starts + [u'] == starts0 + [u] + CutPoints(u, c, v - u)
  {
    count, starts, u' := count0, starts0, u;
    box1 := insts[u];
    var i := 1;
    while i < v - u + 1
      invariant 1 <= i <= v - u + 1
      invariant Cutting(insts, u, c, i, out[..], count, u', box1, starts0, starts)
    {
      count, u', box1, starts := NextSegment(insts, u, c, i, out, count, u', box1, starts0, starts);
      i := i + 1;
    }
  }

  /** The segments before number `i` of the run from `u` on are cut into pieces. */
  ghost predicate Cutting(insts: seq<Box>, u: nat, c: nat, i: nat, out: seq<Box>, count: nat, u': nat, box1: Box,
                          starts0: seq<nat>, starts: seq<nat>)
    requires c >= 1 && i >= 1
  {
    && u <= u' && PieceInv(insts, u', u + i, out, count, box1, starts)
    && starts + [u'] == starts0 + [u] + CutPoints(u, c, i - 1)
  }

  method NextSegment(insts: seq<Box>, u: nat, c: nat, i: nat, out: array<Box>, count: nat, start: nat, box: Box,
                     ghost starts0: seq<nat>, ghost starts: seq<nat>)
    returns (count': nat, start': nat, box': Box, ghost starts': seq<nat>)
    requires c >= 1 && i >= 1 && u + i < |insts| && out.Length == |insts| - 1
    requires Cutting(insts, u, c, i, out[..], count, start, box, starts0, starts)
    modifies out
    ensures Cutting(insts, u, c, i + 1, out[..], count', start', box', starts0, starts')
  {
    var full := i % c == 0;
    count', start', box', starts' := AddSegment(insts, start, u + i, full, out, count, box, starts);
    OneMoreCut(starts0 + [u], u, c, i, full, starts, start, starts', start');
  }

  lemma OneMoreCut(before: seq<nat>, u: nat, c: nat, i: nat, full: bool, starts: seq<nat>, start: nat, starts': seq<nat>, start': nat)
    requires c >= 1 && i >= 1 && (full <==> i % c == 0) && starts + [start] == before + CutPoints(u, c, i - 1)
    requires start' == (if full then u + i else start) && starts' == if full then starts + [start] else starts
    ensures starts' + [start'] == before + CutPoints(u, c, i)
  {
  }

  lemma LastPiece(starts: seq<nat>, u': nat, starts0: seq<nat>, u: nat, cuts: seq<nat>)
    requires starts + [u'] == starts0 + [u] + cuts
    ensures |starts| == |starts0| + |cuts| && u' == ([u] + cuts)[|cuts|]
  {
    assert |starts + [u']| == |starts0 + [u] + cuts|;
    assert (starts + [u'])[|starts|] == u';
    assert starts0 + [u] + cuts == starts0 + ([u] + cuts);
  }

  /** The pieces up to instant `start` are stored, and `box1` covers the instants from there
      to before `next`. */
  ghost predicate PieceInv(insts: seq<Box>, start: nat, next: nat, out: seq<Box>, count: nat, box1: Box, starts: seq<nat>) {
    && start < next <= |insts| && count <= start && count <= |out| && Prefix(insts, starts, out[..count], start)
    && box1 == Hull(insts, start, next)
  }

  /** Takes in one more segment; a full piece is stored, and the next starts at its end. */
  method AddSegment(insts: seq<Box>, start: nat, next: nat, full: bool, out: array<Box>, count: nat, box: Box, ghost starts: seq<nat>)
    returns (count': nat, start': nat, box': Box, ghost starts': seq<nat>)
    requires next < |insts| && out.Length == |insts| - 1
    requires PieceInv(insts, start, next, out[..], count, box, starts)
    modifies out
    ensures PieceInv(insts, start', next + 1, out[..], count', box', starts')
    ensures start' == if full then next else start
    ensures count' == if full then count + 1 else count
    ensures starts' == if full then starts + [start] else starts
  {
    count', start', starts' := count, start, starts;
    box' := Expand(insts[next], box);
    if full {
      ExtendPrefix(insts, starts, out[..count], start, next);
      starts' := starts + [start];
      Store(out, count, box');
      count', start', box' := count + 1, next, insts[next];
    }
  }

  lemma NextMultiple(i: nat, c: nat)
    requires c >= 1 && i >= 1
    ensures i % c == 0 ==> i / c == (i - 1) / c + 1 && i / c * c == i
    ensures i % c != 0 ==> i / c == (i - 1) / c
    ensures (i - 1) / c * c <= i - 1
  {
    assert i == i / c * c + i % c;
    assert i - 1 == (i - 1) / c * c + (i - 1) % c;
    var q, r := i / c, i % c;
    if r != 0 {
      QuotientIs(i - 1, c, q, r - 1);
    } else {
      assert q >= 1;
      assert (q - 1) * c + (c - 1) == i - 1;
      QuotientIs(i - 1, c, q - 1, c - 1);
    }
  }

  lemma TimesMonotone(a: int, b: int, c: nat)
    requires a <= b
    ensures a * c <= b * c
  {
  }

  lemma QuotientIs(n: nat, c: nat, q: int, r: nat)
    requires c >= 1 && r < c && n == q * c + r
    ensures n / c == q
  {
    var d := n / c - q;
    assert n == n / c * c + n % c;
    assert d * c == r - n % c;
    if d >= 1 { TimesMonotone(1, d, c); }
    if d <= -1 { TimesMonotone(d, -1, c); }
  }

  /** Cuts the pending run if widening it costs more than it saves. */
  method CutRun(insts: seq<Box>, cost: (Box, Box) -> real, solve: (Box, nat) -> int, u: nat, v: nat, box1: Box, box2: Box,
                out: array<Box>, count: nat, ghost starts: seq<nat>)
    returns (count': nat, u': nat, box1': Box, ghost starts': seq<nat>)
    requires u < v < |insts| - 1 && out.Length == |insts| - 1
    requires count <= u && Prefix(insts, starts, out[..count], u)
    requires box1 == Hull(insts, u, v + 1) && box2 == Hull(insts, v, v + 2)
    modifies out
    ensures u <= u' <= v && count' <= u' && Prefix(insts, starts', out[..count'], u')
    ensures box1' == Hull(insts, u', v + 1)
    ensures starts' + [u'] == starts + [u] + NewStarts(insts, cost, solve, u, v)
  {
    count', u', box1', starts' := count, u, box1, starts;
    if cost(box1, box2) > 0.0 {
      var s := solve(box1, v - u);
      var c := if s >= 1 then s else 1;
      count', u', box1', starts' := SplitRun(insts, u, v, c, out, count, starts);
    }
  }

  lemma NextStarts(insts: seq<Box>, cost: (Box, Box) -> real, solve: (Box, nat) -> int, starts: seq<nat>, u: nat, v: nat,
                   starts': seq<nat>, u': nat)
    requires u < v < |insts| - 1 && starts + [u] == RunStarts(insts, cost, solve, v)
    requires starts' + [u'] == starts + [u] + NewStarts(insts, cost, solve, u, v)
    ensures starts' + [u'] == RunStarts(insts, cost, solve, v + 1)
  {
    assert (starts + [u])[|starts + [u]| - 1] == u;
  }

  /** One pass over the trajectory. Whenever widening the pending box towards the next
      segment costs more than it saves, the pending run is cut into pieces whose size
      `solve` picks. Every box written fits the output array of `|insts| - 1` places. */
  method LinearSplit(insts: seq<Box>, cost: (Box, Box) -> real, solve: (Box, nat) -> int)
    returns (result: seq<Box>, ghost starts: seq<nat>)
    requires |insts| > 0
    ensures InstantPartition(insts, starts, result)
    ensures |insts| > 1 ==> |result| <= |insts| - 1
    ensures starts == if |insts| > 1 then RunStarts(insts, cost, solve, |insts| - 1) else [0]
  {
    starts := [];
    if |insts| == 1 {
      starts := [0];
      return [insts[0]], starts;
    }
    var out := new Box[|insts| - 1](_ => insts[0]);
    var count: nat, u: nat, v: nat := 0, 0, 1;
    var box1, box2 := insts[u], insts[v];
    box1 := Expand(box2, box1);
    while v < |insts| - 1
      invariant 0 <= v <= |insts| - 1 && Scanned(insts, cost, solve, u, v, box1, out[..], count, starts)
      invariant box2 == insts[v]
    {
      var newbox := insts[v + 1];
      box2 := Expand(newbox, box2);
      count, u, box1, starts := Advance(insts, cost, solve, u, v, box1, box2, out, count, starts);
      box2 := newbox;
      v := v + 1;
    }
    if u < |insts| - 1 {
      ExtendPrefix(insts, starts, out[..count], u, v);
      starts := starts + [u];
      Store(out, count, box1);
      count := count + 1;
    }
    result := out[..count];
  }

  /** The runs before the pending one are stored, and `box1` covers that to instant `v`. */
  ghost predicate Scanned(insts: seq<Box>, cost: (Box, Box) -> real, solve: (Box, nat) -> int, u: nat, v: nat, box1: Box,
                          out: seq<Box>, count: nat, starts: seq<nat>)
  {
    && u < v < |insts| && count <= u && count <= |out| && Prefix(insts, starts, out[..count], u)
    && box1 == Hull(insts, u, v + 1) && starts + [u] == RunStarts(insts, cost, solve, v)
  }

  /** Takes in the next instant. */
  method Advance(insts: seq<Box>, cost: (Box, Box) -> real, solve: (Box, nat) -> int, u: nat, v: nat, box1: Box, box2: Box,
                 out: array<Box>, count: nat, ghost starts: seq<nat>)
    returns (count': nat, u': nat, box1': Box, ghost starts': seq<nat>)
    requires v < |insts| - 1 && out.Length == |insts| - 1
    requires Scanned(insts, cost, solve, u, v, box1, out[..], count, starts) && box2 == Hull(insts, v, v + 2)
    modifies out
    ensures Scanned(insts, cost, solve, u', v + 1, box1', out[..], count', starts')
  {
    count', u', box1', starts' := CutRun(insts, cost, solve, u, v, box1, box2, out, count, starts);
    NextStarts(insts, cost, solve, starts, u, v, starts', u');
    box1' := Expand(insts[v + 1], box1');
  }

  // ---- geometric paths ----

  datatype Point = Point(x: real, y: real)

  /** A planar box; the other two dimensions are not used by paths. */
  function PointBox(p: Point): Box {
    Box(Span(p.x, p.x), Span(p.y, p.y), Span(0.0, 0.0), Span(0.0, 0.0))
  }

  function PointBoxes(points: seq<Point>): (boxes: seq<Box>)
    ensures |boxes| == |points|
    ensures forall i | 0 <= i < |points| :: boxes[i] == PointBox(points[i])
  {
    seq(|points|, i requires 0 <= i < |points| => PointBox(points[i]))
  }

  function PointExpand(p: Point, b: Box): Box {
    var b := if p.x < b.x.lo then b.(x := b.x.(lo := p.x)) else b;
    var b := if p.x > b.x.hi then b.(x := b.x.(hi := p.x)) else b;
    var b := if p.y < b.y.lo then b.(y := b.y.(lo := p.y)) else b;
    if p.y > b.y.hi then b.(y := b.y.(hi := p.y)) else b
  }

  lemma PointExpandIsExpand(p: Point, b: Box)
    requires b.z == b.t == Span(0.0, 0.0)
    ensures PointExpand(p, b) == Expand(PointBox(p), b)
  {
  }

  /** The quotient rounded up. */
  function CeilDiv(a: nat, b: nat): (q: nat)
    requires b > 0
    ensures q * b >= a && (q > 0 ==> (q - 1) * b < a)
  {
    var q := (a + b - 1) / b;
    assert a + b - 1 == q * b + (a + b - 1) % b;
    assert (q - 1) * b == q * b - b;
    q
  }

  lemma CeilDivIs(a: nat, b: nat, q: nat)
    requires b > 0 && q * b >= a && (q > 0 ==> (q - 1) * b < a)
    ensures CeilDiv(a, b) == q
  {
    var p := CeilDiv(a, b);
    if p < q { TimesMonotone(p, q - 1, b); }
    if q < p { TimesMonotone(q, p - 1, b); }
  }

  /** Rounding up twice never needs more boxes than were asked for. */
  lemma CeilTwice(s: nat, c: nat)
    requires s > 0 && c > 0
    ensures CeilDiv(s, c) > 0 && CeilDiv(s, CeilDiv(s, c)) <= c
  {
    var p := CeilDiv(s, c);
    if p == 0 { TimesMonotone(p, 0, c); }
    var q := CeilDiv(s, p);
    if q > c {
      TimesMonotone(c, q - 1, p);
    }
  }

  /** Boxes of consecutive runs of equally many segments. `count` is the number the
      caller asked for on entry and the length of the returned array on exit; its
      places are all filled exactly when the path has a segment. */
  method PathSplit(points: seq<Point>, count: nat) returns (boxes: seq<Box>, count': nat, ghost starts: seq<nat>)
    requires |points| > 0 && count > 0
    ensures |points| > 1 ==> InstantPartition(PointBoxes(points), starts, boxes)
    ensures |points| > 1 ==> count' == CeilDiv(|points| - 1, CeilDiv(|points| - 1, count)) <= count
    ensures |points| > 1 ==> Spaced(starts, CeilDiv(|points| - 1, count))
    ensures |boxes| == count' <==> |points| > 1
  {
    var s := |points| - 1;
    var per := CeilDiv(s, count);
    count' := count;
    if s > 0 {
      CeilTwice(s, count);
      // for a path without segments the second quotient is not a number, and the comparison fails
      if CeilDiv(s, per) < count {
        count' := CeilDiv(s, per);
      }
    }
    boxes, starts := PathBoxes(points, per, count');
  }

  /** The boxes of runs of `per` segments each, the last run possibly shorter. */
  method PathBoxes(points: seq<Point>, per: nat, room: nat) returns (boxes: seq<Box>, ghost starts: seq<nat>)
    requires |points| > 0
    requires |points| > 1 ==> per > 0 && room == CeilDiv(|points| - 1, per)
    ensures |points| == 1 ==> boxes == []
    ensures |points| > 1 ==> |boxes| == room && InstantPartition(PointBoxes(points), starts, boxes) && Spaced(starts, per)
  {
    var s := |points| - 1;
    ghost var insts := PointBoxes(points);
    var out := new Box[room](_ => PointBox(points[0]));
    boxes, starts := [], [];
    if s == 0 {
      return;
    }
    var k, i := 0, 0;
    while i < s
      invariant RunsTo(s, per, k, i) && k <= room && Spaced(starts, per)
      invariant Prefix(insts, starts, out[..k], if i < s then i else s)
      decreases s - i
    {
      var thisSplit := per;
      if s - i < per {
        thisSplit := s - i;
      }
      MoreRuns(s, per, k, i);
      AddRun(points, i, thisSplit, out, k, starts);
      starts := starts + [i];
      k := k + 1;
      i := i + per;
    }
    AllRuns(s, per, k, i);
    WholePath(insts, starts, out[..k]);
    boxes := out[..k];
  }

  /** Each run starts `per` segments after the one before. */
  ghost predicate Spaced(starts: seq<nat>, per: nat) { forall k | 0 <= k < |starts| :: starts[k] == k * per }

  /** `k` whole runs end at `i`, which is at most one run beyond the end. */
  ghost predicate RunsTo(s: nat, per: nat, k: nat, i: nat) { i == k * per && i < s + per }

  /** Stores the box of the `n` segments from point `i` on in place `k`. */
  method AddRun(points: seq<Point>, i: nat, n: nat, out: array<Box>, k: nat, ghost starts: seq<nat>)
    requires 0 < n && i + n < |points| && k < out.Length
    requires Prefix(PointBoxes(points), starts, out[..k], i)
    modifies out
    ensures Prefix(PointBoxes(points), starts + [i], out[..k + 1], i + n)
  {
    ExtendPrefix(PointBoxes(points), starts, out[..k], i, i + n);
    var box := RunBox(points, i, n);
    Store(out, k, box);
  }

  lemma MoreRuns(s: nat, per: nat, k: nat, i: nat)
    requires per > 0 && i < s && RunsTo(s, per, k, i)
    ensures k < CeilDiv(s, per) && RunsTo(s, per, k + 1, i + per)
  {
    if k >= CeilDiv(s, per) {
      TimesMonotone(CeilDiv(s, per), k, per);
    }
  }

  lemma AllRuns(s: nat, per: nat, k: nat, i: nat)
    requires per > 0 && i >= s && RunsTo(s, per, k, i)
    ensures k == CeilDiv(s, per)
  {
    CeilDivIs(s, per, k);
  }

  lemma WholePath(insts: seq<Box>, starts: seq<nat>, boxes: seq<Box>)
    requires |insts| > 1 && Prefix(insts, starts, boxes, |insts| - 1)
    ensures InstantPartition(insts, starts, boxes)
  {
  }

  /** The box around `n` segments from point `i` on. */
  method RunBox(points: seq<Point>, i: nat, n: nat) returns (box: Box)
    requires i + n < |points|
    ensures box == Hull(PointBoxes(points), i, i + n + 1)
  {
    box := PointBox(points[i]);
    var j := 1;
    while j < n + 1
      invariant 1 <= j <= n + 1
      invariant box == Hull(PointBoxes(points), i, i + j) && box.z == box.t == Span(0.0, 0.0)
    {
      PointExpandIsExpand(points[i + j], box);
      box := PointExpand(points[i + j], box);
      j := j + 1;
    }
  }
}
