/** Searching the quadtree, and what a search finds of a multirange. */
module RangeSearch {
  import opened RangeBounds
  import opened MultirangeEntries
  import opened RangeQuad

  datatype Entry = Entry(r: Range, tid: nat)

  /** An inner tuple has a node for each quadrant, or identical nodes if it is
      all-the-same. */
  datatype Quad = Leaf(entries: seq<Entry>) | Node(centroid: Range, allTheSame: bool, nodes: seq<Quad>)

  ghost predicate Has(t: Quad, e: Entry)
    decreases t
  {
    match t
    case Leaf(entries) => e in entries
    case Node(_, _, nodes) => exists i :: 0 <= i < |nodes| && Has(nodes[i], e)
  }

  /** Entries and centroids below a node lie in its quadrant. */
  ghost predicate InQuadrants(centroid: Range, nodes: seq<Quad>) {
    && |nodes| == 4
    && (forall i, e | 0 <= i < |nodes| && Has(nodes[i], e) :: GetQuadrant(centroid, e.r) == i + 1)
    && forall i | 0 <= i < |nodes| && nodes[i].Node? :: GetQuadrant(centroid, nodes[i].centroid) == i + 1
  }

  ghost predicate Valid(t: Quad)
    decreases t
  {
    match t
    case Leaf(entries) => forall e | e in entries :: RangeOk(e.r)
    case Node(centroid, same, nodes) =>
      && RangeOk(centroid) && (!same ==> InQuadrants(centroid, nodes))
      && forall i | 0 <= i < |nodes| :: Valid(nodes[i])
  }

  predicate KeysOk(keys: seq<Query>) { forall k | 0 <= k < |keys| :: QueryOk(keys[k]) }

  predicate LeafPasses(r: Range, keys: seq<Query>)
    requires KeysOk(keys)
  {
    forall k | 0 <= k < |keys| :: LeafTest(r, keys[k])
  }

  ghost predicate SoughtByAll(r: Range, keys: seq<Query>)
    requires KeysOk(keys)
  {
    forall k | 0 <= k < |keys| :: Sought(r, keys[k])
  }

  // ---- one inner tuple ----

  ghost predicate Visited(t: Quad, keys: seq<Query>, prev: Maybe, n: nat, i: nat)
    requires t.Node? && KeysOk(keys) && n <= |keys|
  {
    i < |t.nodes| && (t.allTheSame || KeptByAll(keys, n, t.centroid, prev, i + 1))
  }

  /** The first `n` keys keep the quadrant. */
  ghost predicate KeptByAll(keys: seq<Query>, n: nat, centroid: Range, prev: Maybe, j: int)
    requires KeysOk(keys) && n <= |keys|
  {
    forall k | 0 <= k < n :: j in KeyQuadrants(keys[k], centroid, prev)
  }

  /** The previous centroid matters to adjacency only. */
  predicate AnyAdjacent(keys: seq<Query>) { exists k :: 0 <= k < |keys| && keys[k].op == AdjacentOp }

  /** The nodes to visit, and whether the centroid must be handed down to them. */
  method InnerConsistent(t: Quad, keys: seq<Query>, prev: Maybe) returns (nodeNumbers: seq<nat>, needPrevious: bool)
    requires t.Node? && Valid(t) && KeysOk(keys)
    ensures forall i: nat :: i in nodeNumbers <==> Visited(t, keys, prev, |keys|, i)
    ensures forall j | 0 <= j < |nodeNumbers| :: nodeNumbers[j] < |t.nodes|
    ensures t.allTheSame ==> !needPrevious
    ensures nodeNumbers != [] ==> (needPrevious <==> !t.allTheSame && AnyAdjacent(keys))
  {
    nodeNumbers, needPrevious := [], false;
    var which := {1, 2, 3, 4};
    if !t.allTheSame {
      which, needPrevious := Quadrants(t.centroid, keys, prev);
    }
    var i := 0;
    while i < |t.nodes|
      invariant 0 <= i <= |t.nodes| && forall j | 0 <= j < |nodeNumbers| :: nodeNumbers[j] < i
      invariant forall j: nat :: j in nodeNumbers <==> j < i && (t.allTheSame || j + 1 in which)
      invariant !t.allTheSame && which == {} ==> nodeNumbers == []
    {
      if t.allTheSame || i + 1 in which {
        nodeNumbers := nodeNumbers + [i];
      }
      i := i + 1;
    }
  }

  /** The quadrants that the first `n` keys keep. */
  ghost predicate KeptBy(keys: seq<Query>, n: nat, centroid: Range, prev: Maybe, which: set<int>)
    requires KeysOk(keys) && n <= |keys|
  {
    forall j :: j in which <==> 1 <= j <= 4 && KeptByAll(keys, n, centroid, prev, j)
  }

  lemma OneMoreKey(keys: seq<Query>, n: nat, centroid: Range, prev: Maybe, which: set<int>, which': set<int>)
    requires KeysOk(keys) && n < |keys| && KeptBy(keys, n, centroid, prev, which)
    requires which' == which * KeyQuadrants(keys[n], centroid, prev)
    ensures KeptBy(keys, n + 1, centroid, prev, which')
  {
    forall j ensures j in which' <==> 1 <= j <= 4 && KeptByAll(keys, n + 1, centroid, prev, j) {
      assert KeptByAll(keys, n + 1, centroid, prev, j) <==>
             KeptByAll(keys, n, centroid, prev, j) && j in KeyQuadrants(keys[n], centroid, prev);
    }
  }

  lemma NothingKept(keys: seq<Query>, n: nat, centroid: Range, prev: Maybe, which: set<int>)
    requires KeysOk(keys) && n <= |keys| && KeptBy(keys, n, centroid, prev, which) && which == {}
    ensures KeptBy(keys, |keys|, centroid, prev, which)
  {
    forall j ensures !(1 <= j <= 4 && KeptByAll(keys, |keys|, centroid, prev, j)) {
      assert j !in which;
      assert KeptByAll(keys, |keys|, centroid, prev, j) ==> KeptByAll(keys, n, centroid, prev, j);
    }
  }

  method Quadrants(centroid: Range, keys: seq<Query>, prev: Maybe) returns (which: set<int>, needPrevious: bool)
    requires KeysOk(keys)
    ensures KeptBy(keys, |keys|, centroid, prev, which)
    ensures which != {} ==> (needPrevious <==> AnyAdjacent(keys))
  {
    which, needPrevious := {1, 2, 3, 4}, false;
    var i := 0;
    while i < |keys| && which != {}
      invariant 0 <= i <= |keys| && KeptBy(keys, i, centroid, prev, which)
      invariant needPrevious <==> exists k :: 0 <= k < i && keys[k].op == AdjacentOp
    {
      ghost var was := which;
      which := which * KeyQuadrants(keys[i], centroid, prev);
      OneMoreKey(keys, i, centroid, prev, was, which);
      needPrevious := needPrevious || keys[i].op == AdjacentOp;
      i := i + 1;
    }
    if which == {} { NothingKept(keys, i, centroid, prev, which); }
  }

  /** No node that leads to an entry looked for is passed over. */
  lemma VisitKept(t: Quad, keys: seq<Query>, prev: Maybe, i: nat, e: Entry)
    requires t.Node? && Valid(t) && KeysOk(keys) && i < |t.nodes| && Has(t.nodes[i], e)
    requires RangeOk(e.r) && SoughtByAll(e.r, keys) && SameWay(prev, t.centroid, e.r)
    ensures Visited(t, keys, prev, |keys|, i)
  {
    if !t.allTheSame {
      assert GetQuadrant(t.centroid, e.r) == i + 1;
      forall k | 0 <= k < |keys| ensures i + 1 in KeyQuadrants(keys[k], t.centroid, prev) {
        KeyKeeps(e.r, keys[k], t.centroid, prev);
      }
    }
  }

  // ---- the search ----

  ghost predicate Reported(t: Quad, keys: seq<Query>, tid: nat)
    requires KeysOk(keys)
  {
    exists e :: Has(t, e) && e.tid == tid && LeafPasses(e.r, keys)
  }

  /** The centroid handed down, if any. */
  function Below(t: Quad, keys: seq<Query>): Maybe
    requires t.Node?
  {
    if !t.allTheSame && AnyAdjacent(keys) then Some(t.centroid) else None
  }

  /** The way to an entry of the heap tuple that passes all leaf tests leads through visited
      nodes only. */
  ghost predicate Hits(t: Quad, keys: seq<Query>, prev: Maybe, tid: nat)
    requires KeysOk(keys)
    decreases t
  {
    match t
    case Leaf(_) => Reported(t, keys, tid)
    case Node(_, _, nodes) =>
      exists i: nat :: i < |nodes| && Visited(t, keys, prev, |keys|, i) && Hits(nodes[i], keys, Below(t, keys), tid)
  }

  lemma {:induction false} HitsAreReported(t: Quad, keys: seq<Query>, prev: Maybe, tid: nat)
    requires KeysOk(keys) && Hits(t, keys, prev, tid)
    ensures Reported(t, keys, tid)
    decreases t
  {
    if t.Node? {
      var i: nat :| i < |t.nodes| && Visited(t, keys, prev, |keys|, i) && Hits(t.nodes[i], keys, Below(t, keys), tid);
      HitsAreReported(t.nodes[i], keys, Below(t, keys), tid);
      ReportedAbove(t, keys, i, tid);
    }
  }

  lemma {:induction false} MustFindHits(t: Quad, keys: seq<Query>, prev: Maybe, e: Entry)
    requires Valid(t) && KeysOk(keys) && MustFind(t, keys, prev, e)
    ensures Hits(t, keys, prev, e.tid)
    decreases t
  {
    if t.Node? {
      var m: nat :| m < |t.nodes| && Has(t.nodes[m], e);
      VisitKept(t, keys, prev, m, e);
      FoundBelow(t, keys, prev, Below(t, keys), m, e);
      MustFindHits(t.nodes[m], keys, Below(t, keys), e);
    }
  }

  /** What must be found below `t` when coming from centroid `prev`. */
  ghost predicate MustFind(t: Quad, keys: seq<Query>, prev: Maybe, e: Entry)
    requires KeysOk(keys)
  {
    && Has(t, e) && RangeOk(e.r) && SoughtByAll(e.r, keys) && LeafPasses(e.r, keys)
    && (t.Node? ==> SameWay(prev, t.centroid, e.r))
  }

  lemma EntryOk(t: Quad, e: Entry)
    requires Valid(t) && Has(t, e)
    ensures RangeOk(e.r)
    decreases t
  {
    if t.Node? {
      var i :| 0 <= i < |t.nodes| && Has(t.nodes[i], e);
      EntryOk(t.nodes[i], e);
    }
  }

  /** Below a visited node the way down continues as before. */
  lemma FoundBelow(t: Quad, keys: seq<Query>, prev: Maybe, below: Maybe, i: nat, e: Entry)
    requires t.Node? && Valid(t) && KeysOk(keys) && i < |t.nodes| && Has(t.nodes[i], e) && MustFind(t, keys, prev, e)
    requires below.None? || (!t.allTheSame && below == Some(t.centroid))
    ensures MustFind(t.nodes[i], keys, below, e)
  {
  }

  method SearchLeaf(entries: seq<Entry>, keys: seq<Query>) returns (tids: set<nat>)
    requires KeysOk(keys)
    ensures forall tid :: tid in tids <==> Reported(Leaf(entries), keys, tid)
  {
    tids := {};
    var i := 0;
    while i < |entries|
      invariant 0 <= i <= |entries|
      invariant forall tid :: tid in tids <==> exists j :: 0 <= j < i && entries[j].tid == tid && LeafPasses(entries[j].r, keys)
    {
      if LeafPasses(entries[i].r, keys) {
        tids := tids + {entries[i].tid};
      }
      i := i + 1;
    }
    forall tid | Reported(Leaf(entries), keys, tid) ensures tid in tids {
      var e :| Has(Leaf(entries), e) && e.tid == tid && LeafPasses(e.r, keys);
      var j :| 0 <= j < |entries| && entries[j] == e;
    }
    forall tid | tid in tids ensures Reported(Leaf(entries), keys, tid) {
      var j :| 0 <= j < |entries| && entries[j].tid == tid && LeafPasses(entries[j].r, keys);
      assert Has(Leaf(entries), entries[j]);
    }
  }

  method Search(t: Quad, keys: seq<Query>, prev: Maybe) returns (tids: set<nat>)
    requires Valid(t) && KeysOk(keys)
    ensures forall tid :: tid in tids <==> Hits(t, keys, prev, tid)
    ensures forall tid | tid in tids :: Reported(t, keys, tid)
    ensures forall e | MustFind(t, keys, prev, e) :: e.tid in tids
    decreases t
  {
    if t.Leaf? {
      tids := SearchLeaf(t.entries, keys);
    } else {
      var nodeNumbers, needPrevious := InnerConsistent(t, keys, prev);
      var below := if needPrevious then Some(t.centroid) else None;
      tids := {};
      var i := 0;
      while i < |nodeNumbers|
        invariant 0 <= i <= |nodeNumbers|
        invariant forall tid :: tid in tids <==> HitsIn(t, keys, nodeNumbers[..i], tid)
      {
        var more := Search(t.nodes[nodeNumbers[i]], keys, below);
        assert nodeNumbers[..i + 1] == nodeNumbers[..i] + [nodeNumbers[i]];
        tids := tids + more;
        i := i + 1;
      }
      assert nodeNumbers[..i] == nodeNumbers;
      AllVisited(t, keys, prev, nodeNumbers);
    }
    forall tid | tid in tids ensures Reported(t, keys, tid) { HitsAreReported(t, keys, prev, tid); }
    forall e | MustFind(t, keys, prev, e) ensures e.tid in tids { MustFindHits(t, keys, prev, e); }
  }

  /** There is a hit below one of the nodes. */
  ghost predicate HitsIn(t: Quad, keys: seq<Query>, nodeNumbers: seq<nat>, tid: nat)
    requires t.Node? && KeysOk(keys) && forall j | 0 <= j < |nodeNumbers| :: nodeNumbers[j] < |t.nodes|
  {
    exists n :: n in nodeNumbers && Hits(t.nodes[n], keys, Below(t, keys), tid)
  }

  lemma AllVisited(t: Quad, keys: seq<Query>, prev: Maybe, nodeNumbers: seq<nat>)
    requires t.Node? && KeysOk(keys) && forall j | 0 <= j < |nodeNumbers| :: nodeNumbers[j] < |t.nodes|
    requires forall i: nat :: i in nodeNumbers <==> Visited(t, keys, prev, |keys|, i)
    ensures forall tid :: HitsIn(t, keys, nodeNumbers, tid) <==> Hits(t, keys, prev, tid)
  {
    forall tid ensures HitsIn(t, keys, nodeNumbers, tid) <==> Hits(t, keys, prev, tid) {
      if Hits(t, keys, prev, tid) {
        var i: nat :| i < |t.nodes| && Visited(t, keys, prev, |keys|, i) && Hits(t.nodes[i], keys, Below(t, keys), tid);
        assert i in nodeNumbers;
      }
      if HitsIn(t, keys, nodeNumbers, tid) {
        var n :| n in nodeNumbers && Hits(t.nodes[n], keys, Below(t, keys), tid);
        assert Visited(t, keys, prev, |keys|, n);
      }
    }
  }

  lemma ReportedAbove(t: Quad, keys: seq<Query>, n: nat, tid: nat)
    requires t.Node? && n < |t.nodes| && KeysOk(keys) && Reported(t.nodes[n], keys, tid)
    ensures Reported(t, keys, tid)
  {
    var e :| Has(t.nodes[n], e) && e.tid == tid && LeafPasses(e.r, keys);
    assert Has(t, e);
  }

  // ---- multiranges ----

  /** The tree holds all entries of the multirange. */
  ghost predicate Indexed(t: Quad, entries: seq<Range>, tid: nat) { forall k | 0 <= k < |entries| :: Has(t, Entry(entries[k], tid)) }

  /** No false negatives: a multirange for which the operator holds is found, however its
      ranges were merged into entries. */
  lemma MultirangeFound(t: Quad, mr: seq<Range>, cuts: seq<nat>, entries: seq<Range>, tid: nat, q: Query, tids: set<nat>)
    requires Valid(t) && QueryOk(q) && Normalized(mr) && Entries(mr, cuts, entries) && cuts[|entries|] == |mr|
    requires Indexed(t, entries, tid) && Holds(mr, q)
    requires forall e | MustFind(t, [q], None, e) :: e.tid in tids
    ensures tid in tids
  {
    var k := SomeEntryFits(mr, cuts, entries, q);
    assert Has(t, Entry(entries[k], tid));
    assert MustFind(t, [q], None, Entry(entries[k], tid));
  }

  /** With several keys, a multirange is found if one of its entries fits them all. */
  lemma FoundIfOneEntryFits(t: Quad, entries: seq<Range>, k: nat, tid: nat, keys: seq<Query>, tids: set<nat>)
    requires Valid(t) && KeysOk(keys) && Indexed(t, entries, tid)
    requires forall i | 0 <= i < |keys| :: Finds(entries, keys[i], k)
    requires k < |entries| && forall e | MustFind(t, keys, None, e) :: e.tid in tids
    ensures tid in tids
  {
    var e := Entry(entries[k], tid);
    assert Has(t, e);
    EntryOk(t, e);
    assert MustFind(t, keys, None, e);
  }

  /** With two keys the promise fails: each may be met by another entry, and the leaf test
      wants one entry to meet both. */
  lemma TwoKeysMiss() returns (mr: seq<Range>, a: Query, b: Query)
    ensures |mr| == 2 && Normalized(mr) && QueryOk(a) && QueryOk(b) && Holds(mr, a) && Holds(mr, b)
    ensures !Reported(Leaf([Entry(mr[0], 7), Entry(mr[1], 7)]), [a, b], 7)
  {
    var r0 := Range(Bound(1.0, false, true, true), Bound(2.0, false, false, false));
    var r1 := Range(Bound(10.0, false, true, true), Bound(11.0, false, false, false));
    mr := [r0, r1];
    a, b := Query(Contains, [r0], false), Query(Contains, [r1], false);
    assert Within(a.ranges[0], mr[0]) && Within(b.ranges[0], mr[1]);
    var t := Leaf([Entry(mr[0], 7), Entry(mr[1], 7)]);
    forall e | Has(t, e) ensures !LeafPasses(e.r, [a, b]) {
      assert !LeafTest(e.r, [a, b][0]) || !LeafTest(e.r, [a, b][1]);
    }
  }

  // ---- several keys ----

  ghost predicate AllHold(mr: seq<Range>, keys: seq<Query>)
    requires mr != [] && KeysOk(keys)
  {
    forall i | 0 <= i < |keys| :: Holds(mr, keys[i])
  }

  /** What a search may answer, by its contract. */
  ghost predicate Answers(t: Quad, keys: seq<Query>, tids: set<nat>)
    requires KeysOk(keys)
  {
    (forall tid | tid in tids :: Reported(t, keys, tid)) && forall e | MustFind(t, keys, None, e) :: e.tid in tids
  }

  /** The tree holds the entries of the multirange and no others for its heap tuple. */
  ghost predicate IndexedAs(t: Quad, entries: seq<Range>, tid: nat) {
    Indexed(t, entries, tid) && forall e | Has(t, e) && e.tid == tid :: e.r in entries
  }

  lemma OneEntryFits(mr: seq<Range>, cuts: seq<nat>, entries: seq<Range>, q: Query)
    requires Normalized(mr) && Entries(mr, cuts, entries) && cuts[|entries|] == |mr| && |entries| == 1 && QueryOk(q) && Holds(mr, q)
    ensures Finds(entries, q, 0)
  {
    var k := SomeEntryFits(mr, cuts, entries, q);
    assert k == 0;
  }

  /** With a single entry, all keys are met by that entry. */
  lemma OneEntryFound(t: Quad, mr: seq<Range>, cuts: seq<nat>, entries: seq<Range>, tid: nat, keys: seq<Query>, tids: set<nat>)
    requires Valid(t) && KeysOk(keys) && Normalized(mr) && Entries(mr, cuts, entries) && cuts[|entries|] == |mr|
    requires |entries| == 1 && Indexed(t, entries, tid) && AllHold(mr, keys) && Answers(t, keys, tids)
    ensures tid in tids
  {
    forall i | 0 <= i < |keys| ensures Finds(entries, keys[i], 0) {
      OneEntryFits(mr, cuts, entries, keys[i]);
    }
    FoundIfOneEntryFits(t, entries, 0, tid, keys, tids);
  }

  /** The keys that the multirange contains its own first range, and its own last. */
  function OuterKeys(mr: seq<Range>): seq<Query>
    requires mr != []
  {
    [Query(Contains, [mr[0]], false), Query(Contains, [mr[|mr| - 1]], false)]
  }

  lemma OuterKeysHold(mr: seq<Range>)
    requires Normalized(mr)
    ensures KeysOk(OuterKeys(mr)) && AllHold(mr, OuterKeys(mr))
  {
    var n := |mr| - 1;
    EitherWay(mr[0].lower, mr[0].lower);
    EitherWay(mr[0].upper, mr[0].upper);
    EitherWay(mr[n].lower, mr[n].lower);
    EitherWay(mr[n].upper, mr[n].upper);
    assert Within(mr[0], mr[0]) && Within(mr[n], mr[n]);
  }

  /** An entry that meets both keys starts with the first range and ends with the last. */
  lemma OuterEntry(mr: seq<Range>, cuts: seq<nat>, entries: seq<Range>, k: nat)
    requires Normalized(mr) && Entries(mr, cuts, entries) && cuts[|entries|] == |mr| && k < |entries|
    requires KeysOk(OuterKeys(mr)) && LeafPasses(entries[k], OuterKeys(mr))
    ensures |entries| == 1
  {
    var keys, m := OuterKeys(mr), k + 1;
    assert LeafTest(entries[k], keys[0]) && LeafTest(entries[k], keys[1]);
    assert Overlaps(entries[k], mr[0]) && Overlaps(entries[k], mr[|mr| - 1]);
    assert entries[k] == Range(mr[cuts[k]].lower, mr[cuts[m] - 1].upper);
    if k > 0 {
      assert cuts[0] < cuts[k];
      EitherWay(mr[cuts[k]].lower, mr[0].upper);
    }
    if m < |entries| {
      assert cuts[m] < cuts[|entries|];
      EitherWay(mr[|mr| - 1].lower, mr[cuts[m] - 1].upper);
    }
  }

  /** The heap tuples in the tree. */
  ghost function Tids(t: Quad): set<nat> {
    match t
    case Leaf(entries) => set e | e in entries :: e.tid
    case Node(_, _, nodes) => TidsOf(nodes)
  }

  ghost function TidsOf(nodes: seq<Quad>): set<nat> {
    if nodes == [] then {} else Tids(nodes[0]) + TidsOf(nodes[1..])
  }

  lemma {:induction false} HasTid(t: Quad, e: Entry)
    requires Has(t, e)
    ensures e.tid in Tids(t)
    decreases t, 1
  {
    if t.Node? {
      var i :| 0 <= i < |t.nodes| && Has(t.nodes[i], e);
      HasTidOf(t.nodes, i, e);
    }
  }

  lemma {:induction false} HasTidOf(nodes: seq<Quad>, i: nat, e: Entry)
    requires i < |nodes| && Has(nodes[i], e)
    ensures e.tid in TidsOf(nodes)
    decreases nodes, 0
  {
    if i == 0 { HasTid(nodes[0], e); } else { HasTidOf(nodes[1..], i - 1, e); }
  }

  /** All that is reported is an answer. */
  lemma ReportedAnswers(t: Quad, keys: seq<Query>) returns (tids: set<nat>)
    requires KeysOk(keys)
    ensures Answers(t, keys, tids) && forall tid :: tid in tids <==> Reported(t, keys, tid)
  {
    tids := set tid | tid in Tids(t) && Reported(t, keys, tid);
    forall tid | Reported(t, keys, tid) ensures tid in tids {
      var e :| Has(t, e) && e.tid == tid && LeafPasses(e.r, keys);
      HasTid(t, e);
    }
  }

  /** With several entries the outer keys are met by different entries. */
  lemma SeveralEntriesMiss(t: Quad, mr: seq<Range>, cuts: seq<nat>, entries: seq<Range>, tid: nat)
    requires Normalized(mr) && Entries(mr, cuts, entries) && cuts[|entries|] == |mr|
    requires |entries| != 1 && IndexedAs(t, entries, tid)
    ensures KeysOk(OuterKeys(mr)) && AllHold(mr, OuterKeys(mr)) && !Reported(t, OuterKeys(mr), tid)
  {
    OuterKeysHold(mr);
    forall e | Has(t, e) && e.tid == tid ensures !LeafPasses(e.r, OuterKeys(mr)) {
      var k :| 0 <= k < |entries| && entries[k] == e.r;
      if LeafPasses(entries[k], OuterKeys(mr)) { OuterEntry(mr, cuts, entries, k); }
    }
  }

  /** A multirange is found for all keys that hold exactly if it has a single entry. */
  lemma FoundForAllKeys(t: Quad, mr: seq<Range>, cuts: seq<nat>, entries: seq<Range>, tid: nat)
    requires Valid(t) && Normalized(mr) && Entries(mr, cuts, entries) && cuts[|entries|] == |mr| && IndexedAs(t, entries, tid)
    ensures |entries| == 1 <==>
            forall keys, tids | KeysOk(keys) && AllHold(mr, keys) && Answers(t, keys, tids) :: tid in tids
  {
    if |entries| == 1 {
      forall keys, tids | KeysOk(keys) && AllHold(mr, keys) && Answers(t, keys, tids) ensures tid in tids {
        OneEntryFound(t, mr, cuts, entries, tid, keys, tids);
      }
    } else {
      SeveralEntriesMiss(t, mr, cuts, entries, tid);
      var tids := ReportedAnswers(t, OuterKeys(mr));
    }
  }
}
