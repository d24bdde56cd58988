/** The scan itself: reading pages, and fetching the next heap tuple. */
module NearestSearch {
  import opened Distances
  import opened OrderedScan

  datatype Fetched = NoMore | Found(hit: Hit)

  /** Whether a new hit replaces the one the table knows. The table's entry may be for a
      tuple already returned; its distances are gone, and any answer will do. */
  method IsNearer(d: Dist, known: Dist, returned: bool) returns (nearer: bool)
    requires !returned ==> |known| == |d|
    ensures !returned && !nearer ==> Leq(known, d)
    ensures !returned && nearer ==> Less(d, known)
  {
    if returned {
      nearer := *;
    } else {
      var result := CompareDistances(d, known);
      nearer := result == 1;
    }
  }

  /** The queue's order: by distance, and heap tuples before pages at the same distance. */
  method CompareItems(a: Item, b: Item) returns (cmp: int)
    requires |DistOf(a)| == |DistOf(b)|
    ensures cmp == if Less(DistOf(a), DistOf(b)) then 1 else if Less(DistOf(b), DistOf(a)) then -1
                   else if a.Heap? && b.Page? then 1 else if a.Page? && b.Heap? then -1 else 0
  {
    cmp := CompareDistances(DistOf(a), DistOf(b));
    if cmp == 0 {
      if a.Heap? && !b.Heap? {
        cmp := 1;
      } else if !a.Heap? && b.Heap? {
        cmp := -1;
      }
    }
  }

  /** No item goes before the one at `k` among the first `n`. */
  ghost predicate Heads(queue: seq<Item>, k: nat, n: nat)
    requires n <= |queue|
  {
    k < n && forall j | 0 <= j < n ::
      && Leq(DistOf(queue[k]), DistOf(queue[j]))
      && (queue[j].Heap? && Leq(DistOf(queue[j]), DistOf(queue[k])) ==> queue[k].Heap?)
  }

  lemma HeadsStep(queue: seq<Item>, k: nat, n: nat, cmp: int)
    requires n < |queue| && Heads(queue, k, n) && |DistOf(queue[n])| == |DistOf(queue[k])|
    requires cmp == 1 <==> Less(DistOf(queue[n]), DistOf(queue[k]))
                           || (Leq(DistOf(queue[n]), DistOf(queue[k])) && Leq(DistOf(queue[k]), DistOf(queue[n]))
                               && queue[n].Heap? && queue[k].Page?)
    ensures Heads(queue, if cmp == 1 then n else k, n + 1)
  {
    var dk, dn := DistOf(queue[k]), DistOf(queue[n]);
    LeqTotal(dk, dn);
    LeqTotal(dn, dn);
    forall j | 0 <= j < n && cmp == 1 ensures Leq(dn, DistOf(queue[j])) {
      LeqTransitive(dn, dk, DistOf(queue[j]));
    }
    forall j | 0 <= j < n && cmp == 1 && Leq(DistOf(queue[j]), dn) ensures Leq(dk, dn) {
      LeqTransitive(dk, DistOf(queue[j]), dn);
    }
  }

  method FindFirst(queue: seq<Item>, n: nat) returns (k: nat)
    requires queue != [] && forall j | 0 <= j < |queue| :: |DistOf(queue[j])| == n
    ensures Heads(queue, k, |queue|)
  {
    k := 0;
    LeqTotal(DistOf(queue[0]), DistOf(queue[0]));
    var i := 1;
    while i < |queue|
      invariant 1 <= i <= |queue| && Heads(queue, k, i)
    {
      LeqTotal(DistOf(queue[i]), DistOf(queue[k]));
      var cmp := CompareItems(queue[i], queue[k]);
      HeadsStep(queue, k, i, cmp);
      if cmp == 1 {
        k := i;
      }
      i := i + 1;
    }
  }

  // ---- what one tuple of a page adds ----

  lemma NoMatch(t: Tree, i: nat, h: Hit, n: nat)
    requires Bounded(t, n) && i < Length(t) && Left(t, i, h)
    requires if t.Leaf? then !t.tuples[i].match_ else !t.downs[i].match_
    ensures Left(t, i + 1, h)
  {
    if t.Inner? {
      var j :| i <= j < |t.downs| && Left(t.downs[j].child, 0, h);
      assert Has(t.downs[j].child, h);
    }
  }

  lemma TupleOrLater(t: Tree, i: nat, h: Hit)
    requires t.Leaf? && i < |t.tuples| && Left(t, i, h)
    ensures Left(t, i + 1, h) || h == t.tuples[i].hit
  {
  }

  lemma TupleItemOk(root: Tree, n: nat, results: seq<Hit>, t: Tree, i: nat)
    requires Reading(root, n, results, t) && t.Leaf? && i < |t.tuples| && t.tuples[i].match_
    ensures ItemOk(root, n, Heap(t.tuples[i].hit)) && After(results, Heap(t.tuples[i].hit))
  {
    var hit := t.tuples[i].hit;
    assert t.tuples[i] == Tuple(hit, true);
    assert Has(t, hit);
    LeqTotal(hit.d, hit.d);
  }

  lemma DownItemOk(root: Tree, n: nat, results: seq<Hit>, t: Tree, i: nat)
    requires Reading(root, n, results, t) && t.Inner? && i < |t.downs|
    ensures var it := Page(t.downs[i].d, t.downs[i].child); ItemOk(root, n, it) && After(results, it)
  {
    var it := Page(t.downs[i].d, t.downs[i].child);
    forall h | Leads(it, h) ensures Has(t, h) {
      assert Left(t.downs[i].child, 0, h);
    }
  }

  /** A hit no better than the queued one for the same tuple needs no item of its own. */
  lemma KnownServes(queue: seq<Item>, h: Hit, d: Dist)
    requires Heap(Hit(h.tid, d)) in queue && Leq(d, h.d)
    ensures Served(queue, h)
  {
    var k :| 0 <= k < |queue| && queue[k] == Heap(Hit(h.tid, d));
    assert Serves(queue[k], h);
  }

  class ScanOpaque {
    /** The search queue, the tuples returned, and the last queued distance of each tuple. */
    var queue: seq<Item>
    var tidTable: set<nat>
    var distTable: map<nat, Dist>

    /** What has been returned so far. */
    ghost var results: seq<Hit>

    ghost predicate Valid(root: Tree, n: nat, t: Tree, i: nat)
      reads this
    {
      Inv(root, n, queue, results, distTable, t, i) && forall tid :: tid in tidTable <==> Returned(results, tid)
    }

    constructor (root: Tree, n: nat)
      requires Bounded(root, n)
      ensures Valid(root, n, root, 0) && Reading(root, n, results, root) && results == [] && queue == []
    {
      queue, tidTable, distTable, results := [], {}, map[], [];
    }

    method PushHeap(root: Tree, n: nat, t: Tree, i: nat)
      requires Valid(root, n, t, i) && Reading(root, n, results, t) && t.Leaf? && i < |t.tuples| && t.tuples[i].match_
      modifies this`queue, this`distTable
      ensures Valid(root, n, t, i + 1) && QueueWeight(queue) == QueueWeight(old(queue)) + 1
    {
      var hit := t.tuples[i].hit;
      TupleItemOk(root, n, results, t, i);
      forall h | Left(t, i, h) ensures Left(t, i + 1, h) || Serves(Heap(hit), h) {
        TupleOrLater(t, i, h);
        LeqTotal(hit.d, hit.d);
      }
      PushKeepsInv(root, n, queue, results, distTable, distTable[hit.tid := hit.d], t, i, Heap(hit));
      WeightPush(queue, Heap(hit));
      distTable := distTable[hit.tid := hit.d];
      queue := queue + [Heap(hit)];
    }

    /** One leaf tuple: it is queued unless it fails the keys or a queued or returned hit of
        the same tuple is at least as near. */
    method ScanTuple(root: Tree, n: nat, t: Tree, i: nat)
      requires Valid(root, n, t, i) && Reading(root, n, results, t) && t.Leaf? && i < |t.tuples|
      modifies this`queue, this`distTable
      ensures Valid(root, n, t, i + 1) && QueueWeight(queue) <= QueueWeight(old(queue)) + 1
    {
      var hit := t.tuples[i].hit;
      if !t.tuples[i].match_ {
        forall h | Left(t, i, h) ensures Left(t, i + 1, h) { NoMatch(t, i, h, n); }
        SkipKeepsInv(root, n, queue, results, distTable, t, i);
        return;
      }
      if hit.tid in distTable {
        TupleItemOk(root, n, results, t, i);
        var nearer := IsNearer(hit.d, distTable[hit.tid], hit.tid in tidTable);
        if !nearer {
          if hit.tid !in tidTable { KnownServes(queue, hit, distTable[hit.tid]); }
          forall h | Left(t, i, h) ensures Left(t, i + 1, h) || h == hit { TupleOrLater(t, i, h); }
          SkipKeepsInv(root, n, queue, results, distTable, t, i);
          return;
        }
      }
      PushHeap(root, n, t, i);
    }

    /** One downlink: its page is queued unless it fails the keys. */
    method ScanDown(root: Tree, n: nat, t: Tree, i: nat)
      requires Valid(root, n, t, i) && Reading(root, n, results, t) && t.Inner? && i < |t.downs|
      modifies this`queue
      ensures Valid(root, n, t, i + 1) && QueueWeight(queue) <= QueueWeight(old(queue)) + Weight(t.downs[i].child)
    {
      if !t.downs[i].match_ {
        forall h | Left(t, i, h) ensures Left(t, i + 1, h) { NoMatch(t, i, h, n); }
        SkipKeepsInv(root, n, queue, results, distTable, t, i);
        return;
      }
      var it := Page(t.downs[i].d, t.downs[i].child);
      DownItemOk(root, n, results, t, i);
      PushKeepsInv(root, n, queue, results, distTable, distTable, t, i, it);
      WeightPush(queue, it);
      queue := queue + [it];
    }

    method ScanOne(root: Tree, n: nat, t: Tree, i: nat)
      requires Valid(root, n, t, i) && Reading(root, n, results, t) && i < Length(t)
      modifies this`queue, this`distTable
      ensures Valid(root, n, t, i + 1)
      ensures QueueWeight(queue) + WeightFrom(t, i + 1) <= QueueWeight(old(queue)) + WeightFrom(t, i)
    {
      if t.Leaf? {
        ScanTuple(root, n, t, i);
      } else {
        ScanDown(root, n, t, i);
      }
    }

    method ScanPage(root: Tree, n: nat, t: Tree)
      requires Valid(root, n, t, 0) && Reading(root, n, results, t)
      modifies this`queue, this`distTable
      ensures Valid(root, n, NOTHING, 0) && QueueWeight(queue) < QueueWeight(old(queue)) + Weight(t)
    {
      var i := 0;
      while i < Length(t)
        invariant 0 <= i <= Length(t) && Valid(root, n, t, i) && Reading(root, n, results, t)
        invariant QueueWeight(queue) + WeightFrom(t, i) <= QueueWeight(old(queue)) + WeightFrom(t, 0)
      {
        ScanOne(root, n, t, i);
        i := i + 1;
      }
    }

    method ReturnItem(root: Tree, n: nat, k: nat)
      requires Valid(root, n, NOTHING, 0) && First(queue, k) && queue[k].Heap? && queue[k].hit.tid !in tidTable
      modifies this
      ensures Valid(root, n, NOTHING, 0) && queue == Without(old(queue), k) && results == old(results) + [old(queue[k].hit)]
    {
      var hit := queue[k].hit;
      ReturnHit(root, n, queue, results, distTable, k);
      forall tid ensures Returned(results + [hit], tid) <==> Returned(results, tid) || tid == hit.tid {
        ReturnedMore(results, hit, tid);
      }
      queue := Without(queue, k);
      tidTable := tidTable + {hit.tid};
      results := results + [hit];
    }

    /** Handles the first item of the queue. */
    method TakeFirst(root: Tree, n: nat) returns (r: Fetched)
      requires Valid(root, n, NOTHING, 0) && queue != []
      modifies this
      ensures Valid(root, n, NOTHING, 0) && QueueWeight(queue) < QueueWeight(old(queue))
      ensures results == old(results) + if r.Found? then [r.hit] else []
    {
      forall j | 0 <= j < |queue| ensures |DistOf(queue[j])| == n { assert ItemOk(root, n, queue[j]); }
      var k := FindFirst(queue, n);
      var item := queue[k];
      WeightWithout(queue, k);
      r := NoMore;
      if item.Page? {
        TakePage(root, n, queue, results, distTable, k);
        queue := Without(queue, k);
        ScanPage(root, n, item.t);
      } else if item.hit.tid in tidTable {
        DropHit(root, n, queue, results, distTable, k);
        queue := Without(queue, k);
      } else {
        ReturnItem(root, n, k);
        r := Found(item.hit);
      }
    }

    /** The next heap tuple, or none once the queue is empty. */
    method GetNextNearest(root: Tree, n: nat) returns (r: Fetched)
      requires Valid(root, n, NOTHING, 0)
      modifies this
      ensures Valid(root, n, NOTHING, 0)
      ensures results == old(results) + if r.Found? then [r.hit] else []
      ensures r.NoMore? ==> queue == []
      ensures r.Found? ==> QueueWeight(queue) < QueueWeight(old(queue))
    {
      r := NoMore;
      while queue != [] && r.NoMore?
        invariant Valid(root, n, NOTHING, 0) && results == old(results) + if r.Found? then [r.hit] else []
        invariant QueueWeight(queue) <= QueueWeight(old(queue)) && (r.Found? ==> QueueWeight(queue) < QueueWeight(old(queue)))
        decreases QueueWeight(queue)
      {
        r := TakeFirst(root, n);
      }
    }
  }

  /** A whole ordered scan: every matching heap tuple once, in order, each at the least
      distance of its entries. */
  method Search(root: Tree, n: nat) returns (hits: seq<Hit>)
    requires Bounded(root, n)
    ensures forall j, k | 0 <= j < k < |hits| :: hits[j].tid != hits[k].tid && Leq(hits[j].d, hits[k].d)
    ensures forall k | 0 <= k < |hits| :: Nearest(root, hits[k])
    ensures forall h | Has(root, h) :: Returned(hits, h.tid)
  {
    var so := new ScanOpaque(root, n);
    so.ScanPage(root, n, root);
    hits := [];
    var more := true;
    while more
      invariant so.Valid(root, n, NOTHING, 0) && hits == so.results && (!more ==> so.queue == [])
      decreases more, QueueWeight(so.queue)
    {
      var r := so.GetNextNearest(root, n);
      if r.Found? {
        hits := hits + [r.hit];
      } else {
        more := false;
      }
    }
  }
}
