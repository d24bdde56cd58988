/** Ordered search over a multi-entry index: each heap tuple comes out once, at its smallest
    distance, in order of distance. */
module OrderedScan {
  import opened Distances

  /** A heap tuple at a distance. */
  datatype Hit = Hit(tid: nat, d: Dist)

  /** A leaf tuple, and whether it passes the scan keys. */
  datatype Tuple = Tuple(hit: Hit, match_: bool)

  datatype Down = Down(d: Dist, match_: bool, child: Tree)

  datatype Tree = Leaf(tuples: seq<Tuple>) | Inner(downs: seq<Down>)

  /** A matching leaf tuple at or after position `i` of the page, or below a downlink there. */
  ghost predicate Left(t: Tree, i: nat, h: Hit)
    decreases t
  {
    match t
    case Leaf(tuples) => exists j :: i <= j < |tuples| && tuples[j] == Tuple(h, true)
    case Inner(downs) => exists j :: i <= j < |downs| && Left(downs[j].child, 0, h)
  }

  ghost predicate Has(t: Tree, h: Hit) { Left(t, 0, h) }

  /** The contract of the operator class: what is below a downlink is no nearer than the
      downlink, and is not pruned. */
  ghost predicate Bounded(t: Tree, n: nat)
    decreases t
  {
    match t
    case Leaf(tuples) => forall j | 0 <= j < |tuples| :: |tuples[j].hit.d| == n
    case Inner(downs) =>
      forall j | 0 <= j < |downs| ::
        |downs[j].d| == n && Bounded(downs[j].child, n)
        && forall h | Has(downs[j].child, h) :: downs[j].match_ && Leq(downs[j].d, h.d)
  }

  lemma {:induction false} HitLength(t: Tree, n: nat, h: Hit)
    requires Bounded(t, n) && Has(t, h)
    ensures |h.d| == n
    decreases t
  {
    match t
    case Leaf(tuples) =>
    case Inner(downs) =>
      var j :| 0 <= j < |downs| && Left(downs[j].child, 0, h);
      HitLength(downs[j].child, n, h);
  }

  // ---- the queue ----

  datatype Item = Heap(hit: Hit) | Page(d: Dist, t: Tree)

  function DistOf(it: Item): Dist { if it.Heap? then it.hit.d else it.d }

  /** The hits that an item leads to. */
  ghost predicate Leads(it: Item, h: Hit) { if it.Heap? then it.hit == h else Has(it.t, h) }

  /** The item makes sure that the hit's tuple comes out, at this distance or a smaller one. */
  ghost predicate Serves(it: Item, h: Hit) {
    if it.Heap? then it.hit.tid == h.tid && Leq(it.hit.d, h.d) else Has(it.t, h)
  }

  ghost predicate Served(queue: seq<Item>, h: Hit) { exists k :: 0 <= k < |queue| && Serves(queue[k], h) }

  ghost predicate ItemOk(root: Tree, n: nat, it: Item) {
    && |DistOf(it)| == n && (it.Page? ==> Bounded(it.t, n))
    && forall h | Leads(it, h) :: Has(root, h) && Leq(DistOf(it), h.d)
  }

  ghost predicate Returned(results: seq<Hit>, tid: nat) { exists k :: 0 <= k < |results| && results[k].tid == tid }

  /** No returned hit is farther than what the item leads to. */
  ghost predicate After(results: seq<Hit>, it: Item) {
    forall k, h | 0 <= k < |results| && Leads(it, h) :: Leq(results[k].d, h.d)
  }

  /** The results so far: distinct tuples, in order, each at its least distance. */
  ghost predicate ResultsOk(root: Tree, results: seq<Hit>) {
    && (forall j, k | 0 <= j < k < |results| :: results[j].tid != results[k].tid && Leq(results[j].d, results[k].d))
    && forall k | 0 <= k < |results| :: Nearest(root, results[k])
  }

  ghost predicate Nearest(root: Tree, r: Hit) { Has(root, r) && forall h | Has(root, h) && h.tid == r.tid :: Leq(r.d, h.d) }

  /** The distance table remembers the best queued hit of every tuple not yet returned. */
  ghost predicate BestOk(queue: seq<Item>, results: seq<Hit>, best: map<nat, Dist>, n: nat) {
    forall tid | tid in best && !Returned(results, tid) :: |best[tid]| == n && Heap(Hit(tid, best[tid])) in queue
  }

  /** The state of the scan while page `t` is being read, up to position `i`. */
  ghost predicate Inv(root: Tree, n: nat, queue: seq<Item>, results: seq<Hit>, best: map<nat, Dist>, t: Tree, i: nat) {
    && ResultsOk(root, results) && BestOk(queue, results, best, n)
    && (forall k | 0 <= k < |queue| :: ItemOk(root, n, queue[k]) && After(results, queue[k]))
    && forall h | Has(root, h) :: Returned(results, h.tid) || Served(queue, h) || Left(t, i, h)
  }

  /** What is known of a page while it is read. */
  ghost predicate Reading(root: Tree, n: nat, results: seq<Hit>, t: Tree) {
    && Bounded(t, n) && (forall h | Has(t, h) :: Has(root, h))
    && forall k, h | 0 <= k < |results| && Has(t, h) :: Leq(results[k].d, h.d)
  }

  const NOTHING: Tree := Leaf([])

  // ---- reading a page ----

  lemma ServedMore(queue: seq<Item>, it: Item, h: Hit)
    requires Served(queue, h)
    ensures Served(queue + [it], h)
  {
    var k :| 0 <= k < |queue| && Serves(queue[k], h);
    assert (queue + [it])[k] == queue[k];
  }

  lemma JustServed(queue: seq<Item>, it: Item, h: Hit)
    requires Serves(it, h)
    ensures Served(queue + [it], h)
  {
    assert (queue + [it])[|queue|] == it;
  }

  lemma PushKeepsBest(queue: seq<Item>, results: seq<Hit>, best: map<nat, Dist>, best': map<nat, Dist>, n: nat, it: Item)
    requires BestOk(queue, results, best, n) && |DistOf(it)| == n
    requires best' == best || (it.Heap? && best' == best[it.hit.tid := it.hit.d])
    ensures BestOk(queue + [it], results, best', n)
  {
    assert it in queue + [it];
    assert forall j | j in queue :: j in queue + [it];
  }

  /** A new item that takes over position `i` of the page. */
  lemma PushKeepsInv(root: Tree, n: nat, queue: seq<Item>, results: seq<Hit>, best: map<nat, Dist>, best': map<nat, Dist>,
                     t: Tree, i: nat, it: Item)
    requires Inv(root, n, queue, results, best, t, i) && ItemOk(root, n, it) && After(results, it)
    requires forall h | Left(t, i, h) :: Left(t, i + 1, h) || Serves(it, h)
    requires best' == best || (it.Heap? && best' == best[it.hit.tid := it.hit.d])
    ensures Inv(root, n, queue + [it], results, best', t, i + 1)
  {
    var queue' := queue + [it];
    forall h | Has(root, h) ensures Returned(results, h.tid) || Served(queue', h) || Left(t, i + 1, h) {
      if Served(queue, h) {
        ServedMore(queue, it, h);
      } else if Left(t, i, h) && Serves(it, h) {
        JustServed(queue, it, h);
      }
    }
    PushKeepsBest(queue, results, best, best', n, it);
  }

  /** A position whose hit is already looked after. */
  lemma SkipKeepsInv(root: Tree, n: nat, queue: seq<Item>, results: seq<Hit>, best: map<nat, Dist>, t: Tree, i: nat)
    requires Inv(root, n, queue, results, best, t, i)
    requires forall h | Left(t, i, h) :: Left(t, i + 1, h) || Served(queue, h) || Returned(results, h.tid)
    ensures Inv(root, n, queue, results, best, t, i + 1)
  {
  }

  // ---- taking an item ----

  function Without(queue: seq<Item>, k: nat): seq<Item>
    requires k < |queue|
  {
    queue[..k] + queue[k + 1..]
  }

  /** No other item is nearer. */
  ghost predicate First(queue: seq<Item>, k: nat) {
    k < |queue| && forall j | 0 <= j < |queue| :: Leq(DistOf(queue[k]), DistOf(queue[j]))
  }

  lemma StillServed(queue: seq<Item>, k: nat, h: Hit)
    requires k < |queue| && Served(queue, h)
    ensures Served(Without(queue, k), h) || Serves(queue[k], h)
  {
    var j :| 0 <= j < |queue| && Serves(queue[j], h);
    if j < k {
      assert Without(queue, k)[j] == queue[j];
    } else if j > k {
      assert Without(queue, k)[j - 1] == queue[j];
    }
  }

  lemma WithoutItems(queue: seq<Item>, k: nat)
    requires k < |queue|
    ensures forall it | it in Without(queue, k) :: it in queue
    ensures forall it | it in queue && it != queue[k] :: it in Without(queue, k)
  {
    assert queue == queue[..k] + [queue[k]] + queue[k + 1..];
  }

  /** A page is taken from the queue to be read. */
  lemma TakePage(root: Tree, n: nat, queue: seq<Item>, results: seq<Hit>, best: map<nat, Dist>, k: nat)
    requires Inv(root, n, queue, results, best, NOTHING, 0) && k < |queue| && queue[k].Page?
    ensures Inv(root, n, Without(queue, k), results, best, queue[k].t, 0) && Reading(root, n, results, queue[k].t)
  {
    var queue', t := Without(queue, k), queue[k].t;
    WithoutItems(queue, k);
    forall h | Has(root, h) ensures Returned(results, h.tid) || Served(queue', h) || Left(t, 0, h) {
      if Served(queue, h) { StillServed(queue, k, h); }
    }
    forall j | 0 <= j < |queue'| ensures ItemOk(root, n, queue'[j]) && After(results, queue'[j]) {
      assert queue'[j] in queue;
    }
    assert ItemOk(root, n, queue[k]) && After(results, queue[k]);
    forall j, h | 0 <= j < |results| && Has(t, h) ensures Leq(results[j].d, h.d) {
      assert Leads(queue[k], h);
    }
    forall h | Has(t, h) ensures Has(root, h) { assert Leads(queue[k], h); }
  }

  /** A hit whose tuple was returned before is dropped. */
  lemma DropHit(root: Tree, n: nat, queue: seq<Item>, results: seq<Hit>, best: map<nat, Dist>, k: nat)
    requires Inv(root, n, queue, results, best, NOTHING, 0) && k < |queue| && queue[k].Heap? && Returned(results, queue[k].hit.tid)
    ensures Inv(root, n, Without(queue, k), results, best, NOTHING, 0)
  {
    var queue' := Without(queue, k);
    WithoutItems(queue, k);
    forall h | Has(root, h) ensures Returned(results, h.tid) || Served(queue', h) {
      if Served(queue, h) { StillServed(queue, k, h); }
    }
    forall j | 0 <= j < |queue'| ensures ItemOk(root, n, queue'[j]) && After(results, queue'[j]) {
      assert queue'[j] in queue;
    }
  }

  /** The first hit of the queue is at its tuple's least distance. */
  lemma FirstIsNearest(root: Tree, n: nat, queue: seq<Item>, results: seq<Hit>, best: map<nat, Dist>, k: nat)
    requires Inv(root, n, queue, results, best, NOTHING, 0) && First(queue, k) && queue[k].Heap?
    requires !Returned(results, queue[k].hit.tid)
    ensures Nearest(root, queue[k].hit)
  {
    var r := queue[k].hit;
    assert ItemOk(root, n, queue[k]) && Leads(queue[k], r);
    forall h | Has(root, h) && h.tid == r.tid ensures Leq(r.d, h.d) {
      assert Served(queue, h);
      var j :| 0 <= j < |queue| && Serves(queue[j], h);
      assert ItemOk(root, n, queue[j]);
      assert Leq(DistOf(queue[j]), h.d) by {
        if queue[j].Page? { assert Leads(queue[j], h); }
      }
      LeqTransitive(r.d, DistOf(queue[j]), h.d);
    }
  }

  lemma LaterThanFirst(root: Tree, n: nat, queue: seq<Item>, k: nat, j: nat, h: Hit)
    requires First(queue, k) && j < |queue| && ItemOk(root, n, queue[j]) && Leads(queue[j], h)
    ensures Leq(DistOf(queue[k]), h.d)
  {
    LeqTransitive(DistOf(queue[k]), DistOf(queue[j]), h.d);
  }

  lemma StillAfter(root: Tree, n: nat, queue: seq<Item>, results: seq<Hit>, k: nat)
    requires First(queue, k) && queue[k].Heap?
    requires forall j | 0 <= j < |queue| :: ItemOk(root, n, queue[j]) && After(results, queue[j])
    ensures forall it | it in queue :: ItemOk(root, n, it) && After(results + [queue[k].hit], it)
  {
    var results' := results + [queue[k].hit];
    forall it | it in queue ensures ItemOk(root, n, it) && After(results', it) {
      var j: nat :| j < |queue| && queue[j] == it;
      assert After(results, it);
      forall m, h | 0 <= m < |results'| && Leads(it, h) ensures Leq(results'[m].d, h.d) {
        if m == |results| { LaterThanFirst(root, n, queue, k, j, h); }
      }
    }
  }

  lemma ResultsGrow(root: Tree, results: seq<Hit>, r: Hit)
    requires ResultsOk(root, results) && Nearest(root, r) && !Returned(results, r.tid) && After(results, Heap(r))
    ensures ResultsOk(root, results + [r])
  {
    assert Leads(Heap(r), r);
  }

  lemma ReturnedMore(results: seq<Hit>, r: Hit, tid: nat)
    ensures Returned(results + [r], tid) <==> Returned(results, tid) || tid == r.tid
  {
    var results' := results + [r];
    if Returned(results, tid) {
      var k :| 0 <= k < |results| && results[k].tid == tid;
      assert results'[k].tid == tid;
    }
    if tid == r.tid { assert results'[|results|].tid == tid; }
  }

  lemma ReturnHit(root: Tree, n: nat, queue: seq<Item>, results: seq<Hit>, best: map<nat, Dist>, k: nat)
    requires Inv(root, n, queue, results, best, NOTHING, 0) && First(queue, k) && queue[k].Heap?
    requires !Returned(results, queue[k].hit.tid)
    ensures Inv(root, n, Without(queue, k), results + [queue[k].hit], best, NOTHING, 0)
  {
    var queue', r := Without(queue, k), queue[k].hit;
    FirstIsNearest(root, n, queue, results, best, k);
    ResultsGrow(root, results, r);
    StillAfter(root, n, queue, results, k);
    WithoutItems(queue, k);
    forall h | Has(root, h) ensures Returned(results + [r], h.tid) || Served(queue', h) {
      ReturnedMore(results, r, h.tid);
      if Served(queue, h) { StillServed(queue, k, h); }
    }
    forall tid | tid in best && !Returned(results + [r], tid) ensures |best[tid]| == n && Heap(Hit(tid, best[tid])) in queue' {
      ReturnedMore(results, r, tid);
    }
  }

  // ---- termination ----

  function Weight(t: Tree): (w: nat)
    ensures w > 0
    decreases t, 1
  {
    1 + WeightFrom(t, 0)
  }

  /** The work in a page from position `i` on. */
  function WeightFrom(t: Tree, i: nat): nat
    requires i <= Length(t)
    decreases t, 0, Length(t) - i
  {
    if i == Length(t) then 0
    else (if t.Leaf? then 1 else Weight(t.downs[i].child)) + WeightFrom(t, i + 1)
  }

  function Length(t: Tree): nat { if t.Leaf? then |t.tuples| else |t.downs| }

  function ItemWeight(it: Item): nat { if it.Heap? then 1 else Weight(it.t) }

  function QueueWeight(queue: seq<Item>): nat {
    if queue == [] then 0 else QueueWeight(queue[..|queue| - 1]) + ItemWeight(queue[|queue| - 1])
  }

  lemma {:induction false} WeightWithout(queue: seq<Item>, k: nat)
    requires k < |queue|
    ensures QueueWeight(Without(queue, k)) == QueueWeight(queue) - ItemWeight(queue[k])
    decreases |queue|
  {
    if k == |queue| - 1 {
      assert Without(queue, k) == queue[..k];
    } else {
      var init := queue[..|queue| - 1];
      WeightWithout(init, k);
      assert Without(queue, k)[..|queue| - 2] == Without(init, k);
    }
  }

  lemma WeightPush(queue: seq<Item>, it: Item)
    ensures QueueWeight(queue + [it]) == QueueWeight(queue) + ItemWeight(it)
  {
    assert (queue + [it])[..|queue|] == queue;
  }
}
