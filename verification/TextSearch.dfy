/** The scan of the radix tree: it reports exactly the heap tuples stored under a string
    that meets every scan key, each once. */
module TextSearch {
  import opened TextStrings
  import opened TextTree
  import opened TextConsistent
  import opened Lists

  // ---- what is stored, entry by entry ----

  lemma {:induction false} FiledHas(items: seq<Item>, acc: Str, e: Entry)
    ensures e in Filed(items, acc) <==> exists j :: 0 <= j < |items| && e == (acc + items[j].rest, items[j].tid)
    decreases |items|
  {
    if items != [] {
      var init, last := items[..|items| - 1], items[|items| - 1];
      FiledHas(init, acc, e);
      assert items == init + [last];
      if e in Filed(init, acc) {
        var j :| 0 <= j < |init| && e == (acc + init[j].rest, init[j].tid);
        assert items[j] == init[j];
      }
    }
  }

  ghost predicate InNode(t: Tree, acc: Str, i: nat, e: Entry)
    requires t.Inner? && i < |t.children|
  {
    e in Stored(t.children[i], acc + NodeBytes(t, i))
  }

  lemma {:induction false} StoredInHas(t: Tree, n: nat, acc: Str, e: Entry)
    requires t.Inner? && n <= |t.children|
    ensures e in StoredIn(t, n, acc) <==> exists i: nat :: i < n && InNode(t, acc, i, e)
    decreases n
  {
    if n > 0 {
      StoredInHas(t, n - 1, acc, e);
      var a, b := StoredIn(t, n - 1, acc), Stored(t.children[n - 1], acc + NodeBytes(t, n - 1));
      assert StoredIn(t, n, acc) == a + b;
      assert e in a + b <==> e in a || e in b;
      assert InNode(t, acc, n - 1, e) <==> e in b;
    }
  }

  /** Everything below a node begins with what the node spells. */
  lemma {:induction false} StoredExtends(t: Tree, acc: Str, e: Entry)
    requires e in Stored(t, acc)
    ensures acc <= e.0
    decreases t
  {
    match t
    case Leaf(items) =>
      FiledHas(items, acc, e);
    case Inner(prefix, _, _, children) =>
      StoredInHas(t, |children|, acc + prefix, e);
      var i: nat :| i < |children| && InNode(t, acc + prefix, i, e);
      StoredExtends(children[i], acc + prefix + NodeBytes(t, i), e);
  }

  lemma NotEmpty(t: Tree, acc: Str, e: Entry)
    requires e in Stored(t, acc)
    ensures t != Leaf([])
  {
  }

  // ---- the queue ----

  /** A subtree still to be visited, and the string spelled on the way to it. */
  datatype Visit = Visit(t: Tree, acc: Str)

  function Nodes(t: Tree): (n: nat)
    ensures n > 0
    decreases t, 1
  {
    match t
    case Leaf(_) => 1
    case Inner(_, _, _, children) => 1 + NodesIn(t, |children|)
  }

  function NodesIn(t: Tree, n: nat): nat
    requires t.Inner? && n <= |t.children|
    decreases t, 0, n
  {
    if n == 0 then 0 else NodesIn(t, n - 1) + Nodes(t.children[n - 1])
  }

  lemma {:induction false} NodesInMore(t: Tree, m: nat, n: nat)
    requires t.Inner? && m <= n <= |t.children|
    ensures NodesIn(t, m) <= NodesIn(t, n)
  {
    if m < n { NodesInMore(t, m, n - 1); }
  }

  function QueueNodes(queue: seq<Visit>): nat {
    if queue == [] then 0 else QueueNodes(queue[..|queue| - 1]) + Nodes(queue[|queue| - 1].t)
  }

  lemma {:induction false} QueueJoin(a: seq<Visit>, b: seq<Visit>)
    ensures QueueNodes(a + b) == QueueNodes(a) + QueueNodes(b)
    decreases |b|
  {
    if b == [] {
      assert a + b == a;
    } else {
      assert (a + b)[..|a + b| - 1] == a + b[..|b| - 1];
      QueueJoin(a, b[..|b| - 1]);
    }
  }

  lemma QueueWithout(queue: seq<Visit>, k: nat, more: seq<Visit>)
    requires k < |queue|
    ensures QueueNodes(queue[..k] + queue[k + 1..] + more) == QueueNodes(queue) - Nodes(queue[k].t) + QueueNodes(more)
  {
    assert queue == queue[..k] + [queue[k]] + queue[k + 1..];
    QueueJoin(queue[..k], [queue[k]]);
    QueueJoin(queue[..k] + [queue[k]], queue[k + 1..]);
    QueueJoin(queue[..k], queue[k + 1..]);
    QueueJoin(queue[..k] + queue[k + 1..], more);
    assert [queue[k]][..0] == [];
    assert QueueNodes([queue[k]]) == Nodes(queue[k].t);
  }

  ghost predicate Below(queue: seq<Visit>, e: Entry) {
    exists j :: 0 <= j < |queue| && e in Stored(queue[j].t, queue[j].acc)
  }

  ghost predicate QueueOk(queue: seq<Visit>, keys: seq<Key>, ps: Params) {
    forall v | v in queue :: Valid(v.t, ps) && PrefixesChecked(v.acc, keys)
  }

  // ---- visiting an inner tuple ----

  /** The nodes put on the queue stand for everything below the tuple that can match. */
  ghost predicate Expanded(t: Tree, acc: Str, keys: seq<Key>, more: seq<Visit>, ps: Params) {
    && QueueOk(more, keys, ps)
    && (forall e | Below(more, e) :: e in Stored(t, acc))
    && forall e | e in Stored(t, acc) && Matches(e.0, keys) :: Below(more, e)
  }

  /** The visits made for the first `n` chosen nodes, empty downlinks passed over. */
  ghost predicate Pushed(t: Tree, nodes: seq<nat>, values: seq<Str>, n: nat, more: seq<Visit>)
    requires t.Inner? && n <= |nodes| == |values| && forall j | 0 <= j < |nodes| :: nodes[j] < |t.children|
  {
    && (forall v | v in more :: exists j :: 0 <= j < n && v == Visit(t.children[nodes[j]], values[j]))
    && (forall j | 0 <= j < n :: t.children[nodes[j]] == Leaf([]) || Visit(t.children[nodes[j]], values[j]) in more)
  }

  method InnerTest(t: Tree, acc: Str, keys: seq<Key>, ps: Params) returns (more: seq<Visit>)
    requires t.Inner? && Valid(t, ps)
    ensures Expanded(t, acc, keys, more, ps) && QueueNodes(more) < Nodes(t)
  {
    var nodes, values := InnerConsistent(t, acc, keys);
    if t.allTheSame {
      AllOrNone(t, acc, keys, nodes, values);
      if |nodes| != 0 && |nodes| != |t.labels| {
        assert false;
      }
    }
    more := PushNodes(t, nodes, values);
    PushedIsExpanded(t, acc, keys, nodes, values, more, ps);
  }

  method PushNodes(t: Tree, nodes: seq<nat>, values: seq<Str>) returns (more: seq<Visit>)
    requires t.Inner? && |nodes| == |values| && forall j | 0 <= j < |nodes| :: nodes[j] < |t.children|
    requires forall j, k | 0 <= j < k < |nodes| :: nodes[j] < nodes[k]
    ensures Pushed(t, nodes, values, |nodes|, more) && QueueNodes(more) < Nodes(t)
  {
    more := [];
    ghost var next: nat := 0;
    var i := 0;
    while i < |nodes|
      invariant 0 <= i <= |nodes| && Pushed(t, nodes, values, i, more)
      invariant next <= |t.children| && (i < |nodes| ==> next <= nodes[i]) && QueueNodes(more) <= NodesIn(t, next)
    {
      var child := t.children[nodes[i]];
      NodesInMore(t, next, nodes[i]);
      next := nodes[i] + 1;
      if child != Leaf([]) {
        var v := Visit(child, values[i]);
        assert (more + [v])[..|more|] == more;
        more := more + [v];
      }
      i := i + 1;
    }
    NodesInMore(t, next, |t.children|);
  }

  lemma PushedIsExpanded(t: Tree, acc: Str, keys: seq<Key>, nodes: seq<nat>, values: seq<Str>, more: seq<Visit>, ps: Params)
    requires t.Inner? && Valid(t, ps) && Chosen(t, acc, keys, |t.labels|, nodes, values)
    requires Pushed(t, nodes, values, |nodes|, more)
    ensures Expanded(t, acc, keys, more, ps)
  {
    forall v | v in more ensures Valid(v.t, ps) && PrefixesChecked(v.acc, keys) {
      var j :| 0 <= j < |nodes| && v == Visit(t.children[nodes[j]], values[j]);
      PassedIsChecked(values[j], keys);
    }
    forall e | Below(more, e) ensures e in Stored(t, acc) {
      PushedIsStored(t, acc, keys, nodes, values, more, e);
    }
    forall e | e in Stored(t, acc) && Matches(e.0, keys) ensures Below(more, e) {
      MatchIsPushed(t, acc, keys, nodes, values, more, e);
    }
  }

  lemma PassedIsChecked(v: Str, keys: seq<Key>)
    requires AllMayPass(v, keys)
    ensures PrefixesChecked(v, keys)
  {
    forall k | k in keys && k.strategy == StartsWith ensures MemCmp(v, k.query, MinLen(v, k.query)) == 0 {
      assert MayPass(v, k);
    }
  }

  lemma PushedIsStored(t: Tree, acc: Str, keys: seq<Key>, nodes: seq<nat>, values: seq<Str>, more: seq<Visit>, e: Entry)
    requires t.Inner? && |t.labels| == |t.children| && Chosen(t, acc, keys, |t.labels|, nodes, values)
    requires Pushed(t, nodes, values, |nodes|, more) && Below(more, e)
    ensures e in Stored(t, acc)
  {
    var m :| 0 <= m < |more| && e in Stored(more[m].t, more[m].acc);
    assert more[m] in more;
    var j :| 0 <= j < |nodes| && more[m] == Visit(t.children[nodes[j]], values[j]);
    assert InNode(t, acc + t.prefix, nodes[j], e);
    StoredInHas(t, |t.children|, acc + t.prefix, e);
  }

  /** A stored string that meets the keys is below one of the nodes put on the queue. */
  lemma MatchIsPushed(t: Tree, acc: Str, keys: seq<Key>, nodes: seq<nat>, values: seq<Str>, more: seq<Visit>, e: Entry)
    requires t.Inner? && |t.labels| == |t.children| && Chosen(t, acc, keys, |t.labels|, nodes, values)
    requires Pushed(t, nodes, values, |nodes|, more) && e in Stored(t, acc) && Matches(e.0, keys)
    ensures Below(more, e)
  {
    StoredInHas(t, |t.children|, acc + t.prefix, e);
    var i: nat :| i < |t.children| && InNode(t, acc + t.prefix, i, e);
    var v := NodeValue(t, acc, i);
    StoredExtends(t.children[i], v, e);
    forall k | k in keys ensures MayPass(v, k) {
      assert Satisfies(e.0, k);
      PruningKeepsMatches(v, e.0, k);
    }
    assert i in nodes;
    var j :| 0 <= j < |nodes| && nodes[j] == i;
    NotEmpty(t.children[i], v, e);
    var m :| 0 <= m < |more| && more[m] == Visit(t.children[i], values[j]);
  }

  // ---- the walk ----

  /** Some string stored with this heap tuple meets the keys. */
  ghost predicate Wanted(root: Tree, keys: seq<Key>, tid: nat) {
    exists s: Str :: (s, tid) in Stored(root, []) && Matches(s, keys)
  }

  /** Nothing wanted is lost between the queue and the results. */
  ghost predicate WalkInv(root: Tree, keys: seq<Key>, ps: Params, queue: seq<Visit>, found: seq<nat>) {
    && QueueOk(queue, keys, ps) && NoDup(found)
    && (forall tid | tid in found :: Wanted(root, keys, tid))
    && (forall e | Below(queue, e) :: e in Stored(root, []))
    && forall e | e in Stored(root, []) && Matches(e.0, keys) :: e.1 in found || Below(queue, e)
  }

  lemma InnerVisited(root: Tree, keys: seq<Key>, ps: Params, queue: seq<Visit>, found: seq<nat>, k: nat, more: seq<Visit>)
    requires WalkInv(root, keys, ps, queue, found) && k < |queue|
    requires Expanded(queue[k].t, queue[k].acc, keys, more, ps)
    ensures WalkInv(root, keys, ps, queue[..k] + queue[k + 1..] + more, found)
  {
    var left := queue[..k] + queue[k + 1..];
    var queue' := left + more;
    forall v | v in queue' ensures Valid(v.t, ps) && PrefixesChecked(v.acc, keys) {
      assert v in queue || v in more;
    }
    forall e | Below(queue', e) ensures e in Stored(root, []) {
      BelowSplit(queue, k, more, e);
    }
    forall e | e in Stored(root, []) && Matches(e.0, keys) ensures e.1 in found || Below(queue', e) {
      BelowSplit(queue, k, more, e);
    }
  }

  lemma BelowSplit(queue: seq<Visit>, k: nat, more: seq<Visit>, e: Entry)
    requires k < |queue|
    ensures Below(queue[..k] + queue[k + 1..] + more, e) ==> Below(queue, e) || Below(more, e)
    ensures Below(queue, e) ==> Below(queue[..k] + queue[k + 1..] + more, e) || e in Stored(queue[k].t, queue[k].acc)
    ensures Below(more, e) ==> Below(queue[..k] + queue[k + 1..] + more, e)
    ensures e in Stored(queue[k].t, queue[k].acc) ==> Below(queue, e)
  {
    BelowJoin(queue[..k] + queue[k + 1..], more, e);
    BelowJoin(queue[..k], queue[k + 1..], e);
    BelowJoin(queue[..k], [queue[k]], e);
    BelowJoin(queue[..k] + [queue[k]], queue[k + 1..], e);
    assert queue == queue[..k] + [queue[k]] + queue[k + 1..];
    BelowOne(queue[k], e);
  }

  lemma BelowOne(v: Visit, e: Entry)
    ensures Below([v], e) <==> e in Stored(v.t, v.acc)
  {
    if e in Stored(v.t, v.acc) { assert [v][0] == v; }
  }

  lemma BelowJoin(a: seq<Visit>, b: seq<Visit>, e: Entry)
    ensures Below(a + b, e) <==> Below(a, e) || Below(b, e)
  {
    if Below(a + b, e) {
      var j :| 0 <= j < |a + b| && e in Stored((a + b)[j].t, (a + b)[j].acc);
      if j < |a| { assert (a + b)[j] == a[j]; } else { assert (a + b)[j] == b[j - |a|]; }
    }
    if Below(a, e) {
      var j :| 0 <= j < |a| && e in Stored(a[j].t, a[j].acc);
      assert (a + b)[j] == a[j];
    }
    if Below(b, e) {
      var j :| 0 <= j < |b| && e in Stored(b[j].t, b[j].acc);
      assert (a + b)[|a| + j] == b[j];
    }
  }

  /** What testing the first `n` tuples of a leaf leaves known. */
  ghost predicate LeafInv(root: Tree, keys: seq<Key>, items: seq<Item>, acc: Str, n: nat, found0: seq<nat>, found: seq<nat>)
    requires n <= |items|
  {
    && NoDup(found) && (forall tid | tid in found :: Wanted(root, keys, tid))
    && (forall tid | tid in found0 :: tid in found)
    && forall j | 0 <= j < n && Matches(acc + items[j].rest, keys) :: items[j].tid in found
  }

  /** Tests one leaf tuple; a heap tuple already reported is not reported again. */
  method LeafTestAndStore(ghost root: Tree, keys: seq<Key>, items: seq<Item>, acc: Str, i: nat, ghost found0: seq<nat>,
                          found: seq<nat>)
    returns (found': seq<nat>)
    requires i < |items| && PrefixesChecked(acc, keys) && LeafInv(root, keys, items, acc, i, found0, found)
    requires forall j | 0 <= j < |items| :: (acc + items[j].rest, items[j].tid) in Stored(root, [])
    ensures LeafInv(root, keys, items, acc, i + 1, found0, found')
  {
    found' := found;
    var res := LeafConsistent(items[i].rest, acc, keys);
    if res {
      assert Wanted(root, keys, items[i].tid);
      if items[i].tid !in found {
        found' := found + [items[i].tid];
      }
    }
  }

  method VisitLeaf(ghost root: Tree, keys: seq<Key>, items: seq<Item>, acc: Str, found: seq<nat>) returns (found': seq<nat>)
    requires PrefixesChecked(acc, keys) && NoDup(found) && forall tid | tid in found :: Wanted(root, keys, tid)
    requires forall j | 0 <= j < |items| :: (acc + items[j].rest, items[j].tid) in Stored(root, [])
    ensures LeafInv(root, keys, items, acc, |items|, found, found')
  {
    found' := found;
    var i := 0;
    while i < |items|
      invariant 0 <= i <= |items| && LeafInv(root, keys, items, acc, i, found, found')
    {
      found' := LeafTestAndStore(root, keys, items, acc, i, found, found');
      i := i + 1;
    }
  }

  lemma LeafVisited(root: Tree, keys: seq<Key>, ps: Params, queue: seq<Visit>, found: seq<nat>, k: nat, found': seq<nat>)
    requires WalkInv(root, keys, ps, queue, found) && k < |queue| && queue[k].t.Leaf?
    requires LeafInv(root, keys, queue[k].t.items, queue[k].acc, |queue[k].t.items|, found, found')
    ensures WalkInv(root, keys, ps, queue[..k] + queue[k + 1..] + [], found')
  {
    var items, acc := queue[k].t.items, queue[k].acc;
    var queue' := queue[..k] + queue[k + 1..] + [];
    forall v | v in queue' ensures Valid(v.t, ps) && PrefixesChecked(v.acc, keys) {
      assert v in queue;
    }
    forall e | Below(queue', e) ensures e in Stored(root, []) {
      BelowSplit(queue, k, [], e);
    }
    forall e | e in Stored(root, []) && Matches(e.0, keys) ensures e.1 in found' || Below(queue', e) {
      BelowSplit(queue, k, [], e);
      if e.1 !in found && e in Stored(queue[k].t, acc) {
        FiledHas(items, acc, e);
      }
    }
  }

  lemma LeafIsStored(root: Tree, keys: seq<Key>, ps: Params, queue: seq<Visit>, found: seq<nat>, k: nat)
    requires WalkInv(root, keys, ps, queue, found) && k < |queue| && queue[k].t.Leaf?
    ensures var items := queue[k].t.items;
      forall j | 0 <= j < |items| :: (queue[k].acc + items[j].rest, items[j].tid) in Stored(root, [])
  {
    var items, acc := queue[k].t.items, queue[k].acc;
    forall j | 0 <= j < |items| ensures (acc + items[j].rest, items[j].tid) in Stored(root, []) {
      var e := (acc + items[j].rest, items[j].tid);
      FiledHas(items, acc, e);
      assert Below(queue, e);
    }
  }

  lemma WalkStarts(root: Tree, keys: seq<Key>, ps: Params)
    requires Valid(root, ps)
    ensures WalkInv(root, keys, ps, [Visit(root, [])], [])
  {
    var queue := [Visit(root, [])];
    forall e | e in Stored(root, []) ensures Below(queue, e) {
      assert e in Stored(queue[0].t, queue[0].acc);
    }
  }

  /** One item of the queue, whichever the heap gives. */
  method VisitOne(ghost root: Tree, keys: seq<Key>, ps: Params, queue: seq<Visit>, found: seq<nat>)
    returns (queue': seq<Visit>, found': seq<nat>)
    requires WalkInv(root, keys, ps, queue, found) && queue != []
    ensures WalkInv(root, keys, ps, queue', found') && QueueNodes(queue') < QueueNodes(queue)
  {
    var k: nat :| 0 <= k < |queue|;
    var item := queue[k];
    assert item in queue;
    var more: seq<Visit> := [];
    found' := found;
    if item.t.Leaf? {
      LeafIsStored(root, keys, ps, queue, found, k);
      found' := VisitLeaf(root, keys, item.t.items, item.acc, found);
      LeafVisited(root, keys, ps, queue, found, k, found');
    } else {
      more := InnerTest(item.t, item.acc, keys, ps);
      InnerVisited(root, keys, ps, queue, found, k, more);
    }
    QueueWithout(queue, k, more);
    queue' := queue[..k] + queue[k + 1..] + more;
  }

  method Walk(root: Tree, keys: seq<Key>, ps: Params) returns (found: seq<nat>)
    requires Valid(root, ps)
    ensures NoDup(found)
    ensures forall tid :: tid in found <==> Wanted(root, keys, tid)
  {
    var queue := [Visit(root, [])];
    found := [];
    WalkStarts(root, keys, ps);
    while queue != []
      invariant WalkInv(root, keys, ps, queue, found)
      decreases QueueNodes(queue)
    {
      queue, found := VisitOne(root, keys, ps, queue, found);
    }
    WalkEnds(root, keys, ps, found);
  }

  lemma WalkEnds(root: Tree, keys: seq<Key>, ps: Params, found: seq<nat>)
    requires WalkInv(root, keys, ps, [], found)
    ensures forall tid :: tid in found <==> Wanted(root, keys, tid)
  {
    forall tid | Wanted(root, keys, tid) ensures tid in found {
      var s: Str :| (s, tid) in Stored(root, []) && Matches(s, keys);
      var e: Entry := (s, tid);
      assert e.1 in found || Below([], e);
    }
  }

  /** Insertion changes what every scan reports by exactly the new heap tuple, and only for
      scans whose keys the new string meets. */
  lemma InsertionSeenBySearch(root: Tree, root': Tree, s: Str, tid: nat, keys: seq<Key>, other: nat)
    requires Stored(root', []) == Stored(root, []) + multiset{(s, tid)}
    ensures Wanted(root', keys, other) <==> Wanted(root, keys, other) || (other == tid && Matches(s, keys))
  {
    var was, now := Stored(root, []), Stored(root', []);
    assert forall e :: e in now <==> e in was || e == (s, tid);
    if Wanted(root, keys, other) {
      var w: Str :| (w, other) in was && Matches(w, keys);
      assert (w, other) in now;
    }
    if other == tid && Matches(s, keys) {
      assert (s, other) in now;
    }
    if Wanted(root', keys, other) {
      var w: Str :| (w, other) in now && Matches(w, keys);
    }
  }
}
