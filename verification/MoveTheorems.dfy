/** What moving a chain amounts to: the chain read from the new link is the old one
    reversed behind the new tuple, the old head leads there, and nothing else changes. */
module MoveTheorems {
  import opened LeafPage
  import opened LeafChains
  import opened VacuumPlan
  import opened LeafBuffer
  import opened LeafPlace
  import opened VacuumTheorems
  import opened MoveLeafs

  function Reversed<T>(s: seq<T>): (r: seq<T>)
    ensures |r| == |s| && forall k | 0 <= k < |s| :: r[k] == s[|s| - 1 - k]
  {
    seq(|s|, k requires 0 <= k < |s| => s[|s| - 1 - k])
  }

  /** The chain on the destination page, from the new link on. */
  ghost function NewPath<D>(r: Record<D>): seq<nat> { Reversed(r.toInsert) }

  lemma PlacedTuple<D>(s: PageState<D>, r: Record<D>, p: Items<D>, c: seq<nat>, dead: bool, new_: Tuple<D>, q: Items<D>, k: nat)
    requires Describes(r, p, c, dead, new_) && RecordFits(s, r) && q == ReplayAll(s, r.tuples, r.toInsert).items && k < |r.toInsert|
    ensures IsLive(q, r.toInsert[k]) && At(q, r.toInsert[k]) == r.tuples[k]
    ensures NextOf(q, r.toInsert[k]) == if k == 0 then 0 else r.toInsert[k - 1]
  {
    TuplesLive(r, p, c, dead, new_);
    TupleNext(r, p, c, dead, new_, k);
    var s' := ReplayAll(s, r.tuples, r.toInsert);
    PlacedAll(s, r.tuples, r.toInsert, s');
    PlacedOne(s.items, q, r.tuples, r.toInsert, k);
  }

  lemma PlacedOne<D>(p: Items<D>, q: Items<D>, ts: seq<Tuple<D>>, offs: seq<nat>, k: nat)
    requires |ts| == |offs| && AllPlaced(p, q, ts, offs) && k < |ts|
    ensures InPage(q, offs[k]) && At(q, offs[k]) == ts[k]
  {
  }

  lemma TupleNext<D>(r: Record<D>, p: Items<D>, c: seq<nat>, dead: bool, new_: Tuple<D>, k: nat)
    requires Describes(r, p, c, dead, new_) && k < |r.tuples|
    ensures r.tuples[k].Live? && r.tuples[k].next == if k == 0 then 0 else r.toInsert[k - 1]
  {
    var moved := if dead then [] else c;
    if k < |moved| { assert CopiedAs(p, moved, k, r.tuples[k], r.toInsert); }
  }

  lemma TuplesLive<D>(r: Record<D>, p: Items<D>, c: seq<nat>, dead: bool, new_: Tuple<D>)
    requires Describes(r, p, c, dead, new_)
    ensures forall k | 0 <= k < |r.tuples| :: r.tuples[k].Live?
  {
    var moved := if dead then [] else c;
    forall k | 0 <= k < |r.tuples| ensures r.tuples[k].Live? {
      if k < |moved| { assert CopiedAs(p, moved, k, r.tuples[k], r.toInsert); }
    }
  }

  /** The new link leads to a linked chain that ends on the page. */
  lemma MovedChain<D>(s: PageState<D>, r: Record<D>, p: Items<D>, c: seq<nat>, dead: bool, new_: Tuple<D>, q: Items<D>)
    requires Describes(r, p, c, dead, new_) && RecordFits(s, r) && q == ReplayAll(s, r.tuples, r.toInsert).items
    ensures var d := NewPath(r);
      d[0] == Target(r).offset && Linked(q, d) && AllLive(q, d) && NextOf(q, d[|d| - 1]) == 0
  {
    var d, n := NewPath(r), |r.toInsert|;
    forall k | 0 <= k < n ensures IsLive(q, d[k]) && NextOf(q, d[k]) == if k + 1 < n then d[k + 1] else 0 {
      PlacedTuple(s, r, p, c, dead, new_, q, n - 1 - k);
    }
    PlacedTuple(s, r, p, c, dead, new_, q, 0);
    assert d[n - 1] == r.toInsert[0];
  }

  /** A scan of the moved chain sees the new entry and the old ones in reverse: no heap
      pointer is lost and none added but the new one. */
  lemma MovedContents<D>(s: PageState<D>, r: Record<D>, p: Items<D>, c: seq<nat>, dead: bool, new_: Tuple<D>, q: Items<D>)
    requires Describes(r, p, c, dead, new_) && RecordFits(s, r) && q == ReplayAll(s, r.tuples, r.toInsert).items
    requires dead || AllLive(p, c)
    ensures AllLive(q, NewPath(r))
    ensures Contents(q, NewPath(r)) == [(new_.heapPtr, new_.datum)] + (if dead then [] else Reversed(Contents(p, c)))
  {
    MovedChain(s, r, p, c, dead, new_, q);
    var d, n, moved := NewPath(r), |r.toInsert|, if dead then [] else c;
    var old_ := if dead then [] else Reversed(Contents(p, c));
    forall k | 0 <= k < n ensures Contents(q, d)[k] == ([(new_.heapPtr, new_.datum)] + old_)[k] {
      PlacedTuple(s, r, p, c, dead, new_, q, n - 1 - k);
      if k > 0 { OldEntry(r, p, c, dead, new_, n - 1 - k); }
    }
  }

  lemma OldEntry<D>(r: Record<D>, p: Items<D>, c: seq<nat>, dead: bool, new_: Tuple<D>, k: nat)
    requires Describes(r, p, c, dead, new_) && k < |r.tuples| - 1 && !dead && AllLive(p, c)
    ensures r.tuples[k].Live? && (r.tuples[k].heapPtr, r.tuples[k].datum) == Contents(p, c)[k]
  {
    assert CopiedAs(p, c, k, r.tuples[k], r.toInsert);
  }

  /** A scan that still comes by the old link finds the redirection; the other tuples of the
      source page stay. */
  lemma OldHeadLeadsOn<D>(s: PageState<D>, r: Record<D>, recptr: nat, o: nat)
    requires r.toInsert != [] && r.toDelete != [] && InPage(s.items, o)
    ensures var q := SourceAfter(s, r, recptr).items;
      && InPage(q, o)
      && (o == r.toDelete[0] && r.isBuild ==> At(q, o) == Placeholder)
      && (o == r.toDelete[0] && !r.isBuild ==> At(q, o) == Redirect(Tid(r.dstBlk, r.toInsert[|r.toInsert| - 1]), r.xid))
      && (o != r.toDelete[0] && o in r.toDelete ==> At(q, o) == Placeholder)
      && (o !in r.toDelete ==> At(q, o) == At(s.items, o)) && |q| == |s.items|
    ensures SourceAfter(s, r, recptr).lsn == recptr
  {
  }

  /** So a scan that comes by the old link, outside an index build, is led to the head of the
      new chain and sees all old entries there. */
  lemma OldLinkSeesAll<D>(src: PageState<D>, dst: PageState<D>, r: Record<D>, c: seq<nat>, dead: bool, new_: Tuple<D>, recptr: nat)
    requires Describes(r, src.items, c, dead, new_) && RecordFits(dst, r) && !r.isBuild && c != [] && InPage(src.items, c[0])
    requires dead || AllLive(src.items, c)
    ensures var p, q, d := SourceAfter(src, r, recptr).items, DestAfter(dst, r, recptr).items, NewPath(r);
      && InPage(p, c[0]) && At(p, c[0]) == Redirect(Tid(r.dstBlk, d[0]), r.xid)
      && Linked(q, d) && AllLive(q, d) && NextOf(q, d[|d| - 1]) == 0
      && Contents(q, d) == [(new_.heapPtr, new_.datum)] + (if dead then [] else Reversed(Contents(src.items, c)))
  {
    var q := ReplayAll(dst, r.tuples, r.toInsert).items;
    OldHeadLeadsOn(src, r, recptr, c[0]);
    MovedChain(dst, r, src.items, c, dead, new_, q);
    MovedContents(dst, r, src.items, c, dead, new_, q);
  }

  /** Tuples of other chains on the destination page stay where they are. */
  lemma OthersOnDest<D>(s: PageState<D>, r: Record<D>, p: Items<D>, c: seq<nat>, dead: bool, new_: Tuple<D>, o: nat)
    requires Describes(r, p, c, dead, new_) && RecordFits(s, r) && InPage(s.items, o) && !At(s.items, o).Placeholder?
    ensures var q := ReplayAll(s, r.tuples, r.toInsert).items; InPage(q, o) && At(q, o) == At(s.items, o) && o !in r.toInsert
  {
    TuplesLive(r, p, c, dead, new_);
    PlacedAll(s, r.tuples, r.toInsert, ReplayAll(s, r.tuples, r.toInsert));
  }

  /** Accurate counters stay accurate on both pages. */
  lemma MoveKeepsCounters<D>(s: PageState<D>, r: Record<D>, p: Items<D>, c: seq<nat>, dead: bool, new_: Tuple<D>, recptr: nat)
    requires Describes(r, p, c, dead, new_) && RecordFits(s, r) && Accurate(s)
    ensures Accurate(DestAfter(s, r, recptr)) && DestAfter(s, r, recptr).lsn == recptr
  {
    TuplesLive(r, p, c, dead, new_);
    CountsAll(s, r.tuples, r.toInsert);
  }

  lemma SourceCounters<D>(s: PageState<D>, r: Record<D>, recptr: nat)
    requires r.toInsert != [] && Accurate(s)
    requires forall o | o in r.toDelete :: InPage(s.items, o) && (IsLive(s.items, o) || At(s.items, o) == Dead)
    ensures Accurate(SourceAfter(s, r, recptr))
  {
    var mark := Replacement(r.toDelete, HeadMark(r), Placeholder);
    var q := SourceAfter(s, r, recptr).items;
    var ph, rd := PlaceholdersIn(r.toDelete, mark), RedirectsIn(r.toDelete, mark);
    forall o: nat
      ensures o in Placeholders(q) <==> o in Placeholders(s.items) || o in ph
      ensures o in ph ==> o !in Placeholders(s.items)
      ensures o in Redirects(q) <==> o in Redirects(s.items) || o in rd
      ensures o in rd ==> o !in Redirects(s.items)
    {
      if InPage(s.items, o) { assert At(q, o) == if o in r.toDelete then mark(o) else At(s.items, o); }
    }
    Added(Placeholders(s.items), ph, Placeholders(q));
    Added(Redirects(s.items), rd, Redirects(q));
  }

  lemma Added(a: set<nat>, b: set<nat>, ab: set<nat>)
    requires (forall o: nat :: o in ab <==> o in a || o in b) && forall o: nat :: o in b ==> o !in a
    ensures |ab| == |a| + |b|
  {
    assert ab == a + b && a * b == {};
  }
}
