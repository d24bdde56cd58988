/** Moving a whole leaf chain, with a new tuple, to another page: forward, and in recovery. */
module MoveLeafs {
  import opened LeafPage
  import opened Lists
  import opened LeafChains
  import opened VacuumPlan
  import opened LeafBuffer
  import opened LeafPlace

  /** The node of the inner tuple above that leads to the chain. */
  class Downlink {
    var target: Tid
    var lsn: nat

    constructor (target: Tid, lsn: nat)
      ensures this.target == target && this.lsn == lsn
    {
      this.target, this.lsn := target, lsn;
    }
  }

  /** The log record: offsets deleted on the source page, offsets filled on the destination
      page, and the tuples as they stand there. */
  datatype Record<D> = Record(toDelete: seq<nat>, toInsert: seq<nat>, tuples: seq<Tuple<D>>, dstBlk: nat, newPage: bool,
                              isBuild: bool, xid: nat)

  function Target<D>(r: Record<D>): Tid
    requires r.toInsert != []
  {
    Tid(r.dstBlk, r.toInsert[|r.toInsert| - 1])
  }

  /** What takes the place of the old head: a redirection, which a build does not need. */
  function HeadMark<D>(r: Record<D>): Tuple<D>
    requires r.toInsert != []
  {
    if r.isBuild then Placeholder else Redirect(Target(r), r.xid)
  }

  ghost function SourceAfter<D>(s: PageState<D>, r: Record<D>, recptr: nat): PageState<D>
    requires r.toInsert != []
  {
    var mark := Replacement(r.toDelete, HeadMark(r), Placeholder);
    PageState(Replaced(s.items, r.toDelete, mark), s.nPlaceholder + |PlaceholdersIn(r.toDelete, mark)|,
              s.nRedirection + |RedirectsIn(r.toDelete, mark)|, recptr)
  }

  ghost predicate RecordFits<D>(s: PageState<D>, r: Record<D>) {
    |r.tuples| == |r.toInsert| > 0 && CanPlaceAll(s, r.tuples, r.toInsert)
  }

  ghost function DestAfter<D>(s: PageState<D>, r: Record<D>, recptr: nat): PageState<D>
    requires RecordFits(s, r)
  {
    ReplayAll(s, r.tuples, r.toInsert).(lsn := recptr)
  }

  /** A page as it is initialized. */
  function Blank<D>(): PageState<D> { PageState([], 0, 0, 0) }

  // ---- forward ----

  /** The chain to be moved: all of it, or a DEAD head that holds nothing. */
  ghost predicate Movable<D>(p: Items<D>, c: seq<nat>, dead: bool) {
    if dead then |c| == 1 && InPage(p, c[0]) && At(p, c[0]) == Dead else LinksOk(p) && IsChain(p, c)
  }

  /** Walks the chain from its head. */
  method CollectChain<D>(p: Items<D>, head: nat, ghost c: seq<nat>, ghost dead: bool) returns (toDelete: seq<nat>, replaceDead: bool)
    requires Movable(p, c, dead) && c[0] == head
    ensures toDelete == c && replaceDead == dead
  {
    toDelete, replaceDead := [], false;
    if At(p, head).Dead? {
      return [head], true;
    }
    var i := head;
    while i != 0
      invariant |toDelete| <= |c| && toDelete == c[..|toDelete|]
      invariant i == if |toDelete| < |c| then c[|toDelete|] else 0
      decreases |c| - |toDelete|
    {
      ghost var k := |toDelete|;
      assert k < |c| && IsLive(p, c[k]);
      assert k + 1 < |c| ==> NextOf(p, c[k]) == c[k + 1];
      toDelete := toDelete + [i];
      i := At(p, i).next;
    }
  }

  /** Tuple `k` as it stands on the new page: linked to the one copied before it. */
  ghost predicate CopiedAs<D>(p: Items<D>, c: seq<nat>, k: nat, t: Tuple<D>, offs: seq<nat>)
    requires k < |c| && k <= |offs|
  {
    IsLive(p, c[k]) && t == At(p, c[k]).(next := if k == 0 then 0 else offs[k - 1])
  }

  ghost predicate Copied<D>(p: Items<D>, c: seq<nat>, s0: PageState<D>, s: PageState<D>, ts: seq<Tuple<D>>, offs: seq<nat>) {
    && |ts| == |offs| <= |c| && CanPlaceAll(s0, ts, offs) && s == ReplayAll(s0, ts, offs)
    && (forall k | 0 <= k < |ts| :: ts[k].Live?)
    && forall k | 0 <= k < |ts| :: CopiedAs(p, c, k, ts[k], offs)
  }

  lemma CopiedMore<D>(p: Items<D>, c: seq<nat>, s0: PageState<D>, s: PageState<D>, ts: seq<Tuple<D>>, offs: seq<nat>, t: Tuple<D>, off: nat)
    requires Copied(p, c, s0, s, ts, offs) && |ts| < |c| && CopiedAs(p, c, |ts|, t, offs) && CanPlace(s, off)
    ensures Copied(p, c, s0, Replay(s, t, off), ts + [t], offs + [off])
  {
    OneMorePlaced(s0, ts, offs, t, off);
    var ts', offs' := ts + [t], offs + [off];
    forall k | 0 <= k < |ts'| ensures CopiedAs(p, c, k, ts'[k], offs') {
      if k < |ts| { assert CopiedAs(p, c, k, ts[k], offs); }
    }
  }

  lemma CopiedAccurate<D>(p: Items<D>, c: seq<nat>, s0: PageState<D>, s: PageState<D>, ts: seq<Tuple<D>>, offs: seq<nat>)
    requires Copied(p, c, s0, s, ts, offs) && Accurate(s0)
    ensures !Stale(s)
  {
    CountsAll(s0, ts, offs);
    AccurateNotStale(s);
  }

  /** Copies the chain in order, so that its links come out reversed. */
  method CopyChain<D>(p: Items<D>, c: seq<nat>, dst: Buffer<D>)
    returns (ts: seq<Tuple<D>>, offs: seq<nat>, hint: nat)
    requires AllLive(p, c) && Accurate(dst.State())
    modifies dst
    ensures Copied(p, c, old(dst.State()), dst.State(), ts, offs) && |ts| == |c|
  {
    ts, offs, hint := [], [], 0;
    var i := 0;
    while i < |c|
      invariant 0 <= i <= |c| && |ts| == |offs| == i
      invariant Copied(p, c, old(dst.State()), dst.State(), ts, offs)
    {
      assert IsLive(p, c[i]);
      var it := At(p, c[i]).(next := if i == 0 then 0 else offs[i - 1]);
      ghost var s := dst.State();
      CopiedAccurate(p, c, old(dst.State()), s, ts, offs);
      var off, mayReplace: bool := 0, *;
      off, hint := AddNewItem(dst, it, hint, mayReplace, true);
      CopiedMore(p, c, old(dst.State()), s, ts, offs, it, off);
      ts, offs := ts + [it], offs + [off];
      i := i + 1;
    }
  }

  /** The record describes the move of chain `c` with the new tuple. */
  ghost predicate Describes<D>(r: Record<D>, p: Items<D>, c: seq<nat>, dead: bool, new_: Tuple<D>) {
    var moved := if dead then [] else c;
    && r.toDelete == c && |r.tuples| == |r.toInsert| == |moved| + 1
    && (forall k | 0 <= k < |moved| :: CopiedAs(p, moved, k, r.tuples[k], r.toInsert))
    && new_.Live? && r.tuples[|moved|] == new_.(next := if moved == [] then 0 else r.toInsert[|moved| - 1])
  }

  lemma RecordMade<D>(p: Items<D>, c: seq<nat>, dead: bool, s0: PageState<D>, s: PageState<D>, ts: seq<Tuple<D>>, offs: seq<nat>,
                      new_: Tuple<D>, t: Tuple<D>, off: nat, r: Record<D>)
    requires var moved := if dead then [] else c; Copied(p, moved, s0, s, ts, offs) && |ts| == |moved|
    requires new_.Live? && t == new_.(next := if |ts| == 0 then 0 else offs[|ts| - 1]) && CanPlace(s, off)
    requires r.toDelete == c && r.tuples == ts + [t] && r.toInsert == offs + [off]
    ensures Describes(r, p, c, dead, new_) && RecordFits(s0, r) && ReplayAll(s0, r.tuples, r.toInsert) == Replay(s, t, off)
  {
    var moved := if dead then [] else c;
    OneMorePlaced(s0, ts, offs, t, off);
    forall k | 0 <= k < |moved| ensures CopiedAs(p, moved, k, r.tuples[k], r.toInsert) {
      assert CopiedAs(p, moved, k, ts[k], offs);
    }
  }

  /** Fills the destination page and makes the record. */
  method FillDest<D>(p: Items<D>, c: seq<nat>, dead: bool, new_: Tuple<D>, dst: Buffer<D>, dstBlk: nat, newPage: bool,
                      isBuild: bool, xid: nat)
    returns (r: Record<D>)
    requires (dead || AllLive(p, c)) && new_.Live? && Accurate(dst.State())
    modifies dst
    ensures Describes(r, p, c, dead, new_) && RecordFits(old(dst.State()), r)
    ensures r.dstBlk == dstBlk && r.newPage == newPage && r.isBuild == isBuild && r.xid == xid
    ensures dst.State() == ReplayAll(old(dst.State()), r.tuples, r.toInsert)
  {
    ghost var moved := if dead then [] else c;
    var ts, offs, hint := CopyChain(p, if dead then [] else c, dst);
    ghost var s := dst.State();
    CopiedAccurate(p, moved, old(dst.State()), s, ts, offs);
    var t := new_.(next := if |ts| == 0 then 0 else offs[|ts| - 1]);
    var off, mayReplace: bool := 0, *;
    off, hint := AddNewItem(dst, t, hint, mayReplace, true);
    r := Record(c, offs + [off], ts + [t], dstBlk, newPage, isBuild, xid);
    RecordMade(p, c, dead, old(dst.State()), s, ts, offs, new_, t, off, r);
  }

  /** The three pages are changed under one log record. */
  method Move<D>(src: Buffer<D>, dst: Buffer<D>, parent: Downlink, head: nat, new_: Tuple<D>, dstBlk: nat, newPage: bool, isBuild: bool, xid: nat,
                 recptr: nat, ghost c: seq<nat>, ghost dead: bool)
    returns (r: Record<D>)
    requires src != dst && Movable(src.items, c, dead) && c[0] == head && new_.Live? && Accurate(dst.State())
    modifies src, dst, parent
    ensures Describes(r, old(src.items), c, dead, new_) && RecordFits(old(dst.State()), r)
    ensures r.dstBlk == dstBlk && r.newPage == newPage && r.isBuild == isBuild && r.xid == xid
    ensures dst.State() == DestAfter(old(dst.State()), r, recptr)
    ensures src.State() == SourceAfter(old(src.State()), r, recptr)
    ensures parent.target == Target(r) && parent.lsn == recptr
  {
    var toDelete, replaceDead := CollectChain(src.items, head, c, dead);
    MovedOffsets(src.items, c, dead);
    r := FillDest(src.items, toDelete, replaceDead, new_, dst, dstBlk, newPage, isBuild, xid);
    src.MultiDeleteInPlace(toDelete, HeadMark(r), Placeholder);
    parent.target, parent.lsn := Target(r), recptr;
    src.lsn, dst.lsn := recptr, recptr;
  }

  lemma MovedOffsets<D>(p: Items<D>, c: seq<nat>, dead: bool)
    requires Movable(p, c, dead)
    ensures NoDup(c) && (forall o | o in c :: InPage(p, o)) && (dead || AllLive(p, c))
  {
    if !dead {
      PathNoDup(p, c);
      forall o | o in c ensures IsLive(p, o) { }
    }
  }

  // ---- recovery ----

  method RedoInserts<D>(dst: Buffer<D>, r: Record<D>)
    requires RecordFits(dst.State(), r)
    modifies dst
    ensures dst.State() == ReplayAll(old(dst.State()), r.tuples, r.toInsert)
  {
    ghost var s0 := dst.State();
    var n := |r.toInsert|;
    PrefixFits(s0, r.tuples, r.toInsert, 0);
    var i := 0;
    while i < n
      invariant 0 <= i <= n && CanPlaceAll(s0, r.tuples[..i], r.toInsert[..i])
      invariant dst.State() == ReplayAll(s0, r.tuples[..i], r.toInsert[..i])
    {
      PrefixFits(s0, r.tuples, r.toInsert, i + 1);
      NextReplay(s0, r.tuples, r.toInsert, i);
      ghost var s := dst.State();
      var ok := AddOrReplaceTuple(dst, r.tuples[i], r.toInsert[i]);
      PlacedIsReplay(s, dst.State(), r.tuples[i], r.toInsert[i]);
      i := i + 1;
    }
    assert r.tuples[..n] == r.tuples && r.toInsert[..n] == r.toInsert;
  }

  lemma {:induction false} PrefixFits<D>(s: PageState<D>, ts: seq<Tuple<D>>, offs: seq<nat>, i: nat)
    requires |ts| == |offs| && CanPlaceAll(s, ts, offs) && i <= |offs|
    ensures CanPlaceAll(s, ts[..i], offs[..i])
    decreases |offs|
  {
    var n := |offs|;
    if i < n {
      assert ts[..n - 1][..i] == ts[..i] && offs[..n - 1][..i] == offs[..i];
      PrefixFits(s, ts[..n - 1], offs[..n - 1], i);
    } else {
      assert ts[..i] == ts && offs[..i] == offs;
    }
  }

  lemma NextReplay<D>(s: PageState<D>, ts: seq<Tuple<D>>, offs: seq<nat>, i: nat)
    requires |ts| == |offs| && i < |offs| && CanPlaceAll(s, ts[..i], offs[..i]) && CanPlaceAll(s, ts[..i + 1], offs[..i + 1])
    ensures CanPlace(ReplayAll(s, ts[..i], offs[..i]), offs[i])
    ensures ReplayAll(s, ts[..i + 1], offs[..i + 1]) == Replay(ReplayAll(s, ts[..i], offs[..i]), ts[i], offs[i])
  {
    assert ts[..i + 1][..i] == ts[..i] && offs[..i + 1][..i] == offs[..i];
  }

  method InitPage<D>(dst: Buffer<D>)
    modifies dst
    ensures dst.State() == Blank()
  {
    dst.items, dst.nPlaceholder, dst.nRedirection, dst.lsn := [], 0, 0, 0;
  }

  /** Replays the record on each of the three pages that does not contain the change yet; a
      new page is made again in any case. */
  method RedoMoveLeafs<D>(src: Buffer<D>, dst: Buffer<D>, parent: Downlink, r: Record<D>, recptr: nat)
    requires src != dst && r.toInsert != []
    requires if r.newPage then RecordFits(Blank(), r) else dst.lsn < recptr ==> RecordFits(dst.State(), r)
    requires src.lsn < recptr ==> NoDup(r.toDelete) && forall o | o in r.toDelete :: InPage(src.items, o)
    modifies src, dst, parent
    ensures dst.State() == if r.newPage then DestAfter(Blank(), r, recptr)
                           else if old(dst.lsn) < recptr then DestAfter(old(dst.State()), r, recptr) else old(dst.State())
    ensures src.State() == if old(src.lsn) < recptr then SourceAfter(old(src.State()), r, recptr) else old(src.State())
    ensures if old(parent.lsn) < recptr then parent.target == Target(r) && parent.lsn == recptr
            else parent.target == old(parent.target) && parent.lsn == old(parent.lsn)
  {
    if r.newPage {
      InitPage(dst);
    }
    if r.newPage || dst.lsn < recptr {
      RedoInserts(dst, r);
      dst.lsn := recptr;
    }
    if src.lsn < recptr {
      src.MultiDeleteInPlace(r.toDelete, HeadMark(r), Placeholder);
      src.lsn := recptr;
    }
    if parent.lsn < recptr {
      parent.target, parent.lsn := Target(r), recptr;
    }
  }

  /** A page that may have been written out after the change. */
  method MaybeFlushed<D>(page: Buffer<D>, replica: Buffer<D>)
    modifies replica
    ensures replica.State() == page.State() || replica.State() == old(replica.State())
  {
    if * {
      replica.items, replica.lsn := page.items, page.lsn;
      replica.nPlaceholder, replica.nRedirection := page.nPlaceholder, page.nRedirection;
    }
  }

  /** Whichever of the pages had been written out, recovery ends with the pages that the
      move produced. */
  method RecoveryAgrees<D>(src: Buffer<D>, dst: Buffer<D>, parent: Downlink, src2: Buffer<D>, dst2: Buffer<D>, parent2: Downlink,
                           head: nat, new_: Tuple<D>, dstBlk: nat, newPage: bool, isBuild: bool, xid: nat, recptr: nat,
                           ghost c: seq<nat>, ghost dead: bool)
    requires |{src, dst, src2, dst2}| == 4 && parent != parent2
    requires Movable(src.items, c, dead) && c[0] == head && new_.Live? && Accurate(dst.State())
    requires newPage ==> dst.State() == Blank()
    requires src.lsn < recptr && dst.lsn < recptr && parent.lsn < recptr
    requires src2.State() == src.State() && dst2.State() == dst.State()
    requires parent2.target == parent.target && parent2.lsn == parent.lsn
    modifies src, dst, parent, src2, dst2, parent2
    ensures src2.State() == src.State() && dst2.State() == dst.State()
    ensures parent2.target == parent.target && parent2.lsn == parent.lsn == recptr
  {
    Distinct4(src, dst, src2, dst2);
    MovedOffsets(src.items, c, dead);
    ghost var s, d := src.State(), dst.State();
    var r := Move(src, dst, parent, head, new_, dstBlk, newPage, isBuild, xid, recptr, c, dead);
    assert s.items == old(src.items) && src2.State() == s && dst2.State() == d;
    Recover(src, dst, parent, src2, dst2, parent2, r, recptr, s, d);
  }

  lemma Distinct4<D>(a: Buffer<D>, b: Buffer<D>, c: Buffer<D>, d: Buffer<D>)
    requires |{a, b, c, d}| == 4
    ensures a != b && a != c && a != d && b != c && b != d && c != d
  {
  }

  /** The crash and the replay that follows it. */
  method Recover<D>(src: Buffer<D>, dst: Buffer<D>, parent: Downlink, src2: Buffer<D>, dst2: Buffer<D>, parent2: Downlink,
                    r: Record<D>, recptr: nat, ghost s: PageState<D>, ghost d: PageState<D>)
    requires src != dst && src != src2 && src != dst2 && dst != src2 && dst != dst2 && src2 != dst2 && parent != parent2
    requires RecordFits(d, r) && (r.newPage ==> d == Blank()) && s.lsn < recptr && d.lsn < recptr && parent2.lsn < recptr
    requires NoDup(r.toDelete) && forall o | o in r.toDelete :: InPage(s.items, o)
    requires src.State() == SourceAfter(s, r, recptr) && dst.State() == DestAfter(d, r, recptr)
    requires parent.target == Target(r) && parent.lsn == recptr
    requires src2.State() == s && dst2.State() == d
    modifies src2, dst2, parent2
    ensures src2.State() == src.State() && dst2.State() == dst.State()
    ensures parent2.target == parent.target && parent2.lsn == recptr
  {
    MaybeFlushed(src, src2);
    MaybeFlushed(dst, dst2);
    if * {
      parent2.target, parent2.lsn := parent.target, parent.lsn;
    }
    RedoMoveLeafs(src2, dst2, parent2, r, recptr);
  }
}
