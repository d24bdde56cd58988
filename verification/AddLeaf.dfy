/** Adding one leaf tuple to a page: on its own, second in a chain, or in place of a DEAD
    tuple; forward, and in recovery. */
module AddLeaf {
  import opened LeafPage
  import opened LeafChains
  import opened VacuumPlan
  import opened LeafBuffer
  import opened LeafPlace
  import opened MoveLeafs
  import opened VacuumTheorems

  /** The log record. The head's offset is 0 for a tuple that starts a chain, and the tuple's
      own offset if it replaces a DEAD one. */
  datatype LeafRecord<D> = LeafRecord(tuple: Tuple<D>, offnumLeaf: nat, offnumHeadLeaf: nat, hasParent: bool, blkno: nat, newPage: bool)

  datatype AddOutcome<D> = Added(r: LeafRecord<D>) | BadState

  predicate Fits<D>(s: PageState<D>, r: LeafRecord<D>) {
    && r.tuple.Live?
    && if r.offnumHeadLeaf == r.offnumLeaf then InPage(s.items, r.offnumLeaf)
       else CanPlace(s, r.offnumLeaf) && (r.offnumHeadLeaf != 0 ==>
              InPage(s.items, r.offnumHeadLeaf) && At(s.items, r.offnumHeadLeaf).Live?)
  }

  /** The page with the tuple on it. */
  function LeafAfter<D>(s: PageState<D>, r: LeafRecord<D>, recptr: nat): PageState<D>
    requires Fits(s, r)
  {
    if r.offnumHeadLeaf == r.offnumLeaf then s.(items := Put(s.items, r.offnumLeaf, r.tuple), lsn := recptr)
    else
      var s1 := Replay(s, r.tuple, r.offnumLeaf);
      if r.offnumHeadLeaf == 0 then s1.(lsn := recptr)
      else s1.(items := Put(s1.items, r.offnumHeadLeaf, At(s.items, r.offnumHeadLeaf).(next := r.offnumLeaf)), lsn := recptr)
  }

  // ---- forward ----

  /** `head` is 0 if the tuple is not to be part of a chain. */
  method AddLeafTuple<D>(b: Buffer<D>, parent: Downlink, head: nat, new_: Tuple<D>, hasParent: bool, blkno: nat, newPage: bool,
                         recptr: nat)
    returns (out: AddOutcome<D>)
    requires (head == 0 || InPage(b.items, head)) && new_.Live? && Accurate(b.State())
    modifies b, parent
    ensures out.BadState? <==> head != 0 && !old(At(b.items, head)).Live? && old(At(b.items, head)) != Dead
    ensures out.BadState? ==> b.State() == old(b.State())
    ensures out.Added? ==> Fits(old(b.State()), out.r) && b.State() == LeafAfter(old(b.State()), out.r, recptr)
    ensures out.Added? ==> Describes(old(b.items), head, new_, out.r)
    ensures out.Added? ==> out.r.hasParent == (head == 0 && hasParent) && out.r.blkno == blkno && out.r.newPage == newPage
    ensures if out.Added? && out.r.hasParent then parent.target == Tid(blkno, out.r.offnumLeaf) && parent.lsn == recptr
            else parent.target == old(parent.target) && parent.lsn == old(parent.lsn)
  {
    AccurateNotStale(b.State());
    var mayReplace: bool, off, hint := *, 0, 0;
    if head == 0 {
      var t := new_.(next := 0);
      off, hint := AddNewItem(b, t, 0, mayReplace, true);
      out := Added(LeafRecord(t, off, 0, hasParent, blkno, newPage));
      if hasParent {
        parent.target, parent.lsn := Tid(blkno, off), recptr;
      }
    } else if At(b.items, head).Live? {
      var t := new_.(next := At(b.items, head).next);
      off, hint := AddNewItem(b, t, 0, mayReplace, true);
      assert off != head && At(b.items, head) == old(At(b.items, head));
      b.items := Put(b.items, head, At(b.items, head).(next := off));
      out := Added(LeafRecord(t, off, head, false, blkno, newPage));
    } else if At(b.items, head) == Dead {
      var t := new_.(next := 0);
      DeleteAdd(b.items, head, t);
      b.items := Delete(b.items, head);
      b.items := Insert(b.items, head, t);
      out := Added(LeafRecord(t, head, head, false, blkno, newPage));
    } else {
      return BadState;
    }
    b.lsn := recptr;
  }

  /** How the record follows from the page: the new tuple is linked to what was second. */
  ghost predicate Describes<D>(p: Items<D>, head: nat, new_: Tuple<D>, r: LeafRecord<D>) {
    && new_.Live? && r.offnumHeadLeaf == head && (head == 0 ==> r.offnumLeaf != 0)
    && if head != 0 && IsLive(p, head) then r.offnumLeaf != head && r.tuple == new_.(next := NextOf(p, head))
       else (head != 0 ==> r.offnumLeaf == head && InPage(p, head) && At(p, head) == Dead) && r.tuple == new_.(next := 0)
  }

  // ---- recovery ----

  method RedoAddLeaf<D>(b: Buffer<D>, parent: Downlink, r: LeafRecord<D>, recptr: nat)
    requires if r.newPage then Fits(Blank(), r) else b.lsn < recptr ==> Fits(b.State(), r)
    modifies b, parent
    ensures b.State() == if r.newPage then LeafAfter(Blank(), r, recptr)
                         else if old(b.lsn) < recptr then LeafAfter(old(b.State()), r, recptr) else old(b.State())
    ensures if r.hasParent && old(parent.lsn) < recptr then parent.target == Tid(r.blkno, r.offnumLeaf) && parent.lsn == recptr
            else parent.target == old(parent.target) && parent.lsn == old(parent.lsn)
  {
    if r.newPage {
      InitPage(b);
    }
    if r.newPage || b.lsn < recptr {
      RedoOnPage(b, r);
      b.lsn := recptr;
    }
    if r.hasParent && parent.lsn < recptr {
      parent.target, parent.lsn := Tid(r.blkno, r.offnumLeaf), recptr;
    }
  }

  method RedoOnPage<D>(b: Buffer<D>, r: LeafRecord<D>)
    requires Fits(b.State(), r)
    modifies b
    ensures b.State().(lsn := 0) == LeafAfter(old(b.State()), r, 0)
  {
    if r.offnumLeaf != r.offnumHeadLeaf {
      ghost var s := b.State();
      var ok := AddOrReplaceTuple(b, r.tuple, r.offnumLeaf);
      PlacedIsReplay(s, b.State(), r.tuple, r.offnumLeaf);
      if r.offnumHeadLeaf != 0 {
        b.items := Put(b.items, r.offnumHeadLeaf, At(b.items, r.offnumHeadLeaf).(next := r.offnumLeaf));
      }
    } else {
      DeleteAdd(b.items, r.offnumLeaf, r.tuple);
      b.items := Delete(b.items, r.offnumLeaf);
      b.items := Insert(b.items, r.offnumLeaf, r.tuple);
    }
  }

  /** Whichever of the two pages had been written out, recovery ends with the pages that the
      insertion produced. */
  method AddRecoveryAgrees<D>(b: Buffer<D>, parent: Downlink, b2: Buffer<D>, parent2: Downlink, head: nat, new_: Tuple<D>,
                              hasParent: bool, blkno: nat, newPage: bool, recptr: nat)
    returns (out: AddOutcome<D>)
    requires b != b2 && parent != parent2 && (head == 0 || InPage(b.items, head)) && new_.Live? && Accurate(b.State())
    requires newPage ==> b.State() == Blank()
    requires b.lsn < recptr && parent.lsn < recptr && b2.State() == b.State()
    requires parent2.target == parent.target && parent2.lsn == parent.lsn
    modifies b, parent, b2, parent2
    ensures out.Added? ==> b2.State() == b.State() && parent2.target == parent.target && parent2.lsn == parent.lsn
  {
    out := AddLeafTuple(b, parent, head, new_, hasParent, blkno, newPage, recptr);
    if out.Added? {
      MaybeFlushed(b, b2);
      if * {
        parent2.target, parent2.lsn := parent.target, parent.lsn;
      }
      RedoAddLeaf(b2, parent2, out.r, recptr);
    }
  }

  // ---- a tuple that starts a chain ----

  /** Page `q` is `p` with a tuple at `off` that no chain of `p` runs through. */
  ghost predicate Alone<D>(p: Items<D>, q: Items<D>, off: nat, t: Tuple<D>) {
    && t.Live? && t.next == 0 && InPage(q, off) && At(q, off) == t && !IsLive(p, off)
    && (forall o | InPage(p, o) && o != off :: InPage(q, o) && At(q, o) == At(p, o))
    && forall o | IsLive(q, o) && o != off :: IsLive(p, o)
  }

  /** A tuple that is not to be part of a chain stands where the record says; everything else
      is where it was. */
  lemma AddedAlone<D>(s: PageState<D>, new_: Tuple<D>, r: LeafRecord<D>, recptr: nat)
    requires Fits(s, r) && Describes(s.items, 0, new_, r)
    ensures var s' := LeafAfter(s, r, recptr); Placed(s, s'.(lsn := s.lsn), r.tuple, r.offnumLeaf) && s'.lsn == recptr
    ensures Alone(s.items, LeafAfter(s, r, recptr).items, r.offnumLeaf, new_.(next := 0))
  {
    var q := LeafAfter(s, r, recptr).items;
    forall o | InPage(s.items, o) && o != r.offnumLeaf ensures InPage(q, o) && At(q, o) == At(s.items, o) { }
    forall o | IsLive(q, o) && o != r.offnumLeaf ensures IsLive(s.items, o) { assert At(q, o) == At(s.items, o); }
  }

  /** A tuple that replaces a DEAD one stands at its offset; everything else is as it was. */
  lemma AddedForDead<D>(s: PageState<D>, head: nat, new_: Tuple<D>, r: LeafRecord<D>, recptr: nat)
    requires Fits(s, r) && head != 0 && Describes(s.items, head, new_, r) && !IsLive(s.items, head)
    ensures var s' := LeafAfter(s, r, recptr);
      && |s'.items| == |s.items| && r.offnumLeaf == head && (forall o | InPage(s.items, o) && o != head :: At(s'.items, o) == At(s.items, o))
      && s'.nPlaceholder == s.nPlaceholder && s'.nRedirection == s.nRedirection && s'.lsn == recptr
    ensures Alone(s.items, LeafAfter(s, r, recptr).items, head, new_.(next := 0))
  {
    var q := LeafAfter(s, r, recptr).items;
    forall o | IsLive(q, o) && o != head ensures IsLive(s.items, o) { assert At(q, o) == At(s.items, o); }
  }

  lemma AloneNext<D>(p: Items<D>, q: Items<D>, off: nat, t: Tuple<D>, o: nat)
    requires LinksOk(p) && LinksAlive(p) && Alone(p, q, off, t) && IsLive(q, o)
    ensures o == off ==> NextOf(q, o) == 0
    ensures o != off ==> IsLive(p, o) && NextOf(q, o) == NextOf(p, o)
    ensures NextOf(q, o) == 0 || (IsLive(q, NextOf(q, o)) && NextOf(q, o) != off)
  {
    if o != off {
      var n := NextOf(p, o);
      assert n != 0 ==> IsLive(p, n);
    }
  }

  lemma AloneKeepsLinks<D>(p: Items<D>, q: Items<D>, off: nat, t: Tuple<D>)
    requires LinksOk(p) && LinksAlive(p) && Alone(p, q, off, t)
    ensures LinksOk(q) && LinksAlive(q)
  {
    forall o | IsLive(q, o) && NextOf(q, o) != 0 ensures IsLive(q, NextOf(q, o)) { AloneNext(p, q, off, t, o); }
    forall o, x | IsLive(q, o) && IsLive(q, x) && NextOf(q, o) == NextOf(q, x) != 0 ensures o == x {
      AloneNext(p, q, off, t, o);
      AloneNext(p, q, off, t, x);
      assert NextOf(p, o) == NextOf(p, x);
    }
  }

  /** The new tuple is a chain of its own, which holds exactly the new entry. */
  lemma ChainOfItsOwn<D>(p: Items<D>, q: Items<D>, off: nat, t: Tuple<D>)
    requires LinksOk(p) && LinksAlive(p) && Alone(p, q, off, t)
    ensures IsChain(q, [off]) && AllLive(q, [off]) && Contents(q, [off]) == [(t.heapPtr, t.datum)]
  {
    forall o | IsLive(q, o) ensures NextOf(q, o) != off { AloneNext(p, q, off, t, o); }
  }

  /** Every old chain keeps its tuples and its entries. */
  lemma ChainsBesideStay<D>(p: Items<D>, q: Items<D>, off: nat, t: Tuple<D>, d: seq<nat>)
    requires LinksOk(p) && LinksAlive(p) && Alone(p, q, off, t) && IsChain(p, d)
    ensures IsChain(q, d) && AllLive(p, d) && AllLive(q, d) && Contents(q, d) == Contents(p, d)
  {
    forall k | 0 <= k < |d| ensures d[k] != off && IsLive(q, d[k]) && At(q, d[k]) == At(p, d[k]) {
      assert IsLive(p, d[k]);
    }
    forall o | IsLive(q, o) ensures NextOf(q, o) != d[0] {
      AloneNext(p, q, off, t, o);
      assert IsLive(p, o) ==> NextOf(p, o) != d[0];
    }
  }

  /** Right counters stay right in all three cases. */
  lemma AddKeepsCounters<D>(s: PageState<D>, head: nat, new_: Tuple<D>, r: LeafRecord<D>, recptr: nat)
    requires Fits(s, r) && Describes(s.items, head, new_, r) && Accurate(s)
    ensures Accurate(LeafAfter(s, r, recptr))
  {
    var s' := LeafAfter(s, r, recptr);
    if r.offnumHeadLeaf == r.offnumLeaf {
      assert Placeholders(s'.items) == Placeholders(s.items) && Redirects(s'.items) == Redirects(s.items);
    } else {
      var s1 := Replay(s, r.tuple, r.offnumLeaf);
      ReplayCounts(s, r.tuple, r.offnumLeaf);
      assert Placeholders(s'.items) == Placeholders(s1.items) && Redirects(s'.items) == Redirects(s1.items);
    }
  }

  // ---- a tuple that comes second ----

  /** Page `q` is `p` with a tuple added at `off`, second behind `head`. */
  ghost predicate Second<D>(p: Items<D>, q: Items<D>, head: nat, off: nat, t: Tuple<D>) {
    && IsLive(p, head) && !IsLive(p, off) && off != 0 && t.Live? && t.next == NextOf(p, head)
    && InPage(q, off) && At(q, off) == t && InPage(q, head) && At(q, head) == At(p, head).(next := off)
    && (forall o | InPage(p, o) && o != off && o != head :: InPage(q, o) && At(q, o) == At(p, o))
    && forall o | IsLive(q, o) && o != off :: IsLive(p, o)
  }

  lemma AddedSecond<D>(s: PageState<D>, head: nat, new_: Tuple<D>, r: LeafRecord<D>, recptr: nat)
    requires Fits(s, r) && Describes(s.items, head, new_, r) && head != 0 && IsLive(s.items, head)
    ensures Second(s.items, LeafAfter(s, r, recptr).items, head, r.offnumLeaf, r.tuple)
  {
    var q := LeafAfter(s, r, recptr).items;
    forall o | IsLive(q, o) && o != r.offnumLeaf ensures IsLive(s.items, o) {
      if o != head { assert At(q, o) == At(s.items, o); }
    }
  }

  lemma SecondKeepsLinks<D>(p: Items<D>, q: Items<D>, head: nat, off: nat, t: Tuple<D>)
    requires LinksOk(p) && LinksAlive(p) && Second(p, q, head, off, t)
    ensures LinksOk(q) && LinksAlive(q)
  {
    forall o | IsLive(q, o) && NextOf(q, o) != 0 ensures IsLive(q, NextOf(q, o)) { NextAfter(p, q, head, off, t, o); }
    forall o, x | IsLive(q, o) && IsLive(q, x) && NextOf(q, o) == NextOf(q, x) != 0 ensures o == x {
      NextAfter(p, q, head, off, t, o);
      NextAfter(p, q, head, off, t, x);
      assert o == off ==> NextOf(p, head) == NextOf(q, o);
      assert x == off ==> NextOf(p, head) == NextOf(q, x);
    }
  }

  /** The links of the other tuples are as they were, and never lead to the new tuple. */
  lemma NextAfter<D>(p: Items<D>, q: Items<D>, head: nat, off: nat, t: Tuple<D>, o: nat)
    requires LinksOk(p) && LinksAlive(p) && Second(p, q, head, off, t) && IsLive(q, o)
    ensures o == head ==> NextOf(q, o) == off
    ensures o == off ==> NextOf(q, o) == NextOf(p, head)
    ensures o != head && o != off ==> IsLive(p, o) && NextOf(q, o) == NextOf(p, o)
    ensures NextOf(q, o) == 0 || IsLive(q, NextOf(q, o))
    ensures NextOf(q, o) == off ==> o == head
  {
    if o != off {
      assert IsLive(p, o);
      var n := NextOf(p, o);
      assert n != 0 ==> IsLive(p, n);
    } else {
      var n := NextOf(p, head);
      assert n != 0 ==> IsLive(p, n);
    }
  }

  /** The chain keeps its head; the new tuple comes second. */
  lemma ChainWithSecond<D>(p: Items<D>, q: Items<D>, off: nat, t: Tuple<D>, c: seq<nat>)
    requires LinksOk(p) && LinksAlive(p) && IsChain(p, c) && Second(p, q, c[0], off, t)
    ensures var d := [c[0], off] + c[1..]; IsChain(q, d)
  {
    var d := [c[0], off] + c[1..];
    PathNoDup(p, c);
    forall k | 0 <= k < |d| ensures IsLive(q, d[k]) && NextOf(q, d[k]) == if k + 1 < |d| then d[k + 1] else 0 {
      ChainLink(p, q, off, t, c, k);
    }
    forall o | IsLive(q, o) ensures NextOf(q, o) != c[0] {
      NextAfter(p, q, c[0], off, t, o);
      assert IsLive(p, o) ==> NextOf(p, o) != c[0];
      assert NextOf(p, c[0]) != c[0];
    }
  }

  lemma ChainLink<D>(p: Items<D>, q: Items<D>, off: nat, t: Tuple<D>, c: seq<nat>, k: nat)
    requires LinksOk(p) && LinksAlive(p) && IsChain(p, c) && Second(p, q, c[0], off, t) && k < |c| + 1
    ensures var d := [c[0], off] + c[1..]; IsLive(q, d[k]) && NextOf(q, d[k]) == if k + 1 < |d| then d[k + 1] else 0
  {
    var d := [c[0], off] + c[1..];
    PathNoDup(p, c);
    if k == 1 {
      assert d[1] == off;
      assert |c| > 1 ==> NextOf(p, c[0]) == c[1];
    } else if k > 1 {
      var j := k - 1;
      assert d[k] == c[j] && c[j] != c[0] && IsLive(p, c[j]);
      assert j + 1 < |c| ==> NextOf(p, c[j]) == c[j + 1];
    }
  }

  /** Every other chain stays as it was. */
  lemma OtherChainStays<D>(p: Items<D>, q: Items<D>, head: nat, off: nat, t: Tuple<D>, c: seq<nat>, d: seq<nat>)
    requires LinksOk(p) && LinksAlive(p) && IsChain(p, c) && c[0] == head && Second(p, q, head, off, t)
    requires IsChain(p, d) && d[0] != head
    ensures IsChain(q, d) && AllLive(p, d) && AllLive(q, d) && Contents(q, d) == Contents(p, d)
  {
    forall k | 0 <= k < |d| ensures d[k] != head && d[k] != off && IsLive(q, d[k]) && At(q, d[k]) == At(p, d[k]) {
      if d[k] == head { ChainsDisjoint(p, d, c, k, 0); }
      assert IsLive(p, d[k]);
    }
    forall o | IsLive(q, o) ensures NextOf(q, o) != d[0] {
      NextAfter(p, q, head, off, t, o);
      assert IsLive(p, o) ==> NextOf(p, o) != d[0];
    }
  }

  /** Read from the unchanged head, the chain has the new entry second. */
  lemma ContentsWithSecond<D>(p: Items<D>, q: Items<D>, off: nat, t: Tuple<D>, c: seq<nat>)
    requires LinksOk(p) && LinksAlive(p) && IsChain(p, c) && Second(p, q, c[0], off, t)
    ensures AllLive(p, c) && AllLive(q, [c[0], off] + c[1..])
    ensures Contents(q, [c[0], off] + c[1..]) == [Contents(p, c)[0], (t.heapPtr, t.datum)] + Contents(p, c)[1..]
  {
    var d := [c[0], off] + c[1..];
    PathNoDup(p, c);
    assert forall k | 0 <= k < |c| :: IsLive(p, c[k]);
    forall k | 0 <= k < |d| ensures IsLive(q, d[k]) && Contents(q, d)[k] == ([Contents(p, c)[0], (t.heapPtr, t.datum)] + Contents(p, c)[1..])[k] {
      ChainLink(p, q, off, t, c, k);
      if k > 1 { assert d[k] == c[k - 1] && c[k - 1] != c[0] && c[k - 1] != off; }
    }
  }
}
