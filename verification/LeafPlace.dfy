/** Putting tuples on a leaf page, in place of placeholders where possible, and the replay of
    that at recorded offsets. */
module LeafPlace {
  import opened LeafPage
  import opened Lists
  import opened LeafBuffer

  /** The page with `t` at offset `off`: in place of the placeholder there, or at the end. */
  function Replay<D>(s: PageState<D>, t: Tuple<D>, off: nat): PageState<D>
    requires CanPlace(s, off)
  {
    if off <= |s.items| then s.(items := Put(s.items, off, t), nPlaceholder := s.nPlaceholder - 1)
    else s.(items := s.items + [t])
  }

  predicate CanPlace<D>(s: PageState<D>, off: nat) {
    off == |s.items| + 1 || (InPage(s.items, off) && At(s.items, off).Placeholder? && s.nPlaceholder > 0)
  }

  /** The counter says there are placeholders, and there are none. */
  ghost predicate Stale<D>(s: PageState<D>) { s.nPlaceholder > 0 && Placeholders(s.items) == {} }

  lemma AccurateNotStale<D>(s: PageState<D>)
    requires Accurate(s)
    ensures !Stale(s)
  {
  }

  /** The first placeholder at or after offset `first`. */
  ghost predicate FirstFrom<D>(items: Items<D>, first: nat, off: nat) {
    && first <= off && InPage(items, off) && At(items, off).Placeholder?
    && forall o: nat | InPage(items, o) && first <= o < off :: !At(items, o).Placeholder?
  }

  ghost predicate NoneFrom<D>(items: Items<D>, first: nat) {
    forall o | InPage(items, o) && first <= o :: !At(items, o).Placeholder?
  }

  /** The first placeholder at or after the hint, else the first on the page; a hint that is
      no good is forgotten. */
  method FindPlaceholder<D>(items: Items<D>, hint: nat) returns (off: nat, hint': nat)
    ensures off == 0 ==> Placeholders(items) == {} && hint' == 0
    ensures off != 0 ==> FirstFrom(items, hint, off) || (NoneFrom(items, hint) && FirstFrom(items, 0, off))
  {
    hint' := hint;
    if hint != 0 {
      off := SearchFrom(items, hint);
      if off != 0 {
        return;
      }
      hint' := 0;
    }
    off := SearchFrom(items, 1);
  }

  method SearchFrom<D>(items: Items<D>, first: nat) returns (off: nat)
    requires first > 0
    ensures off == 0 ==> NoneFrom(items, first)
    ensures off != 0 ==> FirstFrom(items, first, off)
  {
    var i := first;
    while i <= |items|
      invariant first <= i && forall o | first <= o < i && o <= |items| :: !At(items, o).Placeholder?
    {
      if At(items, i).Placeholder? {
        return i;
      }
      i := i + 1;
    }
    off := 0;
  }

  /** The tuple stands at `off`, in place of a placeholder or behind the others; every other
      tuple is where it was. */
  ghost predicate Placed<D>(s: PageState<D>, s': PageState<D>, t: Tuple<D>, off: nat) {
    && InPage(s'.items, off) && At(s'.items, off) == t
    && |s'.items| == (if off <= |s.items| then |s.items| else |s.items| + 1)
    && (forall o | InPage(s.items, o) && o != off :: At(s'.items, o) == At(s.items, o))
    && s'.nPlaceholder + (if off <= |s.items| then 1 else 0) == s.nPlaceholder
    && s'.nRedirection == s.nRedirection && s'.lsn == s.lsn
  }

  lemma PlacedIsReplay<D>(s: PageState<D>, s': PageState<D>, t: Tuple<D>, off: nat)
    requires CanPlace(s, off) && Placed(s, s', t, off)
    ensures s' == Replay(s, t, off)
  {
    var q := Replay(s, t, off).items;
    forall o: nat | InPage(q, o) ensures At(s'.items, o) == At(q, o) { }
    assert forall i | 0 <= i < |q| :: s'.items[i] == At(s'.items, i + 1) && q[i] == At(q, i + 1);
  }

  /** Deleting a tuple and adding one at its offset leaves the others where they are. */
  lemma DeleteAdd<D>(p: Items<D>, off: nat, t: Tuple<D>)
    requires InPage(p, off)
    ensures Insert(Delete(p, off), off, t) == Put(p, off, t)
  {
  }

  /** Where a tuple goes if placeholders may be reused and there are some. */
  ghost predicate Reuses<D>(s: PageState<D>, mayReplace: bool) {
    mayReplace && s.nPlaceholder > 0 && Placeholders(s.items) != {}
  }

  /** Adds a tuple to the page. `mayReplace` says whether it fits in the place of a
      placeholder, `hasRoom` whether it fits besides; 0 is returned if it does not fit. Replay
      at the offset found gives the same page, unless the counter was stale. */
  method AddNewItem<D>(b: Buffer<D>, t: Tuple<D>, hint: nat, mayReplace: bool, hasRoom: bool) returns (off: nat, hint': nat)
    modifies b
    ensures off == 0 <==> !Reuses(old(b.State()), mayReplace) && !hasRoom
    ensures off == 0 ==> b.items == old(b.items)
    ensures off != 0 ==> CanPlace(old(b.State()), off)
    ensures off != 0 ==> (b.State() == Replay(old(b.State()), t, off) <==> !(mayReplace && Stale(old(b.State()))))
    ensures Reuses(old(b.State()), mayReplace) ==>
              (FirstFrom(old(b.items), hint, off) || (NoneFrom(old(b.items), hint) && FirstFrom(old(b.items), 0, off)))
              && hint' == off + 1 && Placed(old(b.State()), b.State(), t, off)
    ensures !Reuses(old(b.State()), mayReplace) ==>
              (hasRoom ==> off == |old(b.items)| + 1 && b.items == old(b.items) + [t])
              && hint' == if mayReplace && old(b.nPlaceholder) > 0 then 0 else hint
  {
    hint' := hint;
    if b.nPlaceholder > 0 && mayReplace {
      off, hint' := FindPlaceholder(b.items, hint);
      if off != 0 {
        assert off in Placeholders(b.items);
        DeleteAdd(b.items, off, t);
        b.items := Delete(b.items, off);
        b.items := Insert(b.items, off, t);
        b.nPlaceholder := b.nPlaceholder - 1;
        hint' := off + 1;
        return;
      }
      b.nPlaceholder := 0;
    }
    if !hasRoom {
      return 0, hint';
    }
    off := |b.items| + 1;
    b.items := b.items + [t];
  }

  /** Replay of one addition; fails if another tuple than a placeholder is in the way, or the
      offset is not the next one. The counter is taken to know of the placeholder. */
  method AddOrReplaceTuple<D>(b: Buffer<D>, t: Tuple<D>, off: nat) returns (ok: bool)
    requires InPage(b.items, off) && At(b.items, off).Placeholder? ==> b.nPlaceholder > 0
    modifies b
    ensures ok <==> off == |old(b.items)| + 1 || (InPage(old(b.items), off) && At(old(b.items), off).Placeholder?)
    ensures if ok then Placed(old(b.State()), b.State(), t, off) else b.State() == old(b.State())
  {
    if off == 0 || off > |b.items| + 1 {
      return false;
    }
    if off <= |b.items| {
      if !At(b.items, off).Placeholder? {
        return false;
      }
      DeleteAdd(b.items, off, t);
      b.nPlaceholder := b.nPlaceholder - 1;
      b.items := Delete(b.items, off);
    }
    b.items := Insert(b.items, off, t);
    ok := true;
  }

  lemma ReplayCounts<D>(s: PageState<D>, t: Tuple<D>, off: nat)
    requires Accurate(s) && CanPlace(s, off) && t.Live?
    ensures Accurate(Replay(s, t, off))
  {
    var s' := Replay(s, t, off);
    if off <= |s.items| {
      assert off in Placeholders(s.items);
      assert Placeholders(s'.items) == Placeholders(s.items) - {off};
    } else {
      assert Placeholders(s'.items) == Placeholders(s.items);
    }
    assert Redirects(s'.items) == Redirects(s.items);
  }

  // ---- several tuples ----

  ghost predicate CanPlaceAll<D>(s: PageState<D>, ts: seq<Tuple<D>>, offs: seq<nat>)
    requires |ts| == |offs|
    decreases |offs|, 0
  {
    offs == [] || (CanPlaceAll(s, ts[..|ts| - 1], offs[..|offs| - 1])
                   && CanPlace(ReplayAll(s, ts[..|ts| - 1], offs[..|offs| - 1]), offs[|offs| - 1]))
  }

  ghost function ReplayAll<D>(s: PageState<D>, ts: seq<Tuple<D>>, offs: seq<nat>): PageState<D>
    requires |ts| == |offs| && CanPlaceAll(s, ts, offs)
    decreases |offs|, 1
  {
    if offs == [] then s else Replay(ReplayAll(s, ts[..|ts| - 1], offs[..|offs| - 1]), ts[|ts| - 1], offs[|offs| - 1])
  }

  lemma OneMorePlaced<D>(s: PageState<D>, ts: seq<Tuple<D>>, offs: seq<nat>, t: Tuple<D>, off: nat)
    requires |ts| == |offs| && CanPlaceAll(s, ts, offs) && CanPlace(ReplayAll(s, ts, offs), off)
    ensures CanPlaceAll(s, ts + [t], offs + [off])
    ensures ReplayAll(s, ts + [t], offs + [off]) == Replay(ReplayAll(s, ts, offs), t, off)
  {
    assert (ts + [t])[..|ts|] == ts && (offs + [off])[..|offs|] == offs;
  }

  /** Each tuple stands at its offset, the old tuples stay, and only placeholders make room. */
  ghost predicate AllPlaced<D>(p: Items<D>, q: Items<D>, ts: seq<Tuple<D>>, offs: seq<nat>)
    requires |ts| == |offs|
  {
    && |p| <= |q|
    && (forall k | 0 <= k < |offs| :: InPage(q, offs[k]) && At(q, offs[k]) == ts[k])
    && (forall o | InPage(p, o) && o !in offs :: At(q, o) == At(p, o))
    && (forall o | InPage(p, o) && o in offs :: At(p, o).Placeholder?)
  }

  lemma AllPlacedStep<D>(p: Items<D>, s: PageState<D>, ts: seq<Tuple<D>>, offs: seq<nat>, t: Tuple<D>, off: nat)
    requires |ts| == |offs| && (forall k | 0 <= k < |ts| :: ts[k].Live?) && AllPlaced(p, s.items, ts, offs) && CanPlace(s, off)
    ensures off !in offs && AllPlaced(p, Replay(s, t, off).items, ts + [t], offs + [off])
  {
    var q, ts', offs' := Replay(s, t, off).items, ts + [t], offs + [off];
    assert forall k | 0 <= k < |offs| :: offs[k] != off;
    forall k | 0 <= k < |offs'| ensures InPage(q, offs'[k]) && At(q, offs'[k]) == ts'[k] {
      if k < |offs| { assert At(s.items, offs[k]) == ts[k]; }
    }
    forall o | InPage(p, o) && o !in offs' ensures At(q, o) == At(p, o) {
      assert off in offs' && forall x | x in offs :: x in offs';
    }
    forall o | InPage(p, o) && o in offs' ensures At(p, o).Placeholder? {
      if o !in offs { assert o == off; }
    }
  }

  /** The state before the last tuple was placed. */
  ghost function BeforeLast<D>(s: PageState<D>, ts: seq<Tuple<D>>, offs: seq<nat>): PageState<D>
    requires |ts| == |offs| > 0 && CanPlaceAll(s, ts, offs)
  {
    ReplayAll(s, ts[..|ts| - 1], offs[..|offs| - 1])
  }

  lemma LastPlaced<D>(s: PageState<D>, ts: seq<Tuple<D>>, offs: seq<nat>, s1: PageState<D>)
    requires |ts| == |offs| > 0 && CanPlaceAll(s, ts, offs) && s1 == BeforeLast(s, ts, offs)
    ensures CanPlaceAll(s, ts[..|ts| - 1], offs[..|offs| - 1]) && CanPlace(s1, offs[|offs| - 1])
    ensures ReplayAll(s, ts, offs) == Replay(s1, ts[|ts| - 1], offs[|offs| - 1])
  {
  }

  lemma {:induction false} PlacedAll<D>(s: PageState<D>, ts: seq<Tuple<D>>, offs: seq<nat>, q: PageState<D>)
    requires |ts| == |offs| && (forall k | 0 <= k < |ts| :: ts[k].Live?) && CanPlaceAll(s, ts, offs) && q == ReplayAll(s, ts, offs)
    ensures AllPlaced(s.items, q.items, ts, offs) && NoDup(offs)
    decreases |offs|
  {
    if offs != [] {
      var n := |offs| - 1;
      var ts0, offs0, s1 := ts[..n], offs[..n], BeforeLast(s, ts, offs);
      LastPlaced(s, ts, offs, s1);
      PlacedAll(s, ts0, offs0, s1);
      PlacedLast(s.items, s1, ts0, offs0, ts[n], offs[n], ts, offs);
    }
  }

  lemma PlacedLast<D>(p: Items<D>, s1: PageState<D>, ts0: seq<Tuple<D>>, offs0: seq<nat>, t: Tuple<D>, off: nat,
                      ts: seq<Tuple<D>>, offs: seq<nat>)
    requires |ts0| == |offs0| && (forall k | 0 <= k < |ts0| :: ts0[k].Live?) && AllPlaced(p, s1.items, ts0, offs0) && NoDup(offs0)
    requires CanPlace(s1, off) && |ts| == |ts0| + 1 == |offs|
    requires ts[..|ts0|] == ts0 && ts[|ts0|] == t && offs[..|offs0|] == offs0 && offs[|offs0|] == off
    ensures AllPlaced(p, Replay(s1, t, off).items, ts, offs) && NoDup(offs)
  {
    AllPlacedStep(p, s1, ts0, offs0, t, off);
    NoDupPush(offs0, off);
    assert ts == ts0 + [t] && offs == offs0 + [off];
  }

  lemma NoDupPush(s: seq<nat>, x: nat)
    requires NoDup(s) && x !in s
    ensures NoDup(s + [x])
  {
  }

  lemma {:induction false} CountsAll<D>(s: PageState<D>, ts: seq<Tuple<D>>, offs: seq<nat>)
    requires |ts| == |offs| && (forall k | 0 <= k < |ts| :: ts[k].Live?) && CanPlaceAll(s, ts, offs) && Accurate(s)
    ensures Accurate(ReplayAll(s, ts, offs))
    decreases |offs|
  {
    if offs != [] {
      var n := |offs| - 1;
      CountsAll(s, ts[..n], offs[..n]);
      ReplayCounts(ReplayAll(s, ts[..n], offs[..n]), ts[n], offs[n]);
    }
  }
}
