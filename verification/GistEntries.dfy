/** What the steps of inserters do to the set of entries: an insertion adds its entry, nothing
    else is added or lost, and no entry comes to lie on two pages. */
module GistEntries {
  import opened GistPages
  import opened GistPlace
  import opened GistKeys
  import opened GistSteps
  import opened GistScan

  ghost predicate On(pages: Pages, x: Blk, e: Entry) { x in pages && e in pages[x].entries }

  /** No entry lies on two pages. */
  ghost predicate OnePlace(pages: Pages) { forall x, y, e | On(pages, x, e) && On(pages, y, e) :: x == y }

  /** The pages hold the same entries as before and perhaps one more, each still at one place. */
  ghost predicate SameEntries(pages: Pages, pages': Pages, more: set<Entry>) {
    && (forall e :: Present(pages', e) <==> Present(pages, e) || e in more)
    && (OnePlace(pages) && (forall e | e in more :: !Present(pages, e)) ==> OnePlace(pages'))
  }

  lemma IsOn(pages: Pages, x: Blk, e: Entry)
    requires On(pages, x, e)
    ensures Present(pages, e)
  {
  }

  lemma Place(pages: Pages, e: Entry) returns (x: Blk)
    requires Present(pages, e)
    ensures On(pages, x, e)
  {
    x :| x in pages && e in pages[x].entries;
  }

  lemma PutEntries(pages: Pages, b: Blk, downs: map<Blk, Key>, lsn: nat, more: set<Entry>)
    requires b in pages
    ensures SameEntries(pages, Put(pages, b, pages[b].entries + more, downs, lsn), more)
  {
    var pages' := Put(pages, b, pages[b].entries + more, downs, lsn);
    assert forall x, e :: On(pages', x, e) <==> On(pages, x, e) || (x == b && e in more);
    forall e ensures Present(pages', e) <==> Present(pages, e) || e in more {
      if e in more { assert On(pages', b, e); }
      if Present(pages, e) {
        var x := Place(pages, e);
        assert On(pages', x, e);
      }
      if Present(pages', e) {
        var x := Place(pages', e);
        assert On(pages, x, e) || e in more;
      }
    }
    if OnePlace(pages) && forall e | e in more :: !Present(pages, e) {
      forall x, y, e | On(pages', x, e) && On(pages', y, e) ensures x == y {
        if On(pages, x, e) { IsOn(pages, x, e); }
        if On(pages, y, e) { IsOn(pages, y, e); }
      }
    }
  }

  lemma SplitEntries(pages: Pages, b: Blk, cut: Cut, lsn: nat)
    requires SplitOk(pages, b, cut)
    ensures SameEntries(pages, SplitPage(pages, b, cut, lsn), {})
  {
    var pages' := SplitPage(pages, b, cut, lsn);
    forall x, e ensures On(pages', x, e) <==>
        if x == b then On(pages, b, e) && e !in cut.entries
        else if x == cut.blk then On(pages, b, e) && e in cut.entries
        else On(pages, x, e) { }
    forall e ensures Present(pages', e) <==> Present(pages, e) {
      if Present(pages, e) {
        var x := Place(pages, e);
        assert On(pages', if x == b && e in cut.entries then cut.blk else x, e);
      }
      if Present(pages', e) {
        var x := Place(pages', e);
        assert On(pages, if x == cut.blk then b else x, e);
      }
    }
    if OnePlace(pages) {
      forall x, y, e | On(pages', x, e) && On(pages', y, e) ensures x == y {
        assert On(pages, if x == cut.blk then b else x, e) && On(pages, if y == cut.blk then b else y, e);
      }
    }
  }

  lemma {:induction false} SplitManyEntries(pages: Pages, b: Blk, cuts: seq<Cut>, lsn: nat)
    requires b in pages && SplitsOk(pages, b, cuts, lsn)
    ensures SameEntries(pages, SplitMany(pages, b, cuts, lsn), {})
    decreases |cuts|
  {
    if cuts != [] {
      SplitEntries(pages, b, cuts[0], lsn);
      SplitManyEntries(SplitPage(pages, b, cuts[0], lsn), cuts[0].blk, cuts[1..], lsn);
    }
  }

  lemma RootSplitEntries(pages: Pages, children: map<Blk, Child>, lsn: nat)
    requires RootSplitOk(pages, children)
    ensures SameEntries(pages, RootSplit(pages, children, lsn), {})
  {
    var pages' := RootSplit(pages, children, lsn);
    forall x, e ensures On(pages', x, e) <==>
        if x in children then e in children[x].entries else x != ROOT && On(pages, x, e) { }
    forall e ensures Present(pages', e) <==> Present(pages, e) {
      if Present(pages, e) {
        var x := Place(pages, e);
        if x == ROOT {
          var y :| y in children && e in children[y].entries;
          assert On(pages', y, e);
        } else {
          assert On(pages', x, e);
        }
      }
      if Present(pages', e) {
        var x := Place(pages', e);
        assert On(pages, if x in children then ROOT else x, e);
      }
    }
    if OnePlace(pages) {
      forall x, y, e | On(pages', x, e) && On(pages', y, e) ensures x == y {
        assert On(pages, if x in children then ROOT else x, e) && On(pages, if y in children then ROOT else y, e);
      }
    }
  }

  lemma OverflowEntriesStay(o: Order, pages: Pages, b: Blk, room: Room, lsn: nat)
    requires b in pages && ROOT in pages && RoomOk(o, pages, b, room, lsn)
    ensures SameEntries(pages, Overflow(pages, b, room, lsn), {})
  {
    match room
    case Fits =>
    case Halves(cuts) => SplitManyEntries(pages, b, cuts, lsn);
    case NewRoot(children) => RootSplitEntries(pages, children, lsn);
  }

  lemma Together(pages: Pages, pages1: Pages, pages2: Pages, more: set<Entry>)
    requires SameEntries(pages, pages1, more) && SameEntries(pages1, pages2, {})
    ensures SameEntries(pages, pages2, more)
  {
  }

  lemma PublishEntriesStay(pages: Pages, p: Blk, left: Blk, downs: map<Blk, Key>, lsn: nat)
    requires p in pages && left in pages
    ensures SameEntries(pages, Publish(pages, p, left, downs, lsn), {})
  {
    var pages' := Publish(pages, p, left, downs, lsn);
    forall x, e ensures On(pages', x, e) <==> On(pages, x, e) { }
    forall e ensures Present(pages', e) <==> Present(pages, e) {
      if Present(pages, e) {
        var x := Place(pages, e);
        assert On(pages', x, e);
      }
      if Present(pages', e) {
        var x := Place(pages', e);
        assert On(pages, x, e);
      }
    }
  }

  /** The entry that a step adds. */
  function Inserted(a: Action): set<Entry> { if a.Insert? then {a.cur.e} else {} }

  /** An insertion puts its entry into the index; no step adds anything else, loses an entry,
      or doubles one. */
  lemma NextEntries(o: Order, s: State, a: Action, s': State)
    requires Next(o, s, a, s')
    ensures SameEntries(s.pages, s'.pages, Inserted(a))
  {
    var lsn := s.clock + 1;
    match a
    case Begin(_) =>
    case Descend(_, _) =>
    case Adjust(cur, c, k, room) =>
      var p := s.pages[cur.blk];
      var pages1 := Put(s.pages, cur.blk, p.entries, p.downs[c := k], lsn);
      PutEntries(s.pages, cur.blk, p.downs[c := k], lsn, {});
      assert p.entries + {} == p.entries;
      OverflowEntriesStay(o, pages1, cur.blk, room, lsn);
      Together(s.pages, pages1, s'.pages, {});
    case Insert(cur, room) =>
      var p := s.pages[cur.blk];
      var pages1 := Put(s.pages, cur.blk, p.entries + {cur.e}, p.downs, lsn);
      PutEntries(s.pages, cur.blk, p.downs, lsn, {cur.e});
      OverflowEntriesStay(o, pages1, cur.blk, room, lsn);
      Together(s.pages, pages1, s'.pages, {cur.e});
    case Finish(p, _, left, downs, room) =>
      var pages1 := Publish(s.pages, p, left, downs, lsn);
      PublishEntriesStay(s.pages, p, left, downs, lsn);
      OverflowEntriesStay(o, pages1, p, room, lsn);
      Together(s.pages, pages1, s'.pages, {});
  }

  /** The states that the steps `acts` lead through, from the empty index on. */
  ghost predicate Trace(o: Order, ss: seq<State>, acts: seq<Action>) {
    && |ss| == |acts| + 1 && ss[0] == EMPTY
    && forall i, j | 0 <= i < |acts| && j == i + 1 :: Next(o, ss[i], acts[i], ss[j])
  }

  /** The index holds exactly what was inserted. */
  lemma {:induction false} HoldsInsertions(o: Order, ss: seq<State>, acts: seq<Action>, e: Entry)
    requires Trace(o, ss, acts)
    ensures Present(ss[|acts|].pages, e) <==> exists i :: 0 <= i < |acts| && e in Inserted(acts[i])
    decreases |acts|
  {
    var n := |acts| - 1;
    if n >= 0 {
      assert Next(o, ss[n], acts[n], ss[n + 1]);
      NextEntries(o, ss[n], acts[n], ss[n + 1]);
      HoldsInsertions(o, ss[..n + 1], acts[..n], e);
      assert forall i | 0 <= i < n :: acts[..n][i] == acts[i];
      if i :| 0 <= i < |acts| && e in Inserted(acts[i]) && i != n {
        assert e in Inserted(acts[..n][i]);
      }
    }
  }
}
