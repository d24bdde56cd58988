/** Scans that run beside inserters: no entry that was in the index when the scan began is
    missed, whatever splits happen meanwhile. */
module GistScan {
  import opened GistPages
  import opened GistPlace
  import opened GistLinks
  import opened GistKeys
  import opened GistSteps

  // ---- every step keeps the index in order ----

  lemma LaterCursors(o: Order, s: State, cursors: set<Cursor>, cur: Cursor)
    requires Inv(o, s) && CursorOk(o, s.pages, cur) && cur.lsn <= s.clock && cursors == s.cursors + {cur}
    ensures Inv(o, s.(cursors := cursors))
  {
  }

  lemma DescendKeepsInv(o: Order, s: State, cur: Cursor, c: Blk, s': State)
    requires Inv(o, s) && Descends(o, s, cur, c, s')
    ensures Inv(o, s')
  {
    assert PageOk(s.pages, cur.blk, s.clock);
    LaterCursors(o, s, s'.cursors, Cursor(cur.e, c, s.pages[cur.blk].lsn));
  }

  lemma PlacedIsGood(o: Order, pages: Pages, b: Blk, room: Room, s: State, s': State)
    requires b in pages && ROOT in pages && Placed(o, pages, b, room, s, s') && Good(o, pages, s.clock + 1, s.cursors)
    ensures Good(o, s'.pages, s'.clock, s.cursors)
  {
    OverflowGood(o, pages, b, room, s.clock + 1, s.clock + 1, s.cursors);
  }

  lemma FewerCursors(o: Order, s: State, s': State)
    requires Good(o, s'.pages, s'.clock, s.cursors) && s'.cursors <= s.cursors && s.clock <= s'.clock
    requires forall cur | cur in s.cursors :: cur.lsn <= s.clock
    ensures Inv(o, s')
  {
  }

  lemma PlacedKeepsInv(o: Order, pages: Pages, b: Blk, room: Room, s: State, s': State)
    requires b in pages && ROOT in pages && Placed(o, pages, b, room, s, s') && Good(o, pages, s.clock + 1, s.cursors)
    requires s'.cursors <= s.cursors && forall cur | cur in s.cursors :: cur.lsn <= s.clock
    ensures Inv(o, s')
  {
    PlacedIsGood(o, pages, b, room, s, s');
    FewerCursors(o, s, s');
  }

  lemma InsertIsGood(o: Order, s: State, cur: Cursor, lsn: nat, pages: Pages)
    requires OrderOk(o) && Inv(o, s) && cur in s.cursors && Current(s.pages, cur) && s.pages[cur.blk].leaf && lsn == s.clock + 1
    requires pages == Put(s.pages, cur.blk, s.pages[cur.blk].entries + {cur.e}, s.pages[cur.blk].downs, lsn)
    ensures Good(o, pages, lsn, s.cursors) && cur.blk in pages && ROOT in pages
  {
    var p := s.pages[cur.blk];
    InsertGrows(o, s.pages, s.clock, cur);
    PutGood(o, s.pages, cur.blk, p.entries + {cur.e}, p.downs, lsn, s.clock, lsn, s.cursors);
  }

  lemma InsertKeepsInv(o: Order, s: State, cur: Cursor, room: Room, s': State)
    requires OrderOk(o) && Inv(o, s) && Inserts(o, s, cur, room, s')
    ensures Inv(o, s')
  {
    var pages := Put(s.pages, cur.blk, s.pages[cur.blk].entries + {cur.e}, s.pages[cur.blk].downs, s.clock + 1);
    InsertIsGood(o, s, cur, s.clock + 1, pages);
    PlacedKeepsInv(o, pages, cur.blk, room, s, s');
  }

  lemma AdjustIsGood(o: Order, s: State, cur: Cursor, c: Blk, k: Key, lsn: nat, pages: Pages)
    requires OrderOk(o) && Inv(o, s) && cur in s.cursors && Current(s.pages, cur) && lsn == s.clock + 1
    requires c in s.pages[cur.blk].downs && Join(o, k, s.pages[cur.blk].downs[c], cur.e.key)
    requires pages == Put(s.pages, cur.blk, s.pages[cur.blk].entries, s.pages[cur.blk].downs[c := k], lsn)
    ensures Good(o, pages, lsn, s.cursors) && cur.blk in pages && ROOT in pages
  {
    var p := s.pages[cur.blk];
    AdjustGrows(o, s.pages, s.clock, cur, c, k);
    assert PageOk(s.pages, cur.blk, s.clock);
    PutGood(o, s.pages, cur.blk, p.entries, p.downs[c := k], lsn, s.clock, lsn, s.cursors);
  }

  /** The downlink chosen for the descent covers the entry once it is enlarged. */
  lemma AdjustedAdmits(o: Order, s: State, cur: Cursor, c: Blk, k: Key, s': State)
    requires Adjusts(o, s, cur, c, k, Fits, s')
    ensures Admits(o, s'.pages, cur.blk, c, cur.e.key)
  {
  }

  lemma AdjustKeepsInv(o: Order, s: State, cur: Cursor, c: Blk, k: Key, room: Room, s': State)
    requires OrderOk(o) && Inv(o, s) && Adjusts(o, s, cur, c, k, room, s')
    ensures Inv(o, s')
  {
    var pages := Put(s.pages, cur.blk, s.pages[cur.blk].entries, s.pages[cur.blk].downs[c := k], s.clock + 1);
    AdjustIsGood(o, s, cur, c, k, s.clock + 1, pages);
    PlacedKeepsInv(o, pages, cur.blk, room, s, s'.(cursors := s.cursors));
    if room.Fits? {
      AdjustedAdmits(o, s, cur, c, k, s');
      AdjustedCursor(o, s, cur, c, k, s');
    }
  }

  lemma AdjustedCursor(o: Order, s: State, cur: Cursor, c: Blk, k: Key, s': State)
    requires Links(s.pages, s.clock) && Adjusts(o, s, cur, c, k, Fits, s') && Admits(o, s'.pages, cur.blk, c, cur.e.key)
    requires Inv(o, s'.(cursors := s.cursors))
    ensures Inv(o, s')
  {
    assert PageOk(s.pages, cur.blk, s.clock);
    LaterCursors(o, s'.(cursors := s.cursors), s'.cursors, Cursor(cur.e, c, s.pages[cur.blk].lsn));
  }

  lemma PublishIsGood(o: Order, s: State, p: Blk, h: Blk, left: Blk, downs: map<Blk, Key>, lsn: nat, pages: Pages)
    requires OrderOk(o) && Inv(o, s) && lsn == s.clock + 1
    requires PublishOk(s.pages, p, h, left, downs) && FromContent(o, s.pages, p, h, left, downs)
    requires pages == Publish(s.pages, p, left, downs, lsn)
    ensures Good(o, pages, lsn, s.cursors) && p in pages && ROOT in pages
  {
    ContentKeys(o, s.pages, p, h, left, downs, s.clock);
    PublishGood(o, s.pages, p, h, left, downs, lsn, s.clock, s.cursors);
  }

  lemma FinishKeepsInv(o: Order, s: State, p: Blk, h: Blk, left: Blk, downs: map<Blk, Key>, room: Room, s': State)
    requires OrderOk(o) && Inv(o, s) && Finishes(o, s, p, h, left, downs, room, s')
    ensures Inv(o, s')
  {
    var pages := Publish(s.pages, p, left, downs, s.clock + 1);
    PublishIsGood(o, s, p, h, left, downs, s.clock + 1, pages);
    PlacedKeepsInv(o, pages, p, room, s, s');
  }

  lemma NextKeepsInv(o: Order, s: State, a: Action, s': State)
    requires OrderOk(o) && Inv(o, s) && Next(o, s, a, s')
    ensures Inv(o, s')
  {
    match a
    case Begin(e) => LaterCursors(o, s, s'.cursors, Cursor(e, ROOT, 0));
    case Descend(cur, c) => DescendKeepsInv(o, s, cur, c, s');
    case Adjust(cur, c, k, room) => AdjustKeepsInv(o, s, cur, c, k, room, s');
    case Insert(cur, room) => InsertKeepsInv(o, s, cur, room, s');
    case Finish(p, h, left, downs, room) => FinishKeepsInv(o, s, p, h, left, downs, room, s');
  }

  /** An index is created with an empty leaf as its root. */
  const EMPTY: State := State(map[ROOT := Page(true, {}, map[], NONE, 0, false, 1)], 1, {})

  lemma EmptyInv(o: Order)
    ensures Inv(o, EMPTY)
  {
    var pages := EMPTY.pages;
    assert PageOk(pages, ROOT, 1);
    ReachSelf(pages, ParentLsn(0), ROOT);
    assert Item(ROOT, 0) in START;
    assert Pending(pages, START, ROOT, 0);
  }

  // ---- every step keeps the scan's way to an entry ----

  lemma PlacedLocated(o: Order, pages: Pages, b: Blk, room: Room, s: State, s': State, q: Queue, e: Entry)
    requires b in pages && ROOT in pages && Placed(o, pages, b, room, s, s')
    requires Links(pages, s.clock + 1) && QueueOk(q, s.clock) && Located(pages, q, e)
    ensures Located(s'.pages, q, e)
  {
    OverflowLocated(o, pages, b, room, s.clock + 1, s.clock + 1, q, e);
  }

  lemma InsertKeepsLocated(o: Order, s: State, cur: Cursor, room: Room, s': State, q: Queue, e: Entry)
    requires Links(s.pages, s.clock) && Inserts(o, s, cur, room, s') && QueueOk(q, s.clock) && Located(s.pages, q, e)
    ensures Located(s'.pages, q, e)
  {
    var p, lsn := s.pages[cur.blk], s.clock + 1;
    var pages := Put(s.pages, cur.blk, p.entries + {cur.e}, p.downs, lsn);
    PutLocated(s.pages, cur.blk, p.entries + {cur.e}, p.downs, lsn, q, e);
    PutLinks(s.pages, cur.blk, p.entries + {cur.e}, p.downs, lsn, s.clock, lsn);
    PlacedLocated(o, pages, cur.blk, room, s, s', q, e);
  }

  lemma AdjustKeepsLocated(o: Order, s: State, cur: Cursor, c: Blk, k: Key, room: Room, s': State, q: Queue, e: Entry)
    requires Links(s.pages, s.clock) && Adjusts(o, s, cur, c, k, room, s') && QueueOk(q, s.clock) && Located(s.pages, q, e)
    ensures Located(s'.pages, q, e)
  {
    var pages := Put(s.pages, cur.blk, s.pages[cur.blk].entries, s.pages[cur.blk].downs[c := k], s.clock + 1);
    AdjustedLinks(s, cur.blk, c, k, pages);
    PutLocated(s.pages, cur.blk, s.pages[cur.blk].entries, s.pages[cur.blk].downs[c := k], s.clock + 1, q, e);
    PlacedLocated(o, pages, cur.blk, room, s, s', q, e);
  }

  lemma SameKeys(downs: map<Blk, Key>, c: Blk, k: Key)
    requires c in downs
    ensures downs[c := k].Keys == downs.Keys
  {
  }

  lemma NoEntriesOnInner(pages: Pages, b: Blk, bound: nat)
    requires Links(pages, bound) && b in pages && !pages[b].leaf
    ensures pages[b].entries == {}
  {
    assert PageOk(pages, b, bound);
  }

  lemma AdjustedLinks(s: State, b: Blk, c: Blk, k: Key, pages: Pages)
    requires Links(s.pages, s.clock) && b in s.pages && c in s.pages[b].downs
    requires pages == Put(s.pages, b, s.pages[b].entries, s.pages[b].downs[c := k], s.clock + 1)
    ensures Links(pages, s.clock + 1) && s.pages[b].downs[c := k].Keys == s.pages[b].downs.Keys
  {
    var downs, entries := s.pages[b].downs[c := k], s.pages[b].entries;
    SameKeys(s.pages[b].downs, c, k);
    if !s.pages[b].leaf { NoEntriesOnInner(s.pages, b, s.clock); }
    PutLinks(s.pages, b, entries, downs, s.clock + 1, s.clock, s.clock + 1);
  }

  lemma FinishKeepsLocated(o: Order, s: State, p: Blk, h: Blk, left: Blk, downs: map<Blk, Key>, room: Room, s': State, q: Queue, e: Entry)
    requires Links(s.pages, s.clock) && Finishes(o, s, p, h, left, downs, room, s') && QueueOk(q, s.clock) && Located(s.pages, q, e)
    ensures Located(s'.pages, q, e)
  {
    var lsn := s.clock + 1;
    PublishLocated(s.pages, p, h, left, downs, lsn, s.clock, q, e);
    PublishLinks(s.pages, p, h, left, downs, lsn, s.clock, lsn);
    PlacedLocated(o, Publish(s.pages, p, left, downs, lsn), p, room, s, s', q, e);
  }

  lemma NextKeepsLocated(o: Order, s: State, a: Action, s': State, q: Queue, e: Entry)
    requires Links(s.pages, s.clock) && Next(o, s, a, s') && QueueOk(q, s.clock) && Located(s.pages, q, e)
    ensures Located(s'.pages, q, e)
  {
    match a
    case Begin(_) =>
    case Descend(_, _) =>
    case Adjust(cur, c, k, room) => AdjustKeepsLocated(o, s, cur, c, k, room, s', q, e);
    case Insert(cur, room) => InsertKeepsLocated(o, s, cur, room, s', q, e);
    case Finish(p, h, left, downs, room) => FinishKeepsLocated(o, s, p, h, left, downs, room, s', q, e);
  }

  // ---- the scan ----

  /** Pages still to be read and entries reported. */
  datatype Scan = Scan(queue: Queue, seen: set<Entry>)

  /** A query accepts every key that covers one it accepts. */
  ghost predicate QueryOk(o: Order, query: Key -> bool) { forall a, b | o.leq(a, b) && query(a) :: query(b) }

  /** The items made from a page: its right neighbour, if the page was split after the
      parent was read, and the downlinks that the query accepts. */
  function RightItem(p: Page, it: Item): Queue {
    if Hop(p, ParentLsn(it.lsn)) then multiset{Item(p.right, it.lsn)} else multiset{}
  }

  function ChildItems(p: Page, query: Key -> bool): set<Item> {
    set c | c in p.downs && query(p.downs[c]) :: Item(c, p.lsn)
  }

  /** A page is read under a lock, in one step. */
  function ReadPage(pages: Pages, it: Item, query: Key -> bool, sc: Scan): Scan
    requires it.blk in pages
  {
    var p := pages[it.blk];
    Scan(sc.queue - multiset{it} + RightItem(p, it) + multiset(ChildItems(p, query)), sc.seen + set e | e in p.entries && query(e.key))
  }

  /** The entry has been reported, or lies on a page the scan will still come to. */
  ghost predicate NotMissed(pages: Pages, sc: Scan, e: Entry) { e in sc.seen || Located(pages, sc.queue, e) }

  ghost predicate ScanOk(s: State, sc: Scan) {
    QueueOk(sc.queue, s.clock) && forall it | it in sc.queue :: it.blk in s.pages
  }

  lemma StillCovered(pages: Pages, it: Item, query: Key -> bool, sc: Scan, x: Blk)
    requires it in sc.queue && it.blk in pages && Covered(pages, sc.queue, x) && x != it.blk
    ensures Covered(pages, ReadPage(pages, it, query, sc).queue, x)
  {
    var j :| j in sc.queue && Reach(pages, ParentLsn(j.lsn), j.blk, x);
    var q' := ReadPage(pages, it, query, sc).queue;
    if j == it {
      var n: nat :| ReachIn(pages, ParentLsn(j.lsn), j.blk, x, n);
      var r := Item(pages[it.blk].right, it.lsn);
      assert ReachIn(pages, ParentLsn(r.lsn), r.blk, x, n - 1);
      assert r in q';
    } else {
      assert j in q';
    }
  }

  /** Reading a parent puts its downlink on the queue, and with it all the pages that
      belong to the downlink. */
  lemma ChildCovered(s: State, it: Item, query: Key -> bool, sc: Scan, c: Blk, x: Blk)
    requires Links(s.pages, s.clock) && it.blk in s.pages && Holds(s.pages, it.blk, c, x) && query(s.pages[it.blk].downs[c])
    ensures Covered(s.pages, ReadPage(s.pages, it, query, sc).queue, x)
  {
    var p := s.pages[it.blk];
    assert PageOk(s.pages, it.blk, s.clock);
    var n: nat :| ReachIn(s.pages, FlagOnly, c, x, n);
    FlagReaches(s.pages, c, x, n, p.lsn);
    assert Item(c, p.lsn) in ChildItems(p, query);
    assert Item(c, p.lsn) in ReadPage(s.pages, it, query, sc).queue;
  }

  /** What the page is known to lead to. */
  ghost predicate Leads(o: Order, p: Page, e: Entry) {
    e in p.entries || exists c :: c in p.downs && o.leq(e.key, p.downs[c])
  }

  lemma AncestorLeads(o: Order, s: State, p: Blk, c: Blk, x: Blk, e: Entry)
    requires OrderOk(o) && Keyed(o, s.pages) && Holds(s.pages, p, c, x) && x in s.pages && Leads(o, s.pages[x], e)
    ensures o.leq(e.key, s.pages[p].downs[c]) && Leads(o, s.pages[p], e)
  {
    assert HeldCovered(o, s.pages, p, c, x);
    if e !in s.pages[x].entries {
      var d :| d in s.pages[x].downs && o.leq(e.key, s.pages[x].downs[d]);
      Through(o, e.key, s.pages[x].downs[d], s.pages[p].downs[c]);
    }
  }

  /** Reading a page loses no page that leads to a wanted entry, but for the page read. */
  lemma {:induction false} ReadPending(o: Order, s: State, it: Item, query: Key -> bool, sc: Scan, e: Entry, x: Blk, n: nat)
    requires OrderOk(o) && Links(s.pages, s.clock) && Keyed(o, s.pages) && QueryOk(o, query) && query(e.key)
    requires it in sc.queue && it.blk in s.pages
    requires Pending(s.pages, sc.queue, x, n) && Leads(o, s.pages[x], e) && x != it.blk
    ensures Pending(s.pages, ReadPage(s.pages, it, query, sc).queue, x, n)
    decreases n
  {
    if Covered(s.pages, sc.queue, x) {
      StillCovered(s.pages, it, query, sc, x);
    } else {
      var p, c :| Holds(s.pages, p, c, x) && Pending(s.pages, sc.queue, p, n - 1);
      AncestorLeads(o, s, p, c, x, e);
      if p == it.blk {
        ChildCovered(s, it, query, sc, c, x);
      } else {
        ReadPending(o, s, it, query, sc, e, p, n - 1);
      }
    }
  }

  lemma ReadKeeps(o: Order, s: State, it: Item, query: Key -> bool, sc: Scan, e: Entry)
    requires OrderOk(o) && Inv(o, s) && QueryOk(o, query) && query(e.key) && it in sc.queue && it.blk in s.pages
    requires NotMissed(s.pages, sc, e)
    ensures NotMissed(s.pages, ReadPage(s.pages, it, query, sc), e)
  {
    if e !in sc.seen {
      var x :| x in s.pages && e in s.pages[x].entries && Found(s.pages, sc.queue, x);
      if x != it.blk {
        var n: nat :| Pending(s.pages, sc.queue, x, n);
        ReadPending(o, s, it, query, sc, e, x, n);
      }
    }
  }

  lemma ReadScanOk(o: Order, s: State, it: Item, query: Key -> bool, sc: Scan)
    requires Inv(o, s) && ScanOk(s, sc) && it in sc.queue
    ensures ScanOk(s, ReadPage(s.pages, it, query, sc))
  {
    var p, q' := s.pages[it.blk], ReadPage(s.pages, it, query, sc).queue;
    assert PageOk(s.pages, it.blk, s.clock);
    forall j | j in q' ensures j.lsn <= s.clock && (j.lsn == 0 ==> j.blk == ROOT) && j.blk in s.pages {
      assert j in sc.queue || j in RightItem(p, it) || j in ChildItems(p, query);
    }
  }

  // ---- runs ----

  datatype World = World(s: State, sc: Scan)

  ghost predicate CanStep(o: Order, s: State, s': State) { exists a :: Next(o, s, a, s') }

  /** One step of the whole system: an inserter changes the index, or the scan reads a page. */
  ghost predicate Steps(o: Order, query: Key -> bool, w: World, w': World) {
    || (w'.sc == w.sc && CanStep(o, w.s, w'.s))
    || (w'.s == w.s && exists it :: it in w.sc.queue && it.blk in w.s.pages && w'.sc == ReadPage(w.s.pages, it, query, w.sc))
  }

  ghost predicate Run(o: Order, query: Key -> bool, ws: seq<World>) {
    ws != [] && forall i | 0 <= i < |ws| - 1 :: Steps(o, query, ws[i], ws[i + 1])
  }

  ghost predicate WorldOk(o: Order, w: World, e: Entry) {
    Inv(o, w.s) && ScanOk(w.s, w.sc) && NotMissed(w.s.pages, w.sc, e)
  }

  lemma PagesRemain(o: Order, s: State, a: Action, s': State)
    requires Next(o, s, a, s')
    ensures s.pages.Keys <= s'.pages.Keys && s.clock <= s'.clock
  {
    var lsn := s.clock + 1;
    match a
    case Begin(_) =>
    case Descend(_, _) =>
    case Adjust(cur, c, k, room) =>
      OverflowRemain(o, Put(s.pages, cur.blk, s.pages[cur.blk].entries, s.pages[cur.blk].downs[c := k], lsn), cur.blk, room, lsn);
    case Insert(cur, room) =>
      OverflowRemain(o, Put(s.pages, cur.blk, s.pages[cur.blk].entries + {cur.e}, s.pages[cur.blk].downs, lsn), cur.blk, room, lsn);
    case Finish(p, _, left, downs, room) =>
      OverflowRemain(o, Publish(s.pages, p, left, downs, lsn), p, room, lsn);
  }

  lemma OverflowRemain(o: Order, pages: Pages, b: Blk, room: Room, lsn: nat)
    requires b in pages && ROOT in pages && RoomOk(o, pages, b, room, lsn)
    ensures pages.Keys <= Overflow(pages, b, room, lsn).Keys
  {
    if room.Halves? { SplitManyRemain(pages, b, room.cuts, lsn); }
  }

  lemma {:induction false} SplitManyRemain(pages: Pages, b: Blk, cuts: seq<Cut>, lsn: nat)
    requires b in pages && SplitsOk(pages, b, cuts, lsn)
    ensures pages.Keys <= SplitMany(pages, b, cuts, lsn).Keys
    decreases |cuts|
  {
    if cuts != [] { SplitManyRemain(SplitPage(pages, b, cuts[0], lsn), cuts[0].blk, cuts[1..], lsn); }
  }

  lemma StepKeeps(o: Order, query: Key -> bool, w: World, w': World, e: Entry)
    requires OrderOk(o) && QueryOk(o, query) && query(e.key) && WorldOk(o, w, e) && Steps(o, query, w, w')
    ensures WorldOk(o, w', e)
  {
    if w'.sc == w.sc && CanStep(o, w.s, w'.s) {
      var a :| Next(o, w.s, a, w'.s);
      NextKeepsInv(o, w.s, a, w'.s);
      PagesRemain(o, w.s, a, w'.s);
      if e !in w.sc.seen { NextKeepsLocated(o, w.s, a, w'.s, w.sc.queue, e); }
    } else {
      var it :| it in w.sc.queue && it.blk in w.s.pages && w'.sc == ReadPage(w.s.pages, it, query, w.sc);
      ReadKeeps(o, w.s, it, query, w.sc, e);
      ReadScanOk(o, w.s, it, query, w.sc);
    }
  }

  /** An entry is in the index. */
  ghost predicate Present(pages: Pages, e: Entry) { exists x :: x in pages && e in pages[x].entries }

  lemma StartOk(o: Order, s: State, e: Entry)
    requires Inv(o, s) && Present(s.pages, e)
    ensures WorldOk(o, World(s, Scan(START, {})), e)
  {
    var x :| x in s.pages && e in s.pages[x].entries;
    assert Found(s.pages, START, x);
  }

  lemma RunPrefix(o: Order, query: Key -> bool, ws: seq<World>, i: nat)
    requires Run(o, query, ws) && i < |ws| - 1
    ensures Run(o, query, ws[..i + 1]) && Steps(o, query, ws[i], ws[i + 1])
  {
  }

  lemma {:induction false} RunKeeps(o: Order, query: Key -> bool, ws: seq<World>, e: Entry)
    requires OrderOk(o) && QueryOk(o, query) && query(e.key) && Run(o, query, ws) && WorldOk(o, ws[0], e)
    ensures WorldOk(o, ws[|ws| - 1], e)
    decreases |ws|
  {
    if |ws| > 1 {
      var i := |ws| - 2;
      RunPrefix(o, query, ws, i);
      RunKeeps(o, query, ws[..i + 1], e);
      StepKeeps(o, query, ws[i], ws[i + 1], e);
    }
  }

  /** No step removes an entry. */
  lemma EntriesStay(o: Order, s: State, a: Action, s': State, e: Entry)
    requires Inv(o, s) && Next(o, s, a, s') && Present(s.pages, e)
    ensures Present(s'.pages, e)
  {
    StartOk(o, s, e);
    NextKeepsLocated(o, s, a, s', START, e);
  }

  /** The states that inserters can bring the index to. */
  ghost predicate History(o: Order, ss: seq<State>) {
    ss != [] && ss[0] == EMPTY && forall i | 0 <= i < |ss| - 1 :: CanStep(o, ss[i], ss[i + 1])
  }

  lemma StepKeepsInv(o: Order, s: State, s': State)
    requires OrderOk(o) && Inv(o, s) && CanStep(o, s, s')
    ensures Inv(o, s')
  {
    var a :| Next(o, s, a, s');
    NextKeepsInv(o, s, a, s');
  }

  lemma {:induction false} AlwaysInv(o: Order, ss: seq<State>)
    requires OrderOk(o) && History(o, ss)
    ensures Inv(o, ss[|ss| - 1])
    decreases |ss|
  {
    if |ss| == 1 {
      EmptyInv(o);
    } else {
      var i := |ss| - 2;
      AlwaysInv(o, ss[..i + 1]);
      StepKeepsInv(o, ss[i], ss[i + 1]);
    }
  }

  /** A scan that begins in any state of the index and runs to its end beside any
      inserters reports every entry that was there when it began and meets the query. */
  lemma NoEntryMissed(o: Order, query: Key -> bool, ss: seq<State>, ws: seq<World>, e: Entry)
    requires OrderOk(o) && QueryOk(o, query) && query(e.key)
    requires History(o, ss) && Run(o, query, ws) && ws[0] == World(ss[|ss| - 1], Scan(START, {})) && Present(ws[0].s.pages, e)
    requires ws[|ws| - 1].sc.queue == multiset{}
    ensures e in ws[|ws| - 1].sc.seen
  {
    AlwaysInv(o, ss);
    StartOk(o, ws[0].s, e);
    RunKeeps(o, query, ws, e);
    var w := ws[|ws| - 1];
    if e !in w.sc.seen {
      var x :| x in w.s.pages && e in w.s.pages[x].entries && Found(w.s.pages, w.sc.queue, x);
      var n: nat :| Pending(w.s.pages, w.sc.queue, x, n);
      NothingPending(w.s.pages, x, n);
    }
  }

  /** What one step adds to the reported entries meets the query and is in the index then. */
  lemma StepReports(o: Order, query: Key -> bool, w: World, w': World, e: Entry)
    requires Steps(o, query, w, w') && e in w'.sc.seen && e !in w.sc.seen
    ensures query(e.key) && w'.s == w.s && Present(w.s.pages, e)
  {
    var it :| it in w.sc.queue && it.blk in w.s.pages && w'.sc == ReadPage(w.s.pages, it, query, w.sc);
    assert e in w.s.pages[it.blk].entries;
  }

  /** Nothing else is reported: every entry a scan reports meets the query and was in the
      index at some moment of the scan. */
  lemma {:induction false} OnlyAccepted(o: Order, query: Key -> bool, ws: seq<World>, e: Entry) returns (i: nat)
    requires Run(o, query, ws) && e !in ws[0].sc.seen && e in ws[|ws| - 1].sc.seen
    ensures query(e.key) && i < |ws| && Present(ws[i].s.pages, e)
    decreases |ws|
  {
    var n := |ws| - 2;
    RunPrefix(o, query, ws, n);
    if e in ws[n].sc.seen {
      i := OnlyAccepted(o, query, ws[..n + 1], e);
    } else {
      StepReports(o, query, ws[n], ws[n + 1], e);
      i := n;
    }
  }

  /** An entry stays in the index along a run. */
  lemma {:induction false} PresentStays(o: Order, query: Key -> bool, ws: seq<World>, e: Entry, i: nat)
    requires OrderOk(o) && Run(o, query, ws) && Inv(o, ws[0].s) && i < |ws| && Present(ws[i].s.pages, e)
    ensures Inv(o, ws[|ws| - 1].s) && Present(ws[|ws| - 1].s.pages, e)
    decreases |ws|
  {
    var n := |ws| - 2;
    if |ws| > 1 {
      RunPrefix(o, query, ws, n);
      if i <= n {
        PresentStays(o, query, ws[..n + 1], e, i);
        StepPresent(o, query, ws[n], ws[n + 1], e);
      } else {
        RunKeepsInv(o, query, ws);
      }
    }
  }

  lemma StepPresent(o: Order, query: Key -> bool, w: World, w': World, e: Entry)
    requires OrderOk(o) && Steps(o, query, w, w') && Inv(o, w.s) && Present(w.s.pages, e)
    ensures Inv(o, w'.s) && Present(w'.s.pages, e)
  {
    if w'.s != w.s {
      var a :| Next(o, w.s, a, w'.s);
      NextKeepsInv(o, w.s, a, w'.s);
      EntriesStay(o, w.s, a, w'.s, e);
    }
  }

  lemma {:induction false} RunKeepsInv(o: Order, query: Key -> bool, ws: seq<World>)
    requires OrderOk(o) && Run(o, query, ws) && Inv(o, ws[0].s)
    ensures Inv(o, ws[|ws| - 1].s)
    decreases |ws|
  {
    if |ws| > 1 {
      var n := |ws| - 2;
      RunPrefix(o, query, ws, n);
      RunKeepsInv(o, query, ws[..n + 1]);
      if ws[n + 1].s != ws[n].s { StepKeepsInv(o, ws[n].s, ws[n + 1].s); }
    }
  }

  /** The answer of a scan from both sides: all that was there at the beginning and meets the
      query, and nothing but what meets it and is there at the end. */
  lemma AnswerBounds(o: Order, query: Key -> bool, ss: seq<State>, ws: seq<World>, e: Entry)
    requires OrderOk(o) && QueryOk(o, query) && History(o, ss) && Run(o, query, ws)
    requires ws[0] == World(ss[|ss| - 1], Scan(START, {})) && ws[|ws| - 1].sc.queue == multiset{}
    ensures query(e.key) && Present(ws[0].s.pages, e) ==> e in ws[|ws| - 1].sc.seen
    ensures e in ws[|ws| - 1].sc.seen ==> query(e.key) && Present(ws[|ws| - 1].s.pages, e)
  {
    if query(e.key) && Present(ws[0].s.pages, e) { NoEntryMissed(o, query, ss, ws, e); }
    if e in ws[|ws| - 1].sc.seen {
      AlwaysInv(o, ss);
      var i := OnlyAccepted(o, query, ws, e);
      PresentStays(o, query, ws, e, i);
    }
  }
}
