/** The steps of concurrent inserters, each under the locks it holds, and what all of them
    keep. */
module GistSteps {
  import opened GistPages
  import opened GistPlace
  import opened GistLinks
  import opened GistKeys

  /** The pages, the last LSN given out, and the pages that inserters are on their way to. */
  datatype State = State(pages: Pages, clock: nat, cursors: set<Cursor>)

  /** Whether the page that tuples are placed on has to be split in the same step. */
  datatype Room = Fits | Halves(cuts: seq<Cut>) | NewRoot(children: map<Blk, Child>)

  function Overflow(pages: Pages, b: Blk, room: Room, lsn: nat): Pages
    requires b in pages && ROOT in pages
  {
    match room
    case Fits => pages
    case Halves(cuts) => SplitMany(pages, b, cuts, lsn)
    case NewRoot(children) => RootSplit(pages, children, lsn)
  }

  ghost predicate RoomOk(o: Order, pages: Pages, b: Blk, room: Room, lsn: nat)
    requires b in pages
  {
    match room
    case Fits => true
    case Halves(cuts) => b != ROOT && SplitsOk(pages, b, cuts, lsn)
    case NewRoot(children) => b == ROOT && RootSplitOk(pages, children) && ChildKeys(o, children)
  }

  /** The check made on arriving at a page: it was not split since the parent was read. */
  ghost predicate Current(pages: Pages, cur: Cursor) {
    cur.blk in pages && (cur.blk == ROOT || (!pages[cur.blk].follow && !(cur.lsn < pages[cur.blk].nsn)))
  }

  ghost predicate Join(o: Order, k: Key, a: Key, b: Key) {
    o.leq(a, k) && o.leq(b, k) && forall m | o.leq(a, m) && o.leq(b, m) :: o.leq(k, m)
  }

  /** A downlink key is formed from the page's content, or, for an empty page, taken over
      from the downlink of the whole split. */
  ghost predicate FromContent(o: Order, pages: Pages, p: Blk, h: Blk, left: Blk, downs: map<Blk, Key>)
    requires PublishOk(pages, p, h, left, downs)
  {
    var right := pages[left].right;
    && (UnionOf(o, downs[right], pages[right]) || downs[right] == pages[p].downs[h])
    && (left == h ==> UnionOf(o, downs[h], pages[h]) || downs[h] == pages[p].downs[h])
  }

  /** An insertion starts at the root. */
  ghost predicate Begins(s: State, e: Entry, s': State) { s' == s.(cursors := s.cursors + {Cursor(e, ROOT, 0)}) }

  /** The inserter goes on to a downlink that covers its entry. */
  ghost predicate Descends(o: Order, s: State, cur: Cursor, c: Blk, s': State) {
    && cur in s.cursors && Current(s.pages, cur) && Admits(o, s.pages, cur.blk, c, cur.e.key)
    && s' == s.(cursors := s.cursors + {Cursor(cur.e, c, s.pages[cur.blk].lsn)})
  }

  /** Placing tuples on a page and splitting it if needed are one step with one LSN. */
  ghost predicate Placed(o: Order, pages: Pages, b: Blk, room: Room, s: State, s': State)
    requires b in pages && ROOT in pages
  {
    && RoomOk(o, pages, b, room, s.clock + 1)
    && s'.pages == Overflow(pages, b, room, s.clock + 1) && s'.clock == s.clock + 1
  }

  /** The downlink has to be enlarged first; only if the page did not have to be split for
      that does the inserter go on. */
  ghost predicate Adjusts(o: Order, s: State, cur: Cursor, c: Blk, k: Key, room: Room, s': State) {
    && ROOT in s.pages && cur in s.cursors && Current(s.pages, cur)
    && c in s.pages[cur.blk].downs && Join(o, k, s.pages[cur.blk].downs[c], cur.e.key)
    && var p := s.pages[cur.blk];
       && Placed(o, Put(s.pages, cur.blk, p.entries, p.downs[c := k], s.clock + 1), cur.blk, room, s, s')
       && s'.cursors == s.cursors + if room.Fits? then {Cursor(cur.e, c, p.lsn)} else {}
  }

  /** The entry is put on the leaf. */
  ghost predicate Inserts(o: Order, s: State, cur: Cursor, room: Room, s': State) {
    && ROOT in s.pages && cur in s.cursors && Current(s.pages, cur) && s.pages[cur.blk].leaf
    && var p := s.pages[cur.blk];
       && Placed(o, Put(s.pages, cur.blk, p.entries + {cur.e}, p.downs, s.clock + 1), cur.blk, room, s, s')
       && s'.cursors == s.cursors - {cur}
  }

  /** The downlink of one page of a split is inserted, and its left neighbour's flag
      cleared. */
  ghost predicate Finishes(o: Order, s: State, p: Blk, h: Blk, left: Blk, downs: map<Blk, Key>, room: Room, s': State) {
    && ROOT in s.pages && PublishOk(s.pages, p, h, left, downs) && FromContent(o, s.pages, p, h, left, downs)
    && Placed(o, Publish(s.pages, p, left, downs, s.clock + 1), p, room, s, s')
    && s'.cursors == s.cursors
  }

  datatype Action =
    | Begin(e: Entry)
    | Descend(cur: Cursor, c: Blk)
    | Adjust(cur: Cursor, c: Blk, k: Key, room: Room)
    | Insert(cur: Cursor, room: Room)
    | Finish(p: Blk, h: Blk, left: Blk, downs: map<Blk, Key>, room: Room)

  ghost predicate Next(o: Order, s: State, a: Action, s': State) {
    match a
    case Begin(e) => Begins(s, e, s')
    case Descend(cur, c) => Descends(o, s, cur, c, s')
    case Adjust(cur, c, k, room) => Adjusts(o, s, cur, c, k, room, s')
    case Insert(cur, room) => Inserts(o, s, cur, room, s')
    case Finish(p, h, left, downs, room) => Finishes(o, s, p, h, left, downs, room, s')
  }

  // ---- what is kept ----

  /** Every page can be found from the root. */
  ghost predicate Rooted(pages: Pages) { forall x {:trigger Found(pages, START, x)} | x in pages :: Found(pages, START, x) }

  ghost predicate Found(pages: Pages, q: Queue, x: Blk) { exists n: nat :: Pending(pages, q, x, n) }

  ghost predicate Good(o: Order, pages: Pages, bound: nat, cursors: set<Cursor>) {
    Links(pages, bound) && Rooted(pages) && Keyed(o, pages) && CursorsOk(o, pages, cursors)
  }

  ghost predicate Inv(o: Order, s: State) {
    && Good(o, s.pages, s.clock, s.cursors) && forall cur | cur in s.cursors :: cur.lsn <= s.clock
  }

  /** The entry is on a page that the scan will come to. */
  ghost predicate Located(pages: Pages, q: Queue, e: Entry) { exists x :: x in pages && e in pages[x].entries && Found(pages, q, x) }

  // ---- rewriting a page ----

  lemma PutFound(pages: Pages, b: Blk, entries: set<Entry>, downs: map<Blk, Key>, lsn: nat, q: Queue, x: Blk)
    requires b in pages && pages[b].downs.Keys <= downs.Keys && Found(pages, q, x)
    ensures Found(Put(pages, b, entries, downs, lsn), q, x)
  {
    var n: nat :| Pending(pages, q, x, n);
    PutPending(pages, b, entries, downs, lsn, q, x, n);
  }

  lemma PutGood(o: Order, pages: Pages, b: Blk, entries: set<Entry>, downs: map<Blk, Key>, lsn: nat, bound: nat, bound': nat,
                cursors: set<Cursor>)
    requires OrderOk(o) && Good(o, pages, bound, cursors) && b in pages && Later(bound, lsn, bound')
    requires Grows(o, pages, b, entries, downs) && (!pages[b].leaf ==> entries == {})
    ensures Good(o, Put(pages, b, entries, downs, lsn), bound', cursors)
  {
    var pages' := Put(pages, b, entries, downs, lsn);
    PutLinks(pages, b, entries, downs, lsn, bound, bound');
    PutKeyed(o, pages, b, entries, downs, lsn);
    forall x | x in pages' ensures Found(pages', START, x) { PutFound(pages, b, entries, downs, lsn, START, x); }
    forall cur | cur in cursors ensures CursorOk(o, pages', cur) { PutCursors(o, pages, b, entries, downs, lsn, cur); }
  }

  lemma PutLocated(pages: Pages, b: Blk, entries: set<Entry>, downs: map<Blk, Key>, lsn: nat, q: Queue, e: Entry)
    requires b in pages && pages[b].downs.Keys <= downs.Keys && pages[b].entries <= entries && Located(pages, q, e)
    ensures Located(Put(pages, b, entries, downs, lsn), q, e)
  {
    var x :| x in pages && e in pages[x].entries && Found(pages, q, x);
    PutFound(pages, b, entries, downs, lsn, q, x);
  }

  // ---- splitting ----

  lemma SplitFound(pages: Pages, b: Blk, cut: Cut, lsn: nat, q: Queue, bound: nat, x: Blk)
    requires SplitOk(pages, b, cut) && QueueOk(q, bound) && Found(pages, q, x)
    ensures Found(SplitPage(pages, b, cut, lsn), q, x) && (x == b ==> Found(SplitPage(pages, b, cut, lsn), q, cut.blk))
  {
    var n: nat :| Pending(pages, q, x, n);
    SplitPending(pages, SplitPage(pages, b, cut, lsn), b, cut, lsn, q, bound, x, n);
  }

  lemma SplitGood(o: Order, pages: Pages, b: Blk, cut: Cut, lsn: nat, bound: nat, bound': nat, cursors: set<Cursor>)
    requires Good(o, pages, bound, cursors) && SplitOk(pages, b, cut) && Later(bound, lsn, bound')
    ensures Good(o, SplitPage(pages, b, cut, lsn), bound', cursors)
  {
    var pages' := SplitPage(pages, b, cut, lsn);
    SplitLinks(pages, b, cut, lsn, bound, bound');
    SplitKeyed(o, pages, b, cut, lsn, bound);
    forall x | x in pages' ensures Found(pages', START, x) {
      assert Found(pages, START, Before(b, cut, x));
      SplitFound(pages, b, cut, lsn, START, 0, Before(b, cut, x));
    }
    forall cur | cur in cursors ensures CursorOk(o, pages', cur) { SplitCursors(o, pages, b, cut, lsn, cur); }
  }

  lemma SplitLocated(pages: Pages, b: Blk, cut: Cut, lsn: nat, q: Queue, bound: nat, e: Entry)
    requires SplitOk(pages, b, cut) && QueueOk(q, bound) && Located(pages, q, e)
    ensures Located(SplitPage(pages, b, cut, lsn), q, e)
  {
    var x :| x in pages && e in pages[x].entries && Found(pages, q, x);
    SplitFound(pages, b, cut, lsn, q, bound, x);
    var pages' := SplitPage(pages, b, cut, lsn);
    if x == b && e in cut.entries {
      assert e in pages'[cut.blk].entries;
    } else {
      assert e in pages'[x].entries;
    }
  }

  lemma {:induction false} SplitManyGood(o: Order, pages: Pages, b: Blk, cuts: seq<Cut>, lsn: nat, bound: nat, cursors: set<Cursor>)
    requires Good(o, pages, bound, cursors) && b in pages && SplitsOk(pages, b, cuts, lsn) && 1 <= lsn <= bound
    ensures Good(o, SplitMany(pages, b, cuts, lsn), bound, cursors)
    decreases |cuts|
  {
    if cuts != [] {
      SplitGood(o, pages, b, cuts[0], lsn, bound, bound, cursors);
      SplitManyGood(o, SplitPage(pages, b, cuts[0], lsn), cuts[0].blk, cuts[1..], lsn, bound, cursors);
    }
  }

  lemma {:induction false} SplitManyLocated(pages: Pages, b: Blk, cuts: seq<Cut>, lsn: nat, q: Queue, bound: nat, e: Entry)
    requires b in pages && SplitsOk(pages, b, cuts, lsn) && QueueOk(q, bound) && Located(pages, q, e)
    ensures Located(SplitMany(pages, b, cuts, lsn), q, e)
    decreases |cuts|
  {
    if cuts != [] {
      SplitLocated(pages, b, cuts[0], lsn, q, bound, e);
      SplitManyLocated(SplitPage(pages, b, cuts[0], lsn), cuts[0].blk, cuts[1..], lsn, q, bound, e);
    }
  }

  // ---- publishing ----

  lemma PublishFound(pages: Pages, p: Blk, h: Blk, left: Blk, downs: map<Blk, Key>, lsn: nat, bound: nat, q: Queue, x: Blk)
    requires Links(pages, bound) && PublishOk(pages, p, h, left, downs) && bound < lsn && QueueOk(q, bound)
    requires Found(pages, q, x)
    ensures Found(Publish(pages, p, left, downs, lsn), q, x)
  {
    var n: nat :| Pending(pages, q, x, n);
    assert PageOk(pages, left, bound);
    PublishPending(pages, Publish(pages, p, left, downs, lsn), p, h, left, downs, lsn, bound, q, x, n);
  }

  lemma PublishGood(o: Order, pages: Pages, p: Blk, h: Blk, left: Blk, downs: map<Blk, Key>, lsn: nat, bound: nat, cursors: set<Cursor>)
    requires OrderOk(o) && Good(o, pages, bound, cursors) && bound < lsn && forall cur | cur in cursors :: cur.lsn <= bound
    requires PublishOk(pages, p, h, left, downs) && PublishKeys(o, pages, p, h, left, downs)
    ensures Good(o, Publish(pages, p, left, downs, lsn), lsn, cursors)
  {
    var pages' := Publish(pages, p, left, downs, lsn);
    PublishLinks(pages, p, h, left, downs, lsn, bound, lsn);
    PublishKeyed(o, pages, p, h, left, downs, lsn, bound);
    forall x | x in pages' ensures Found(pages', START, x) { PublishFound(pages, p, h, left, downs, lsn, bound, START, x); }
    forall cur | cur in cursors ensures CursorOk(o, pages', cur) { PublishCursors(o, pages, p, h, left, downs, lsn, cur); }
  }

  lemma PublishLocated(pages: Pages, p: Blk, h: Blk, left: Blk, downs: map<Blk, Key>, lsn: nat, bound: nat, q: Queue, e: Entry)
    requires Links(pages, bound) && PublishOk(pages, p, h, left, downs) && bound < lsn && QueueOk(q, bound) && Located(pages, q, e)
    ensures Located(Publish(pages, p, left, downs, lsn), q, e)
  {
    var x :| x in pages && e in pages[x].entries && Found(pages, q, x);
    PublishFound(pages, p, h, left, downs, lsn, bound, q, x);
    PublishEntries(pages, p, left, downs, lsn, x);
  }

  lemma PublishEntries(pages: Pages, p: Blk, left: Blk, downs: map<Blk, Key>, lsn: nat, x: Blk)
    requires p in pages && left in pages && x in pages
    ensures x in Publish(pages, p, left, downs, lsn) && Publish(pages, p, left, downs, lsn)[x].entries == pages[x].entries
  {
  }

  /** Keys formed from the pages' content satisfy what publishing needs. */
  lemma ContentKeys(o: Order, pages: Pages, p: Blk, h: Blk, left: Blk, downs: map<Blk, Key>, bound: nat)
    requires OrderOk(o) && Links(pages, bound) && Keyed(o, pages)
    requires PublishOk(pages, p, h, left, downs) && FromContent(o, pages, p, h, left, downs)
    ensures PublishKeys(o, pages, p, h, left, downs)
  {
    var right := pages[left].right;
    assert HeldCovered(o, pages, p, h, left);
    ReachOneMore(pages, FlagOnly, h, left);
    assert Holds(pages, p, h, right) && HeldCovered(o, pages, p, h, right);
  }

  // ---- splitting the root ----

  lemma RootSplitFound(pages: Pages, children: map<Blk, Child>, lsn: nat, bound: nat, q: Queue, x: Blk)
    requires Links(pages, bound) && RootSplitOk(pages, children) && Found(pages, q, x)
    ensures Found(RootSplit(pages, children, lsn), q, x)
  {
    var n: nat :| Pending(pages, q, x, n);
    RootSplitPending(pages, RootSplit(pages, children, lsn), children, lsn, bound, q, x, n);
  }

  lemma ChildFound(pages: Pages, children: map<Blk, Child>, lsn: nat, bound: nat, q: Queue, ch: Blk)
    requires Links(pages, bound) && RootSplitOk(pages, children) && Found(pages, q, ROOT) && ch in children
    ensures Found(RootSplit(pages, children, lsn), q, ch)
  {
    var pages' := RootSplit(pages, children, lsn);
    var n: nat :| Pending(pages, q, ROOT, n);
    RootSplitPending(pages, pages', children, lsn, bound, q, ROOT, n);
    ReachSelf(pages', FlagOnly, ch);
    assert Holds(pages', ROOT, ch, ch);
    assert Pending(pages', q, ch, n + 2);
  }

  lemma RootSplitGood(o: Order, pages: Pages, children: map<Blk, Child>, lsn: nat, bound: nat, cursors: set<Cursor>)
    requires Good(o, pages, bound, cursors) && RootSplitOk(pages, children) && ChildKeys(o, children) && 1 <= lsn <= bound
    ensures Good(o, RootSplit(pages, children, lsn), bound, cursors)
  {
    var pages' := RootSplit(pages, children, lsn);
    RootSplitLinks(pages, children, lsn, bound, bound);
    RootSplitKeyed(o, pages, children, lsn, bound);
    forall x | x in pages' ensures Found(pages', START, x) {
      if x in children {
        ChildFound(pages, children, lsn, bound, START, x);
      } else {
        RootSplitFound(pages, children, lsn, bound, START, x);
      }
    }
    forall cur | cur in cursors ensures CursorOk(o, pages', cur) { RootSplitCursors(o, pages, children, lsn, cur); }
  }

  lemma RootSplitLocated(pages: Pages, children: map<Blk, Child>, lsn: nat, bound: nat, q: Queue, e: Entry)
    requires Links(pages, bound) && RootSplitOk(pages, children) && Located(pages, q, e)
    ensures Located(RootSplit(pages, children, lsn), q, e)
  {
    var pages' := RootSplit(pages, children, lsn);
    var x :| x in pages && e in pages[x].entries && Found(pages, q, x);
    if x == ROOT {
      var ch :| ch in children && e in children[ch].entries;
      ChildFound(pages, children, lsn, bound, q, ch);
      assert e in pages'[ch].entries;
    } else {
      RootSplitFound(pages, children, lsn, bound, q, x);
      assert e in pages'[x].entries;
    }
  }

  // ---- the second half of a step ----

  lemma OverflowGood(o: Order, pages: Pages, b: Blk, room: Room, lsn: nat, bound: nat, cursors: set<Cursor>)
    requires Good(o, pages, bound, cursors) && b in pages && 1 <= lsn <= bound && RoomOk(o, pages, b, room, lsn)
    ensures Good(o, Overflow(pages, b, room, lsn), bound, cursors)
  {
    match room
    case Fits =>
    case Halves(cuts) => SplitManyGood(o, pages, b, cuts, lsn, bound, cursors);
    case NewRoot(children) => RootSplitGood(o, pages, children, lsn, bound, cursors);
  }

  lemma OverflowLocated(o: Order, pages: Pages, b: Blk, room: Room, lsn: nat, bound: nat, q: Queue, e: Entry)
    requires Links(pages, bound) && b in pages && RoomOk(o, pages, b, room, lsn) && QueueOk(q, bound) && Located(pages, q, e)
    ensures Located(Overflow(pages, b, room, lsn), q, e)
  {
    match room
    case Fits =>
    case Halves(cuts) => SplitManyLocated(pages, b, cuts, lsn, q, bound, e);
    case NewRoot(children) => RootSplitLocated(pages, children, lsn, bound, q, e);
  }

  // ---- why an inserter may change a page ----

  /** A page that passed the inserter's check has nothing above it that does not cover the
      entry. */
  lemma CheckedPage(o: Order, pages: Pages, bound: nat, cur: Cursor, p: Blk, c: Blk)
    requires Links(pages, bound) && CursorOk(o, pages, cur) && Current(pages, cur) && Holds(pages, p, c, cur.blk)
    ensures c == cur.blk && o.leq(cur.e.key, pages[p].downs[c])
  {
    if cur.blk == ROOT {
      RootNotHeld(pages, bound, p, c);
    } else {
      var p0 :| Admits(o, pages, p0, cur.blk, cur.e.key);
      ReachSelf(pages, FlagOnly, cur.blk);
      HeldOnce(pages, bound, p, c, p0, cur.blk, cur.blk);
    }
  }

  lemma InsertGrows(o: Order, pages: Pages, bound: nat, cur: Cursor)
    requires OrderOk(o) && Links(pages, bound) && Keyed(o, pages) && CursorOk(o, pages, cur) && Current(pages, cur)
    ensures Grows(o, pages, cur.blk, pages[cur.blk].entries + {cur.e}, pages[cur.blk].downs)
  {
    var b := cur.blk;
    forall p, c | Holds(pages, p, c, b) ensures Covers(o, pages[p].downs[c], pages[b].(entries := pages[b].entries + {cur.e})) {
      CheckedPage(o, pages, bound, cur, p, c);
      assert HeldCovered(o, pages, p, c, b);
    }
  }

  lemma AdjustGrows(o: Order, pages: Pages, bound: nat, cur: Cursor, c: Blk, k: Key)
    requires OrderOk(o) && Links(pages, bound) && Keyed(o, pages) && CursorOk(o, pages, cur) && Current(pages, cur)
    requires c in pages[cur.blk].downs && Join(o, k, pages[cur.blk].downs[c], cur.e.key)
    ensures Grows(o, pages, cur.blk, pages[cur.blk].entries, pages[cur.blk].downs[c := k])
  {
    var b := cur.blk;
    forall p, h | Holds(pages, p, h, b) ensures Covers(o, pages[p].downs[h], pages[b].(downs := pages[b].downs[c := k])) {
      CheckedPage(o, pages, bound, cur, p, h);
      assert HeldCovered(o, pages, p, h, b);
      AdjustedCovered(o, pages[b], c, k, cur.e.key, pages[p].downs[h]);
    }
    assert pages[b].downs[c := k].Keys == pages[b].downs.Keys;
  }

  /** The enlarged key is the least one, so whatever covered the page and the entry covers
      it. */
  lemma AdjustedCovered(o: Order, p: Page, c: Blk, k: Key, e: Key, m: Key)
    requires Covers(o, m, p) && o.leq(e, m) && c in p.downs && Join(o, k, p.downs[c], e)
    ensures Covers(o, m, p.(downs := p.downs[c := k]))
  {
  }
}
