/** Keys cover what is below them, and a descending inserter's choice of page stays good
    until the page itself says otherwise; every change keeps both. */
module GistKeys {
  import opened GistPages
  import opened GistPlace
  import opened GistLinks

  /** The order in which a key covers another. */
  datatype Order = Order(leq: (Key, Key) -> bool)

  ghost predicate OrderOk(o: Order) {
    && (forall a :: o.leq(a, a))
    && forall a, b, c | o.leq(a, b) && o.leq(b, c) :: o.leq(a, c)
  }

  lemma Through(o: Order, a: Key, b: Key, c: Key)
    requires OrderOk(o) && o.leq(a, b) && o.leq(b, c)
    ensures o.leq(a, c)
  {
  }

  /** Everything on the page is covered by the key. */
  ghost predicate Covers(o: Order, k: Key, p: Page) {
    && (forall e | e in p.entries :: o.leq(e.key, k))
    && forall c | c in p.downs :: o.leq(p.downs[c], k)
  }

  /** The key is the union of what is on the page: it covers it, and is below every key
      that does. */
  ghost predicate UnionOf(o: Order, k: Key, p: Page) { Covers(o, k, p) && forall m | Covers(o, m, p) :: o.leq(k, m) }

  ghost predicate HeldCovered(o: Order, pages: Pages, p: Blk, c: Blk, x: Blk)
    requires Holds(pages, p, c, x)
  {
    x in pages && Covers(o, pages[p].downs[c], pages[x])
  }

  /** A downlink's key covers all pages that belong to the downlink. */
  ghost predicate Keyed(o: Order, pages: Pages) { forall p, c, x | Holds(pages, p, c, x) :: HeldCovered(o, pages, p, c, x) }

  /** A page on the way of an inserter, with the LSN its parent had when it was chosen. */
  datatype Cursor = Cursor(e: Entry, blk: Blk, lsn: nat)

  ghost predicate Admits(o: Order, pages: Pages, p: Blk, c: Blk, k: Key) {
    p in pages && c in pages[p].downs && o.leq(k, pages[p].downs[c])
  }

  /** The page tells the inserter that it was split since, or its downlink still covers the
      entry. */
  ghost predicate CursorOk(o: Order, pages: Pages, cur: Cursor) {
    cur.blk == ROOT || (cur.blk in pages
      && (pages[cur.blk].follow || cur.lsn < pages[cur.blk].nsn || exists p :: Admits(o, pages, p, cur.blk, cur.e.key)))
  }

  ghost predicate CursorsOk(o: Order, pages: Pages, cursors: set<Cursor>) { forall cur | cur in cursors :: CursorOk(o, pages, cur) }

  // ---- rewriting a page ----

  ghost predicate Grows(o: Order, pages: Pages, b: Blk, entries: set<Entry>, downs: map<Blk, Key>)
    requires b in pages
  {
    && downs.Keys == pages[b].downs.Keys
    && (forall c | c in downs :: o.leq(pages[b].downs[c], downs[c]))
    && forall p, c | Holds(pages, p, c, b) :: Covers(o, pages[p].downs[c], pages[b].(entries := entries, downs := downs))
  }

  lemma CoversMore(o: Order, k: Key, m: Key, p: Page)
    requires OrderOk(o) && Covers(o, k, p) && o.leq(k, m)
    ensures Covers(o, m, p)
  {
    forall e | e in p.entries ensures o.leq(e.key, m) { Through(o, e.key, k, m); }
    forall c | c in p.downs ensures o.leq(p.downs[c], m) { Through(o, p.downs[c], k, m); }
  }

  lemma PutKeyed(o: Order, pages: Pages, b: Blk, entries: set<Entry>, downs: map<Blk, Key>, lsn: nat)
    requires OrderOk(o) && Keyed(o, pages) && b in pages && Grows(o, pages, b, entries, downs)
    ensures Keyed(o, Put(pages, b, entries, downs, lsn))
  {
    var pages' := Put(pages, b, entries, downs, lsn);
    forall p, c, x | Holds(pages', p, c, x) ensures HeldCovered(o, pages', p, c, x) {
      assert KeepsLinks(pages', pages);
      ReachKept(pages', pages, FlagOnly, c, x);
      assert Holds(pages, p, c, x) && HeldCovered(o, pages, p, c, x);
      var k, k' := pages[p].downs[c], pages'[p].downs[c];
      assert o.leq(k, k');
      assert Covers(o, k, pages'[x]) by {
        assert pages'[x].entries == (if x == b then entries else pages[x].entries);
        assert pages'[x].downs == (if x == b then downs else pages[x].downs);
      }
      CoversMore(o, k, k', pages'[x]);
    }
  }

  lemma PutCursors(o: Order, pages: Pages, b: Blk, entries: set<Entry>, downs: map<Blk, Key>, lsn: nat, cur: Cursor)
    requires OrderOk(o) && CursorOk(o, pages, cur) && b in pages && Grows(o, pages, b, entries, downs)
    ensures CursorOk(o, Put(pages, b, entries, downs, lsn), cur)
  {
    var pages' := Put(pages, b, entries, downs, lsn);
    if cur.blk != ROOT && !pages[cur.blk].follow && !(cur.lsn < pages[cur.blk].nsn) {
      var p :| Admits(o, pages, p, cur.blk, cur.e.key);
      if p == b { Through(o, cur.e.key, pages[b].downs[cur.blk], downs[cur.blk]); }
      assert Admits(o, pages', p, cur.blk, cur.e.key);
    }
  }

  // ---- splitting ----

  /** What the flags lead to after the split, they led to before, the new page counting as
      the old one. */
  lemma {:induction false} SplitBack(pages: Pages, b: Blk, cut: Cut, lsn: nat, bound: nat, y: Blk, x: Blk, n: nat)
    requires Links(pages, bound) && SplitOk(pages, b, cut) && y in pages
    requires ReachIn(SplitPage(pages, b, cut, lsn), FlagOnly, y, x, n)
    ensures Reach(pages, FlagOnly, y, Before(b, cut, x))
    decreases n
  {
    var pages' := SplitPage(pages, b, cut, lsn);
    if n == 0 || y == b {
      ReachSelf(pages, FlagOnly, y);
    } else {
      var r := pages[y].right;
      assert PageOk(pages, y, bound);
      SplitBack(pages, b, cut, lsn, bound, r, x, n - 1);
      var m: nat :| ReachIn(pages, FlagOnly, r, Before(b, cut, x), m);
      assert ReachIn(pages, FlagOnly, y, Before(b, cut, x), m + 1);
    }
  }

  lemma SplitHeld(o: Order, pages: Pages, b: Blk, cut: Cut, lsn: nat, bound: nat, p: Blk, c: Blk, x: Blk)
    requires Links(pages, bound) && SplitOk(pages, b, cut) && Keyed(o, pages)
    requires Holds(SplitPage(pages, b, cut, lsn), p, c, x)
    ensures HeldCovered(o, SplitPage(pages, b, cut, lsn), p, c, x)
  {
    var pages' := SplitPage(pages, b, cut, lsn);
    SplitDowns(pages, b, cut, lsn, p, c);
    assert PageOk(pages, Before(b, cut, p), bound);
    var n: nat :| ReachIn(pages', FlagOnly, c, x, n);
    SplitBack(pages, b, cut, lsn, bound, c, x, n);
    assert Holds(pages, Before(b, cut, p), c, Before(b, cut, x));
    assert HeldCovered(o, pages, Before(b, cut, p), c, Before(b, cut, x));
    HalfIsCovered(o, pages, b, cut, lsn, pages'[p].downs[c], x);
  }

  lemma HalfIsCovered(o: Order, pages: Pages, b: Blk, cut: Cut, lsn: nat, k: Key, x: Blk)
    requires SplitOk(pages, b, cut) && Before(b, cut, x) in pages && Covers(o, k, pages[Before(b, cut, x)])
    ensures x in SplitPage(pages, b, cut, lsn) && Covers(o, k, SplitPage(pages, b, cut, lsn)[x])
  {
    var p, p' := pages[Before(b, cut, x)], SplitPage(pages, b, cut, lsn)[x];
    assert forall e | e in p'.entries :: e in p.entries;
    assert forall c | c in p'.downs :: c in p.downs && p'.downs[c] == p.downs[c];
  }

  lemma SplitKeyed(o: Order, pages: Pages, b: Blk, cut: Cut, lsn: nat, bound: nat)
    requires Links(pages, bound) && SplitOk(pages, b, cut) && Keyed(o, pages)
    ensures Keyed(o, SplitPage(pages, b, cut, lsn))
  {
    forall p, c, x | Holds(SplitPage(pages, b, cut, lsn), p, c, x) ensures HeldCovered(o, SplitPage(pages, b, cut, lsn), p, c, x) {
      SplitHeld(o, pages, b, cut, lsn, bound, p, c, x);
    }
  }

  lemma SplitCursors(o: Order, pages: Pages, b: Blk, cut: Cut, lsn: nat, cur: Cursor)
    requires CursorOk(o, pages, cur) && SplitOk(pages, b, cut)
    ensures CursorOk(o, SplitPage(pages, b, cut, lsn), cur)
  {
    var pages' := SplitPage(pages, b, cut, lsn);
    if cur.blk != ROOT && cur.blk != b && !pages[cur.blk].follow && !(cur.lsn < pages[cur.blk].nsn) {
      var p :| Admits(o, pages, p, cur.blk, cur.e.key);
      assert Admits(o, pages', if p == b && cur.blk in cut.downs then cut.blk else p, cur.blk, cur.e.key);
    }
  }

  // ---- publishing ----

  /** The keys of the two pages cover them, and lie within the downlink of the whole split. */
  ghost predicate PublishKeys(o: Order, pages: Pages, p: Blk, h: Blk, left: Blk, downs: map<Blk, Key>)
    requires PublishOk(pages, p, h, left, downs)
  {
    var right := pages[left].right;
    && Covers(o, downs[right], pages[right]) && o.leq(downs[right], pages[p].downs[h])
    && (left == h ==> Covers(o, downs[h], pages[h]) && o.leq(downs[h], pages[p].downs[h]))
  }

  lemma {:induction false} PublishBack(pages: Pages, p: Blk, left: Blk, downs: map<Blk, Key>, lsn: nat, y: Blk, x: Blk, n: nat)
    requires p in pages && left in pages && p != left
    requires ReachIn(Publish(pages, p, left, downs, lsn), FlagOnly, y, x, n)
    ensures ReachIn(pages, FlagOnly, y, x, n) && (y == left ==> x == left)
    ensures y in pages && !pages[y].follow ==> x == y
    decreases n
  {
    if n > 0 {
      PublishBack(pages, p, left, downs, lsn, pages[y].right, x, n - 1);
    }
  }

  /** The parent's content after the publication stays covered by whatever covered it. */
  lemma ParentStillCovered(o: Order, pages: Pages, p: Blk, h: Blk, left: Blk, downs: map<Blk, Key>, k: Key, page': Page)
    requires OrderOk(o) && PublishOk(pages, p, h, left, downs) && PublishKeys(o, pages, p, h, left, downs)
    requires Covers(o, k, pages[p]) && page'.entries == pages[p].entries && page'.downs == downs
    ensures Covers(o, k, page')
  {
    assert o.leq(pages[p].downs[h], k);
    forall c | c in downs ensures o.leq(downs[c], k) {
      if c == pages[left].right || (c == h && left == h) {
        Through(o, downs[c], pages[p].downs[h], k);
      } else {
        assert c in pages[p].downs;
      }
    }
  }

  lemma PublishedCovered(o: Order, pages: Pages, pages': Pages, p: Blk, h: Blk, left: Blk, downs: map<Blk, Key>, lsn: nat, k: Key, x: Blk)
    requires OrderOk(o) && PublishOk(pages, p, h, left, downs) && PublishKeys(o, pages, p, h, left, downs)
    requires pages' == Publish(pages, p, left, downs, lsn) && x in pages && Covers(o, k, pages[x])
    ensures x in pages' && Covers(o, k, pages'[x])
  {
    if x == p {
      ParentStillCovered(o, pages, p, h, left, downs, k, pages'[x]);
    } else {
      assert pages'[x].entries == pages[x].entries && pages'[x].downs == pages[x].downs;
    }
  }

  /** Where a downlink and its key come from. */
  lemma PublishDowns(pages: Pages, pages': Pages, p: Blk, h: Blk, left: Blk, downs: map<Blk, Key>, lsn: nat, p0: Blk, c: Blk)
    requires PublishOk(pages, p, h, left, downs) && pages' == Publish(pages, p, left, downs, lsn)
    requires p0 in pages' && c in pages'[p0].downs
    ensures p0 in pages
    ensures pages'[p0].downs[c] == if p0 == p then downs[c] else pages[p0].downs[c]
    ensures c in pages[p0].downs || (p0 == p && c == pages[left].right)
  {
  }

  lemma OldHeld(o: Order, pages: Pages, pages': Pages, p: Blk, h: Blk, left: Blk, downs: map<Blk, Key>, lsn: nat,
                p0: Blk, c: Blk, x: Blk, n: nat)
    requires OrderOk(o) && Keyed(o, pages) && PublishOk(pages, p, h, left, downs) && PublishKeys(o, pages, p, h, left, downs)
    requires pages' == Publish(pages, p, left, downs, lsn) && Holds(pages', p0, c, x) && c in pages[p0].downs
    requires ReachIn(pages, FlagOnly, c, x, n) && (c == left ==> x == left) && pages[left].right !in pages[p].downs
    ensures HeldCovered(o, pages', p0, c, x)
  {
    PublishDowns(pages, pages', p, h, left, downs, lsn, p0, c);
    assert Holds(pages, p0, c, x) && HeldCovered(o, pages, p0, c, x);
    if p0 == p && c == h && left == h {
      PublishedCovered(o, pages, pages', p, h, left, downs, lsn, downs[h], h);
    } else {
      PublishedCovered(o, pages, pages', p, h, left, downs, lsn, pages[p0].downs[c], x);
    }
  }

  lemma PublishHeld(o: Order, pages: Pages, pages': Pages, p: Blk, h: Blk, left: Blk, downs: map<Blk, Key>, lsn: nat, bound: nat,
                    p0: Blk, c: Blk, x: Blk)
    requires OrderOk(o) && Links(pages, bound) && Keyed(o, pages)
    requires PublishOk(pages, p, h, left, downs) && PublishKeys(o, pages, p, h, left, downs)
    requires pages' == Publish(pages, p, left, downs, lsn) && Holds(pages', p0, c, x)
    ensures HeldCovered(o, pages', p0, c, x)
  {
    var right := pages[left].right;
    var n: nat :| ReachIn(pages', FlagOnly, c, x, n);
    PublishBack(pages, p, left, downs, lsn, c, x, n);
    PublishDowns(pages, pages', p, h, left, downs, lsn, p0, c);
    NotPublished(pages, left, p);
    if c in pages[p0].downs {
      OldHeld(o, pages, pages', p, h, left, downs, lsn, p0, c, x, n);
    } else {
      PublishedCovered(o, pages, pages', p, h, left, downs, lsn, downs[right], right);
    }
  }

  lemma PublishKeyed(o: Order, pages: Pages, p: Blk, h: Blk, left: Blk, downs: map<Blk, Key>, lsn: nat, bound: nat)
    requires OrderOk(o) && Links(pages, bound) && Keyed(o, pages)
    requires PublishOk(pages, p, h, left, downs) && PublishKeys(o, pages, p, h, left, downs)
    ensures Keyed(o, Publish(pages, p, left, downs, lsn))
  {
    var pages' := Publish(pages, p, left, downs, lsn);
    forall p0, c, x | Holds(pages', p0, c, x) ensures HeldCovered(o, pages', p0, c, x) {
      PublishHeld(o, pages, pages', p, h, left, downs, lsn, bound, p0, c, x);
    }
  }

  lemma PublishCursors(o: Order, pages: Pages, p: Blk, h: Blk, left: Blk, downs: map<Blk, Key>, lsn: nat, cur: Cursor)
    requires PublishOk(pages, p, h, left, downs) && CursorOk(o, pages, cur) && cur.lsn < lsn
    ensures CursorOk(o, Publish(pages, p, left, downs, lsn), cur)
  {
    var pages' := Publish(pages, p, left, downs, lsn);
    if cur.blk != ROOT && cur.blk != left && !pages[cur.blk].follow && !(cur.lsn < pages[cur.blk].nsn) {
      var p0 :| Admits(o, pages, p0, cur.blk, cur.e.key);
      assert Admits(o, pages', p0, cur.blk, cur.e.key);
    }
  }

  // ---- splitting the root ----

  ghost predicate ChildKeys(o: Order, children: map<Blk, Child>) {
    forall ch | ch in children ::
      && (forall e | e in children[ch].entries :: o.leq(e.key, children[ch].key))
      && forall c | c in children[ch].downs :: o.leq(children[ch].downs[c], children[ch].key)
  }

  /** Below the root, the flags lead to the same old pages as before. */
  lemma {:induction false} RootSplitBack(pages: Pages, children: map<Blk, Child>, lsn: nat, bound: nat, y: Blk, x: Blk, n: nat)
    requires Links(pages, bound) && RootSplitOk(pages, children) && y in pages && y != ROOT
    requires ReachIn(RootSplit(pages, children, lsn), FlagOnly, y, x, n)
    ensures x in pages && x != ROOT && Reach(pages, FlagOnly, y, x)
    decreases n
  {
    if n == 0 {
      ReachSelf(pages, FlagOnly, y);
    } else {
      var r := pages[y].right;
      assert PageOk(pages, y, bound);
      RootSplitBack(pages, children, lsn, bound, r, x, n - 1);
      var m: nat :| ReachIn(pages, FlagOnly, r, x, m);
      assert ReachIn(pages, FlagOnly, y, x, m + 1);
    }
  }

  lemma RootSplitHeld(o: Order, pages: Pages, children: map<Blk, Child>, lsn: nat, bound: nat, p: Blk, c: Blk, x: Blk)
    requires Links(pages, bound) && RootSplitOk(pages, children) && Keyed(o, pages) && ChildKeys(o, children)
    requires Holds(RootSplit(pages, children, lsn), p, c, x)
    ensures HeldCovered(o, RootSplit(pages, children, lsn), p, c, x)
  {
    var pages' := RootSplit(pages, children, lsn);
    var n: nat :| ReachIn(pages', FlagOnly, c, x, n);
    RootSplitDowns(pages, children, lsn, p, c);
    if p == ROOT {
      assert !pages'[c].follow && x == c;
    } else {
      var y := if p in children then ROOT else p;
      assert PageOk(pages, y, bound);
      RootSplitBack(pages, children, lsn, bound, c, x, n);
      assert Holds(pages, y, c, x) && HeldCovered(o, pages, y, c, x);
      assert pages'[x] == pages[x];
    }
  }

  lemma RootSplitKeyed(o: Order, pages: Pages, children: map<Blk, Child>, lsn: nat, bound: nat)
    requires Links(pages, bound) && RootSplitOk(pages, children) && Keyed(o, pages) && ChildKeys(o, children)
    ensures Keyed(o, RootSplit(pages, children, lsn))
  {
    forall p, c, x | Holds(RootSplit(pages, children, lsn), p, c, x) ensures HeldCovered(o, RootSplit(pages, children, lsn), p, c, x) {
      RootSplitHeld(o, pages, children, lsn, bound, p, c, x);
    }
  }

  lemma RootSplitCursors(o: Order, pages: Pages, children: map<Blk, Child>, lsn: nat, cur: Cursor)
    requires RootSplitOk(pages, children) && CursorOk(o, pages, cur)
    ensures CursorOk(o, RootSplit(pages, children, lsn), cur)
  {
    var pages' := RootSplit(pages, children, lsn);
    if cur.blk != ROOT && !pages[cur.blk].follow && !(cur.lsn < pages[cur.blk].nsn) {
      var p :| Admits(o, pages, p, cur.blk, cur.e.key);
      if p == ROOT {
        var ch :| ch in children && cur.blk in children[ch].downs;
        assert Admits(o, pages', ch, cur.blk, cur.e.key);
      } else {
        assert Admits(o, pages', p, cur.blk, cur.e.key);
      }
    }
  }
}
