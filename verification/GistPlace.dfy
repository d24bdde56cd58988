/** What placing tuples on a page does to the index: the page is rewritten, a full page is
    split and its halves chained by flagged right links, a full root gets children, and
    inserting a downlink publishes the page it points to. Each of these keeps every page
    that a scan was going to visit within the scan's reach. */
module GistPlace {
  import opened GistPages

  /** The content of a page is replaced; its links stay. */
  function Put(pages: Pages, b: Blk, entries: set<Entry>, downs: map<Blk, Key>, lsn: nat): Pages
    requires b in pages
  {
    pages[b := pages[b].(entries := entries, downs := downs, lsn := lsn)]
  }

  /** What goes to a new right half, and the block allocated for it. */
  datatype Cut = Cut(blk: Blk, entries: set<Entry>, downs: set<Blk>)

  function Restrict(downs: map<Blk, Key>, blks: set<Blk>): map<Blk, Key> { map c | c in downs && c in blks :: downs[c] }

  /** The left half gets the flag; the right half takes over the old right link, and both
      have the old sequence number. */
  function SplitPage(pages: Pages, b: Blk, cut: Cut, lsn: nat): Pages
    requires b in pages
  {
    var p := pages[b];
    var left := p.(entries := p.entries - cut.entries, downs := p.downs - cut.downs, right := cut.blk, follow := true, lsn := lsn);
    var right := Page(p.leaf, p.entries * cut.entries, Restrict(p.downs, cut.downs), p.right, p.nsn, false, lsn);
    pages[b := left][cut.blk := right]
  }

  ghost predicate SplitOk(pages: Pages, b: Blk, cut: Cut) {
    b in pages && b != ROOT && !pages[b].follow && cut.blk !in pages && cut.blk != NONE
  }

  /** A split into several pages: the rightmost is cut again and again. */
  function SplitMany(pages: Pages, b: Blk, cuts: seq<Cut>, lsn: nat): Pages
    requires b in pages
    decreases |cuts|
  {
    if cuts == [] then pages else SplitMany(SplitPage(pages, b, cuts[0], lsn), cuts[0].blk, cuts[1..], lsn)
  }

  ghost predicate SplitsOk(pages: Pages, b: Blk, cuts: seq<Cut>, lsn: nat)
    requires b in pages
    decreases |cuts|
  {
    cuts == [] || (SplitOk(pages, b, cuts[0]) && SplitsOk(SplitPage(pages, b, cuts[0], lsn), cuts[0].blk, cuts[1..], lsn))
  }

  /** The parent gets new downlinks; the left child loses its flag and gets the LSN of the
      change as sequence number. */
  function Publish(pages: Pages, p: Blk, left: Blk, downs: map<Blk, Key>, lsn: nat): Pages
    requires p in pages && left in pages
  {
    var pages1 := Put(pages, p, pages[p].entries, downs, lsn);
    pages1[left := pages1[left].(follow := false, nsn := lsn, lsn := lsn)]
  }

  /** The page to the right of `left` is the last of its split, and the downlink of the
      whole split is on page `p`. The last publication also replaces that downlink. */
  ghost predicate PublishOk(pages: Pages, p: Blk, h: Blk, left: Blk, downs: map<Blk, Key>) {
    && Holds(pages, p, h, left) && !pages[p].follow && left in pages && pages[left].follow
    && pages[left].right in pages && !pages[pages[left].right].follow
    && downs.Keys == pages[p].downs.Keys + {pages[left].right}
    && forall c | c in pages[p].downs && (c != h || left != h) :: downs[c] == pages[p].downs[c]
  }

  /** A page made by a root split: its part of the root, its downlink key, its neighbour. */
  datatype Child = Child(entries: set<Entry>, downs: map<Blk, Key>, key: Key, right: Blk)

  function RootSplit(pages: Pages, children: map<Blk, Child>, lsn: nat): Pages
    requires ROOT in pages
  {
    map x | x in pages.Keys + children.Keys ::
      if x in children then Page(pages[ROOT].leaf, children[x].entries, children[x].downs, children[x].right, 0, false, lsn)
      else if x == ROOT then Page(false, {}, map c | c in children :: children[c].key, NONE, 0, false, lsn)
      else pages[x]
  }

  /** The children are a new chain of pages that together hold the root's old content. */
  ghost predicate RootSplitOk(pages: Pages, children: map<Blk, Child>) {
    && ROOT in pages && children.Keys !! pages.Keys && NONE !in children
    && (forall x | x in children :: children[x].right == NONE || children[x].right in children)
    && (forall x | x in children :: children[x].entries <= pages[ROOT].entries)
    && (forall e | e in pages[ROOT].entries :: exists x :: x in children && e in children[x].entries)
    && (forall x, y | x in children && y in children && x != y :: children[x].entries !! children[y].entries)
    && (forall x, c | x in children && c in children[x].downs :: c in pages[ROOT].downs && children[x].downs[c] == pages[ROOT].downs[c])
    && (forall c | c in pages[ROOT].downs :: exists x :: x in children && c in children[x].downs)
    && (forall x, y, c | x in children && y in children && c in children[x].downs && c in children[y].downs :: x == y)
  }

  // ---- rewriting a page ----

  ghost predicate KeepsLinks(pages: Pages, pages': Pages) {
    forall x | x in pages ::
      && x in pages' && pages'[x].right == pages[x].right
      && (pages[x].right != NONE ==> pages'[x].nsn == pages[x].nsn && pages'[x].follow == pages[x].follow)
  }

  lemma {:induction false} ReachInKept(pages: Pages, pages': Pages, g: Grounds, y: Blk, x: Blk, n: nat)
    requires KeepsLinks(pages, pages') && ReachIn(pages, g, y, x, n)
    ensures ReachIn(pages', g, y, x, n)
    decreases n
  {
    if n > 0 {
      ReachInKept(pages, pages', g, pages[y].right, x, n - 1);
    }
  }

  lemma ReachKept(pages: Pages, pages': Pages, g: Grounds, y: Blk, x: Blk)
    requires KeepsLinks(pages, pages') && Reach(pages, g, y, x)
    ensures Reach(pages', g, y, x)
  {
    var n: nat :| ReachIn(pages, g, y, x, n);
    ReachInKept(pages, pages', g, y, x, n);
  }

  lemma {:induction false} PutPending(pages: Pages, b: Blk, entries: set<Entry>, downs: map<Blk, Key>, lsn: nat, q: Queue, x: Blk, n: nat)
    requires b in pages && pages[b].downs.Keys <= downs.Keys && Pending(pages, q, x, n)
    ensures Pending(Put(pages, b, entries, downs, lsn), q, x, n)
    decreases n
  {
    var pages' := Put(pages, b, entries, downs, lsn);
    assert KeepsLinks(pages, pages');
    if Covered(pages, q, x) {
      var it :| it in q && Reach(pages, ParentLsn(it.lsn), it.blk, x);
      ReachKept(pages, pages', ParentLsn(it.lsn), it.blk, x);
    } else {
      var p, c :| Holds(pages, p, c, x) && Pending(pages, q, p, n - 1);
      ReachKept(pages, pages', FlagOnly, c, x);
      PutPending(pages, b, entries, downs, lsn, q, p, n - 1);
      assert Holds(pages', p, c, x);
    }
  }

  // ---- splitting ----

  /** Every step to the right can still be made, by way of the new page if need be. */
  lemma {:induction false} SplitReachIn(pages: Pages, pages': Pages, b: Blk, cut: Cut, lsn: nat, g: Grounds, y: Blk, x: Blk, n: nat)
    requires SplitOk(pages, b, cut) && pages' == SplitPage(pages, b, cut, lsn) && ReachIn(pages, g, y, x, n)
    ensures Reach(pages', g, y, x)
    decreases n
  {
    if n == 0 {
      ReachSelf(pages', g, x);
    } else {
      var r := pages[y].right;
      SplitReachIn(pages, pages', b, cut, lsn, g, r, x, n - 1);
      var m: nat :| ReachIn(pages', g, r, x, m);
      if y == b {
        assert ReachIn(pages', g, cut.blk, x, m + 1);
        assert ReachIn(pages', g, b, x, m + 2);
      } else {
        assert ReachIn(pages', g, y, x, m + 1);
      }
    }
  }

  lemma SplitReach(pages: Pages, pages': Pages, b: Blk, cut: Cut, lsn: nat, g: Grounds, y: Blk, x: Blk)
    requires SplitOk(pages, b, cut) && pages' == SplitPage(pages, b, cut, lsn) && Reach(pages, g, y, x)
    ensures Reach(pages', g, y, x)
    ensures x == b && g != ParentLsn(0) ==> Reach(pages', g, y, cut.blk)
  {
    var n: nat :| ReachIn(pages, g, y, x, n);
    SplitReachIn(pages, pages', b, cut, lsn, g, y, x, n);
    if x == b && g != ParentLsn(0) {
      ReachOneMore(pages', g, y, b);
    }
  }

  /** Only the root is visited without a parent LSN. */
  ghost predicate QueueOk(q: Queue, bound: nat) { forall it | it in q :: it.lsn <= bound && (it.lsn == 0 ==> it.blk == ROOT) }

  lemma AtRootOnly(pages: Pages, x: Blk)
    requires Reach(pages, ParentLsn(0), ROOT, x)
    ensures x == ROOT
  {
    var n: nat :| ReachIn(pages, ParentLsn(0), ROOT, x, n);
  }

  lemma SplitCovered(pages: Pages, pages': Pages, b: Blk, cut: Cut, lsn: nat, q: Queue, bound: nat, x: Blk)
    requires SplitOk(pages, b, cut) && pages' == SplitPage(pages, b, cut, lsn) && QueueOk(q, bound) && Covered(pages, q, x)
    ensures Covered(pages', q, x) && (x == b ==> Covered(pages', q, cut.blk))
  {
    var it :| it in q && Reach(pages, ParentLsn(it.lsn), it.blk, x);
    if it.lsn == 0 { AtRootOnly(pages, x); }
    SplitReach(pages, pages', b, cut, lsn, ParentLsn(it.lsn), it.blk, x);
  }

  lemma SplitHolds(pages: Pages, pages': Pages, b: Blk, cut: Cut, lsn: nat, p: Blk, c: Blk, x: Blk)
    requires SplitOk(pages, b, cut) && pages' == SplitPage(pages, b, cut, lsn) && Holds(pages, p, c, x)
    ensures var p' := if p == b && c in cut.downs then cut.blk else p;
      Holds(pages', p', c, x) && (x == b ==> Holds(pages', p', c, cut.blk))
  {
    SplitReach(pages, pages', b, cut, lsn, FlagOnly, c, x);
  }

  lemma {:induction false} SplitPending(pages: Pages, pages': Pages, b: Blk, cut: Cut, lsn: nat, q: Queue, bound: nat, x: Blk, n: nat)
    requires SplitOk(pages, b, cut) && pages' == SplitPage(pages, b, cut, lsn) && QueueOk(q, bound) && Pending(pages, q, x, n)
    ensures Pending(pages', q, x, n) && (x == b ==> Pending(pages', q, cut.blk, n))
    decreases n
  {
    if Covered(pages, q, x) {
      SplitCovered(pages, pages', b, cut, lsn, q, bound, x);
    } else {
      var p, c :| Holds(pages, p, c, x) && Pending(pages, q, p, n - 1);
      SplitPending(pages, pages', b, cut, lsn, q, bound, p, n - 1);
      SplitHolds(pages, pages', b, cut, lsn, p, c, x);
      var p' := if p == b && c in cut.downs then cut.blk else p;
      assert Pending(pages', q, p', n - 1);
    }
  }

  // ---- publishing ----

  /** A reader that came before the publication still goes right, now because of the
      sequence number. */
  lemma {:induction false} PublishReachIn(pages: Pages, pages': Pages, p: Blk, left: Blk, downs: map<Blk, Key>, lsn: nat, l: nat,
                                          y: Blk, x: Blk, n: nat)
    requires p in pages && left in pages && p != left && pages' == Publish(pages, p, left, downs, lsn)
    requires pages[left].nsn <= lsn && l < lsn && ReachIn(pages, ParentLsn(l), y, x, n)
    ensures ReachIn(pages', ParentLsn(l), y, x, n)
    decreases n
  {
    if n > 0 {
      PublishReachIn(pages, pages', p, left, downs, lsn, l, pages[y].right, x, n - 1);
    }
  }

  /** By the flags, only the published page has become out of reach. */
  lemma {:induction false} PublishFlags(pages: Pages, pages': Pages, p: Blk, left: Blk, downs: map<Blk, Key>, lsn: nat,
                                        y: Blk, x: Blk, n: nat)
    requires p in pages && left in pages && p != left && pages' == Publish(pages, p, left, downs, lsn)
    requires pages[left].right in pages && !pages[pages[left].right].follow && ReachIn(pages, FlagOnly, y, x, n)
    ensures ReachIn(pages', FlagOnly, y, x, n) || (x == pages[left].right && Reach(pages, FlagOnly, y, left))
    decreases n
  {
    if n > 0 {
      var r := pages[y].right;
      if y == left {
        ReachSelf(pages, FlagOnly, left);
      } else {
        PublishFlags(pages, pages', p, left, downs, lsn, r, x, n - 1);
        if !ReachIn(pages', FlagOnly, r, x, n - 1) {
          var m: nat :| ReachIn(pages, FlagOnly, r, left, m);
          assert ReachIn(pages, FlagOnly, y, left, m + 1);
        }
      }
    }
  }

  lemma PublishedHeld(pages: Pages, pages': Pages, p: Blk, left: Blk, downs: map<Blk, Key>, lsn: nat, x: Blk)
    requires p in pages && left in pages && p != left && x in pages && x in downs
    requires pages' == Publish(pages, p, left, downs, lsn)
    ensures Holds(pages', p, x, x)
  {
    ReachSelf(pages', FlagOnly, x);
  }

  lemma StillHeld(pages: Pages, pages': Pages, p: Blk, left: Blk, downs: map<Blk, Key>, lsn: nat, p0: Blk, c: Blk, x: Blk)
    requires p in pages && left in pages && p != left && pages[p].downs.Keys <= downs.Keys
    requires pages' == Publish(pages, p, left, downs, lsn)
    requires Holds(pages, p0, c, x) && Reach(pages', FlagOnly, c, x)
    ensures Holds(pages', p0, c, x)
  {
  }

  lemma PublishHolds(pages: Pages, pages': Pages, p: Blk, h: Blk, left: Blk, downs: map<Blk, Key>, lsn: nat, bound: nat,
                     p0: Blk, c: Blk, x: Blk)
    requires Links(pages, bound) && PublishOk(pages, p, h, left, downs) && pages' == Publish(pages, p, left, downs, lsn)
    requires Holds(pages, p0, c, x)
    ensures Holds(pages', p0, c, x) || (p0 == p && x == pages[left].right && Holds(pages', p, x, x))
  {
    var n: nat :| ReachIn(pages, FlagOnly, c, x, n);
    PublishFlags(pages, pages', p, left, downs, lsn, c, x, n);
    if ReachIn(pages', FlagOnly, c, x, n) {
      StillHeld(pages, pages', p, left, downs, lsn, p0, c, x);
    } else {
      HeldOnce(pages, bound, p, h, p0, c, left);
      PublishedHeld(pages, pages', p, left, downs, lsn, x);
    }
  }

  lemma {:induction false} PublishPending(pages: Pages, pages': Pages, p: Blk, h: Blk, left: Blk, downs: map<Blk, Key>, lsn: nat,
                                          bound: nat, q: Queue, x: Blk, n: nat)
    requires Links(pages, bound) && PublishOk(pages, p, h, left, downs) && pages' == Publish(pages, p, left, downs, lsn)
    requires pages[left].nsn <= lsn && (forall it | it in q :: it.lsn < lsn) && Pending(pages, q, x, n)
    ensures Pending(pages', q, x, n)
    decreases n
  {
    if Covered(pages, q, x) {
      var it :| it in q && Reach(pages, ParentLsn(it.lsn), it.blk, x);
      var m: nat :| ReachIn(pages, ParentLsn(it.lsn), it.blk, x, m);
      PublishReachIn(pages, pages', p, left, downs, lsn, it.lsn, it.blk, x, m);
    } else {
      var p0, c :| Holds(pages, p0, c, x) && Pending(pages, q, p0, n - 1);
      PublishPending(pages, pages', p, h, left, downs, lsn, bound, q, p0, n - 1);
      PublishHolds(pages, pages', p, h, left, downs, lsn, bound, p0, c, x);
    }
  }

  // ---- splitting the root ----

  lemma RootSplitKeeps(pages: Pages, pages': Pages, children: map<Blk, Child>, lsn: nat)
    requires RootSplitOk(pages, children) && pages[ROOT].right == NONE && pages' == RootSplit(pages, children, lsn)
    ensures KeepsLinks(pages, pages')
    ensures forall x | x in pages && x != ROOT :: x in pages' && pages'[x] == pages[x]
    ensures forall ch | ch in children :: ch in pages' && pages'[ch].downs == children[ch].downs
    ensures ROOT in pages' && pages'[ROOT].downs.Keys == children.Keys
  {
  }

  lemma KeptCovered(pages: Pages, pages': Pages, q: Queue, x: Blk)
    requires KeepsLinks(pages, pages') && Covered(pages, q, x)
    ensures Covered(pages', q, x)
  {
    var it :| it in q && Reach(pages, ParentLsn(it.lsn), it.blk, x);
    ReachKept(pages, pages', ParentLsn(it.lsn), it.blk, x);
  }

  ghost predicate HasChild(pages': Pages, ch: Blk, c: Blk, x: Blk) { Holds(pages', ch, c, x) && Holds(pages', ROOT, ch, ch) }

  /** What the root held is held by children of the root; the rest is held as before. */
  ghost predicate Rehung(pages: Pages, pages': Pages, p: Blk, c: Blk, x: Blk) {
    if p == ROOT then exists ch :: HasChild(pages', ch, c, x) else Holds(pages', p, c, x)
  }

  lemma RootSplitRehangs(pages: Pages, pages': Pages, children: map<Blk, Child>, lsn: nat, p: Blk, c: Blk, x: Blk)
    requires RootSplitOk(pages, children) && pages[ROOT].right == NONE && pages' == RootSplit(pages, children, lsn)
    requires Holds(pages, p, c, x)
    ensures Rehung(pages, pages', p, c, x)
  {
    RootSplitKeeps(pages, pages', children, lsn);
    ReachKept(pages, pages', FlagOnly, c, x);
    if p == ROOT {
      var ch :| ch in children && c in children[ch].downs;
      ReachSelf(pages', FlagOnly, ch);
      assert HasChild(pages', ch, c, x);
    }
  }

  lemma {:induction false} RehungPending(pages: Pages, pages': Pages, q: Queue, x: Blk, n: nat)
    requires KeepsLinks(pages, pages') && (forall p, c :: !Holds(pages, p, c, ROOT)) && ROOT in pages
    requires forall p, c, y | Holds(pages, p, c, y) :: Rehung(pages, pages', p, c, y)
    requires Pending(pages, q, x, n)
    ensures Pending(pages', q, x, n + 1)
    decreases n
  {
    if Covered(pages, q, x) {
      KeptCovered(pages, pages', q, x);
    } else {
      var p, c :| Holds(pages, p, c, x) && Pending(pages, q, p, n - 1);
      assert Rehung(pages, pages', p, c, x);
      if p == ROOT {
        assert Covered(pages, q, ROOT);
        KeptCovered(pages, pages', q, ROOT);
        var ch :| HasChild(pages', ch, c, x);
        assert Pending(pages', q, ROOT, n - 1);
        assert Pending(pages', q, ch, n);
      } else {
        RehungPending(pages, pages', q, p, n - 1);
      }
    }
  }

  /** What was below the root is now one level further down. */
  lemma RootSplitPending(pages: Pages, pages': Pages, children: map<Blk, Child>, lsn: nat, bound: nat, q: Queue, x: Blk, n: nat)
    requires Links(pages, bound) && RootSplitOk(pages, children) && pages' == RootSplit(pages, children, lsn)
    requires Pending(pages, q, x, n)
    ensures Pending(pages', q, x, n + 1)
  {
    RootSplitKeeps(pages, pages', children, lsn);
    forall p, c ensures !Holds(pages, p, c, ROOT) {
      RootNotHeld(pages, bound, p, c);
    }
    forall p, c, y | Holds(pages, p, c, y) ensures Rehung(pages, pages', p, c, y) {
      RootSplitRehangs(pages, pages', children, lsn, p, c, y);
    }
    RehungPending(pages, pages', q, x, n);
  }
}
