/** Index pages linked by downlinks and right links, and what can be reached from where. */
module GistPages {

  type Blk = nat

  const ROOT: Blk := 0

  const NONE: Blk := 0xFFFF_FFFF

  /** Keys are known by their order only: a key is below another if the other covers it. */
  type Key = nat

  datatype Entry = Entry(tid: nat, key: Key)

  /** A page as a reader sees it. A leaf holds entries; an inner page holds downlinks. */
  datatype Page = Page(leaf: bool, entries: set<Entry>, downs: map<Blk, Key>, right: Blk, nsn: nat, follow: bool, lsn: nat)

  type Pages = map<Blk, Page>

  /** On what grounds a right link is followed: by a reader that came from a parent with
      this LSN, or only because the page's flag says so. */
  datatype Grounds = ParentLsn(lsn: nat) | FlagOnly

  predicate Hop(p: Page, g: Grounds) {
    p.right != NONE &&
    match g
    case ParentLsn(l) => l != 0 && (p.follow || l < p.nsn)
    case FlagOnly => p.follow
  }

  ghost predicate ReachIn(pages: Pages, g: Grounds, y: Blk, x: Blk, n: nat)
    decreases n
  {
    y in pages && if n == 0 then y == x else Hop(pages[y], g) && ReachIn(pages, g, pages[y].right, x, n - 1)
  }

  /** Page `x` is `y` or one of those to the right that a reader of `y` goes on to. */
  ghost predicate Reach(pages: Pages, g: Grounds, y: Blk, x: Blk) { exists n: nat :: ReachIn(pages, g, y, x, n) }

  /** Page `p` has the downlink `c` from which `x` is reached by flags alone. */
  ghost predicate Holds(pages: Pages, p: Blk, c: Blk, x: Blk) {
    p in pages && c in pages[p].downs && Reach(pages, FlagOnly, c, x)
  }

  /** A page still to be visited by a scan, with the LSN its parent had when read. */
  datatype Item = Item(blk: Blk, lsn: nat)

  type Queue = multiset<Item>

  const START: Queue := multiset{Item(ROOT, 0)}

  ghost predicate Covered(pages: Pages, q: Queue, x: Blk) {
    exists it :: it in q && Reach(pages, ParentLsn(it.lsn), it.blk, x)
  }

  /** The scan will come to `x`: from the queue directly, or through a page it will come to,
      at most `n` levels up. */
  ghost predicate Pending(pages: Pages, q: Queue, x: Blk, n: nat)
    decreases n
  {
    x in pages && (Covered(pages, q, x) || (n > 0 && exists p, c :: Holds(pages, p, c, x) && Pending(pages, q, p, n - 1)))
  }

  // ---- reaching ----

  lemma ReachSelf(pages: Pages, g: Grounds, x: Blk)
    requires x in pages
    ensures Reach(pages, g, x, x)
  {
    assert ReachIn(pages, g, x, x, 0);
  }

  lemma {:induction false} ReachInSnoc(pages: Pages, g: Grounds, y: Blk, x: Blk, n: nat)
    requires ReachIn(pages, g, y, x, n) && x in pages && Hop(pages[x], g) && pages[x].right in pages
    ensures ReachIn(pages, g, y, pages[x].right, n + 1)
    decreases n
  {
    if n == 0 {
      assert ReachIn(pages, g, pages[x].right, pages[x].right, 0);
    } else {
      ReachInSnoc(pages, g, pages[y].right, x, n - 1);
    }
  }

  lemma ReachOneMore(pages: Pages, g: Grounds, y: Blk, x: Blk)
    requires Reach(pages, g, y, x) && x in pages && Hop(pages[x], g) && pages[x].right in pages
    ensures Reach(pages, g, y, pages[x].right)
  {
    var n: nat :| ReachIn(pages, g, y, x, n);
    ReachInSnoc(pages, g, y, x, n);
  }

  lemma {:induction false} LastHop(pages: Pages, g: Grounds, y: Blk, x: Blk, n: nat) returns (z: Blk)
    requires ReachIn(pages, g, y, x, n) && n > 0
    ensures ReachIn(pages, g, y, z, n - 1) && z in pages && Hop(pages[z], g) && pages[z].right == x
    decreases n
  {
    if n == 1 {
      z := y;
    } else {
      z := LastHop(pages, g, pages[y].right, x, n - 1);
    }
  }

  /** What the flags alone lead to, any reader but one at the root is led to. */
  lemma {:induction false} FlagReaches(pages: Pages, y: Blk, x: Blk, n: nat, l: nat)
    requires ReachIn(pages, FlagOnly, y, x, n) && l != 0
    ensures ReachIn(pages, ParentLsn(l), y, x, n)
    decreases n
  {
    if n > 0 {
      FlagReaches(pages, pages[y].right, x, n - 1, l);
    }
  }

  // ---- the shape of the links ----

  ghost predicate PageOk(pages: Pages, x: Blk, bound: nat)
    requires x in pages
  {
    var p := pages[x];
    && 1 <= p.lsn <= bound && p.nsn <= bound
    && (p.right == NONE || (p.right in pages && p.right != ROOT)) && (p.follow ==> p.right != NONE)
    && (if p.leaf then p.downs == map[] else p.entries == {})
    && forall c | c in p.downs :: c in pages && c != ROOT
  }

  ghost predicate OneParent(pages: Pages) {
    forall p, q, c | p in pages && q in pages && c in pages[p].downs && c in pages[q].downs :: p == q
  }

  ghost predicate OneLeft(pages: Pages) {
    forall p, q | p in pages && q in pages && pages[p].follow && pages[q].follow && pages[p].right == pages[q].right :: p == q
  }

  /** The right neighbour of a flagged page has no downlink yet. */
  ghost predicate Unpublished(pages: Pages) {
    forall p, q | p in pages && q in pages && pages[p].follow :: pages[p].right !in pages[q].downs
  }

  ghost predicate Links(pages: Pages, bound: nat) {
    && ROOT in pages && NONE !in pages && pages[ROOT].right == NONE && !pages[ROOT].follow
    && (forall x {:trigger PageOk(pages, x, bound)} | x in pages :: PageOk(pages, x, bound))
    && OneParent(pages) && OneLeft(pages) && Unpublished(pages)
  }

  lemma SameLeft(pages: Pages, y: Blk, z: Blk)
    requires OneLeft(pages) && y in pages && z in pages && pages[y].follow && pages[z].follow && pages[y].right == pages[z].right
    ensures y == z
  {
  }

  lemma NotPublished(pages: Pages, y: Blk, q: Blk)
    requires Unpublished(pages) && y in pages && pages[y].follow && q in pages
    ensures pages[y].right !in pages[q].downs
  {
  }

  /** Every page belongs to one downlink. */
  lemma {:induction false} HeadIsUnique(pages: Pages, p: Blk, c: Blk, q: Blk, h: Blk, x: Blk, n: nat, m: nat)
    requires OneLeft(pages) && Unpublished(pages)
    requires p in pages && q in pages && c in pages[p].downs && h in pages[q].downs
    requires ReachIn(pages, FlagOnly, c, x, n) && ReachIn(pages, FlagOnly, h, x, m)
    ensures c == h
    decreases n
  {
    if n > 0 {
      var y := LastHop(pages, FlagOnly, c, x, n);
      if m > 0 {
        var z := LastHop(pages, FlagOnly, h, x, m);
        SameLeft(pages, y, z);
        HeadIsUnique(pages, p, c, q, h, y, n - 1, m - 1);
      } else {
        NotPublished(pages, y, q);
      }
    } else if m > 0 {
      var z := LastHop(pages, FlagOnly, h, x, m);
      NotPublished(pages, z, p);
    }
  }

  lemma HeldOnce(pages: Pages, bound: nat, p: Blk, c: Blk, q: Blk, h: Blk, x: Blk)
    requires Links(pages, bound) && Holds(pages, p, c, x) && Holds(pages, q, h, x)
    ensures c == h && p == q
  {
    var n: nat :| ReachIn(pages, FlagOnly, c, x, n);
    var m: nat :| ReachIn(pages, FlagOnly, h, x, m);
    HeadIsUnique(pages, p, c, q, h, x, n, m);
  }

  lemma NotLeftOfRoot(pages: Pages, bound: nat, z: Blk)
    requires Links(pages, bound) && z in pages
    ensures pages[z].right != ROOT
  {
    assert PageOk(pages, z, bound);
  }

  lemma RootNotHeld(pages: Pages, bound: nat, p: Blk, c: Blk)
    requires Links(pages, bound)
    ensures !Holds(pages, p, c, ROOT)
  {
    if Holds(pages, p, c, ROOT) {
      var m: nat :| ReachIn(pages, FlagOnly, c, ROOT, m);
      assert PageOk(pages, p, bound);
      var z := LastHop(pages, FlagOnly, c, ROOT, m);
      NotLeftOfRoot(pages, bound, z);
    }
  }

  // ---- pending ----

  lemma {:induction false} PendingMore(pages: Pages, q: Queue, x: Blk, n: nat, m: nat)
    requires Pending(pages, q, x, n) && n <= m
    ensures Pending(pages, q, x, m)
    decreases n
  {
    if !Covered(pages, q, x) {
      var p, c :| Holds(pages, p, c, x) && Pending(pages, q, p, n - 1);
      PendingMore(pages, q, p, n - 1, m - 1);
    }
  }

  /** Nothing is pending for a scan that has emptied its queue. */
  lemma {:induction false} NothingPending(pages: Pages, x: Blk, n: nat)
    ensures !Pending(pages, multiset{}, x, n)
    decreases n
  {
    if Pending(pages, multiset{}, x, n) {
      var p, c :| n > 0 && Holds(pages, p, c, x) && Pending(pages, multiset{}, p, n - 1);
      NothingPending(pages, p, n - 1);
    }
  }

}
