/** Every change keeps the links in shape: one parent and one flagged left neighbour per
    page, and no downlink to the right neighbour of a flagged page. */
module GistLinks {
  import opened GistPages
  import opened GistPlace

  ghost predicate Later(bound: nat, lsn: nat, bound': nat) { bound <= bound' && 1 <= lsn <= bound' }

  lemma PutPageOk(pages: Pages, b: Blk, entries: set<Entry>, downs: map<Blk, Key>, lsn: nat, bound: nat, bound': nat, x: Blk)
    requires b in pages && x in pages && PageOk(pages, x, bound) && Later(bound, lsn, bound')
    requires downs.Keys == pages[b].downs.Keys && (!pages[b].leaf ==> entries == {})
    ensures PageOk(Put(pages, b, entries, downs, lsn), x, bound')
  {
    if x == b {
      assert forall c | c in downs :: c in pages[b].downs;
      if pages[b].leaf { assert downs == map[]; }
    }
  }

  lemma PutShape(pages: Pages, b: Blk, entries: set<Entry>, downs: map<Blk, Key>, lsn: nat)
    requires b in pages && downs.Keys == pages[b].downs.Keys && OneParent(pages) && OneLeft(pages) && Unpublished(pages)
    ensures var pages' := Put(pages, b, entries, downs, lsn); OneParent(pages') && OneLeft(pages') && Unpublished(pages')
  {
    var pages' := Put(pages, b, entries, downs, lsn);
    assert forall x | x in pages :: pages'[x].downs.Keys == pages[x].downs.Keys;
  }

  lemma PutLinks(pages: Pages, b: Blk, entries: set<Entry>, downs: map<Blk, Key>, lsn: nat, bound: nat, bound': nat)
    requires Links(pages, bound) && b in pages && Later(bound, lsn, bound') && downs.Keys == pages[b].downs.Keys
    requires !pages[b].leaf ==> entries == {}
    ensures Links(Put(pages, b, entries, downs, lsn), bound')
  {
    var pages' := Put(pages, b, entries, downs, lsn);
    forall x | x in pages' ensures PageOk(pages', x, bound') { PutPageOk(pages, b, entries, downs, lsn, bound, bound', x); }
    PutShape(pages, b, entries, downs, lsn);
  }

  // ---- splitting ----

  lemma SplitPagesOk(pages: Pages, b: Blk, cut: Cut, lsn: nat, bound: nat, bound': nat, x: Blk)
    requires SplitOk(pages, b, cut) && ROOT in pages && Later(bound, lsn, bound')
    requires forall y {:trigger PageOk(pages, y, bound)} | y in pages :: PageOk(pages, y, bound)
    requires x in SplitPage(pages, b, cut, lsn)
    ensures PageOk(SplitPage(pages, b, cut, lsn), x, bound')
  {
    assert PageOk(pages, b, bound);
    if x != cut.blk { assert PageOk(pages, x, bound); }
    var pages' := SplitPage(pages, b, cut, lsn);
    assert forall c | c in pages'[x].downs :: c in pages[if x == cut.blk then b else x].downs;
    if pages[b].leaf { assert pages[b].downs - cut.downs == map[] && Restrict(pages[b].downs, cut.downs) == map[]; }
  }

  /** Whose downlinks a page has after the split. */
  function Before(b: Blk, cut: Cut, x: Blk): Blk { if x == cut.blk then b else x }

  lemma SplitDowns(pages: Pages, b: Blk, cut: Cut, lsn: nat, x: Blk, c: Blk)
    requires SplitOk(pages, b, cut) && x in SplitPage(pages, b, cut, lsn) && c in SplitPage(pages, b, cut, lsn)[x].downs
    ensures var y := Before(b, cut, x);
      && y in pages && c in pages[y].downs && pages[y].downs[c] == SplitPage(pages, b, cut, lsn)[x].downs[c]
      && (y == b ==> (x == cut.blk <==> c in cut.downs))
  {
  }

  lemma SplitOneParent(pages: Pages, b: Blk, cut: Cut, lsn: nat)
    requires SplitOk(pages, b, cut) && OneParent(pages)
    ensures OneParent(SplitPage(pages, b, cut, lsn))
  {
    var pages' := SplitPage(pages, b, cut, lsn);
    forall p, q, c | p in pages' && q in pages' && c in pages'[p].downs && c in pages'[q].downs ensures p == q {
      SplitDowns(pages, b, cut, lsn, p, c);
      SplitDowns(pages, b, cut, lsn, q, c);
    }
  }

  /** A flagged page after the split was flagged before, or is the left half. */
  lemma SplitFlags(pages: Pages, b: Blk, cut: Cut, lsn: nat, x: Blk)
    requires SplitOk(pages, b, cut) && x in SplitPage(pages, b, cut, lsn) && SplitPage(pages, b, cut, lsn)[x].follow
    ensures x in pages
    ensures if x == b then SplitPage(pages, b, cut, lsn)[x].right == cut.blk
            else pages[x].follow && SplitPage(pages, b, cut, lsn)[x].right == pages[x].right
  {
  }

  lemma SplitOneLeft(pages: Pages, b: Blk, cut: Cut, lsn: nat, bound: nat)
    requires SplitOk(pages, b, cut) && OneLeft(pages) && forall y {:trigger PageOk(pages, y, bound)} | y in pages :: PageOk(pages, y, bound)
    ensures OneLeft(SplitPage(pages, b, cut, lsn))
  {
    var pages' := SplitPage(pages, b, cut, lsn);
    forall p, q | p in pages' && q in pages' && pages'[p].follow && pages'[q].follow && pages'[p].right == pages'[q].right
      ensures p == q
    {
      SplitFlags(pages, b, cut, lsn, p);
      SplitFlags(pages, b, cut, lsn, q);
      assert PageOk(pages, p, bound) && PageOk(pages, q, bound);
    }
  }

  lemma SplitUnpublished(pages: Pages, b: Blk, cut: Cut, lsn: nat, bound: nat)
    requires SplitOk(pages, b, cut) && Unpublished(pages) && forall y {:trigger PageOk(pages, y, bound)} | y in pages :: PageOk(pages, y, bound)
    ensures Unpublished(SplitPage(pages, b, cut, lsn))
  {
    var pages' := SplitPage(pages, b, cut, lsn);
    forall p, q | p in pages' && q in pages' && pages'[p].follow ensures pages'[p].right !in pages'[q].downs {
      SplitFlags(pages, b, cut, lsn, p);
      var y := Before(b, cut, q);
      assert PageOk(pages, y, bound);
      assert forall c | c in pages'[q].downs :: c in pages[y].downs;
    }
  }

  lemma SplitLinks(pages: Pages, b: Blk, cut: Cut, lsn: nat, bound: nat, bound': nat)
    requires Links(pages, bound) && SplitOk(pages, b, cut) && Later(bound, lsn, bound')
    ensures Links(SplitPage(pages, b, cut, lsn), bound')
  {
    var pages' := SplitPage(pages, b, cut, lsn);
    forall x | x in pages' ensures PageOk(pages', x, bound') { SplitPagesOk(pages, b, cut, lsn, bound, bound', x); }
    SplitOneParent(pages, b, cut, lsn);
    SplitOneLeft(pages, b, cut, lsn, bound);
    SplitUnpublished(pages, b, cut, lsn, bound);
  }

  // ---- publishing ----

  lemma PublishPagesOk(pages: Pages, p: Blk, h: Blk, left: Blk, downs: map<Blk, Key>, lsn: nat, bound: nat, bound': nat, x: Blk)
    requires PublishOk(pages, p, h, left, downs) && Later(bound, lsn, bound') && x in pages
    requires PageOk(pages, x, bound) && PageOk(pages, left, bound)
    ensures PageOk(Publish(pages, p, left, downs, lsn), x, bound')
  {
    if x == p {
      assert !pages[p].leaf;
      assert forall c | c in downs :: c in pages[p].downs || c == pages[left].right;
    }
  }

  lemma PublishOneParent(pages: Pages, p: Blk, h: Blk, left: Blk, downs: map<Blk, Key>, lsn: nat)
    requires OneParent(pages) && Unpublished(pages) && PublishOk(pages, p, h, left, downs)
    ensures OneParent(Publish(pages, p, left, downs, lsn))
  {
    var pages' := Publish(pages, p, left, downs, lsn);
    forall y, z, c | y in pages' && z in pages' && c in pages'[y].downs && c in pages'[z].downs ensures y == z {
      if c == pages[left].right {
        assert c !in pages[y].downs && c !in pages[z].downs;
      } else {
        assert c in pages[y].downs && c in pages[z].downs;
      }
    }
  }

  lemma PublishUnpublished(pages: Pages, p: Blk, h: Blk, left: Blk, downs: map<Blk, Key>, lsn: nat)
    requires OneLeft(pages) && Unpublished(pages) && PublishOk(pages, p, h, left, downs)
    ensures Unpublished(Publish(pages, p, left, downs, lsn)) && OneLeft(Publish(pages, p, left, downs, lsn))
  {
    var pages' := Publish(pages, p, left, downs, lsn);
    forall y, z | y in pages' && z in pages' && pages'[y].follow ensures pages'[y].right !in pages'[z].downs {
      assert pages[y].follow && pages'[y].right == pages[y].right && y != left;
      assert pages[y].right !in pages[z].downs && pages[y].right != pages[left].right;
    }
  }

  lemma PublishLinks(pages: Pages, p: Blk, h: Blk, left: Blk, downs: map<Blk, Key>, lsn: nat, bound: nat, bound': nat)
    requires Links(pages, bound) && PublishOk(pages, p, h, left, downs) && Later(bound, lsn, bound')
    ensures Links(Publish(pages, p, left, downs, lsn), bound')
  {
    var pages' := Publish(pages, p, left, downs, lsn);
    forall x | x in pages' ensures PageOk(pages', x, bound') { PublishPagesOk(pages, p, h, left, downs, lsn, bound, bound', x); }
    PublishOneParent(pages, p, h, left, downs, lsn);
    PublishUnpublished(pages, p, h, left, downs, lsn);
  }

  // ---- splitting the root ----

  lemma RootSplitPagesOk(pages: Pages, children: map<Blk, Child>, lsn: nat, bound: nat, bound': nat, x: Blk)
    requires RootSplitOk(pages, children) && Later(bound, lsn, bound')
    requires x in RootSplit(pages, children, lsn) && PageOk(pages, ROOT, bound) && (x in pages ==> PageOk(pages, x, bound))
    ensures PageOk(RootSplit(pages, children, lsn), x, bound')
  {
    var pages' := RootSplit(pages, children, lsn);
    forall c | c in pages'[x].downs ensures c in pages' && c != ROOT {
      RootSplitDowns(pages, children, lsn, x, c);
    }
    if x in children && pages[ROOT].leaf { NoDownlinks(pages, children, x); }
  }

  lemma NoDownlinks(pages: Pages, children: map<Blk, Child>, x: Blk)
    requires RootSplitOk(pages, children) && x in children && pages[ROOT].downs == map[]
    ensures children[x].downs == map[]
  {
    assert forall c | c in children[x].downs :: c in pages[ROOT].downs;
  }

  /** Where a downlink was before the root was split. */
  lemma RootSplitDowns(pages: Pages, children: map<Blk, Child>, lsn: nat, x: Blk, c: Blk)
    requires RootSplitOk(pages, children) && x in RootSplit(pages, children, lsn) && c in RootSplit(pages, children, lsn)[x].downs
    ensures if x == ROOT then c in children else
              var y := if x in children then ROOT else x;
              y in pages && c in pages[y].downs && pages[y].downs[c] == RootSplit(pages, children, lsn)[x].downs[c]
  {
  }

  lemma RootSplitOneParent(pages: Pages, children: map<Blk, Child>, lsn: nat, bound: nat)
    requires Links(pages, bound) && RootSplitOk(pages, children)
    ensures OneParent(RootSplit(pages, children, lsn))
  {
    var pages' := RootSplit(pages, children, lsn);
    forall p, q, c | p in pages' && q in pages' && c in pages'[p].downs && c in pages'[q].downs ensures p == q {
      RootSplitDowns(pages, children, lsn, p, c);
      RootSplitDowns(pages, children, lsn, q, c);
      OldDownlinks(pages, children, bound, p, c);
      OldDownlinks(pages, children, bound, q, c);
    }
  }

  lemma OldDownlinks(pages: Pages, children: map<Blk, Child>, bound: nat, x: Blk, c: Blk)
    requires Links(pages, bound) && RootSplitOk(pages, children)
    ensures var y := if x in children then ROOT else x; y in pages && c in pages[y].downs ==> c !in children
  {
    var y := if x in children then ROOT else x;
    if y in pages { assert PageOk(pages, y, bound); }
  }

  lemma RootSplitFlags(pages: Pages, children: map<Blk, Child>, lsn: nat, bound: nat, x: Blk)
    requires Links(pages, bound) && RootSplitOk(pages, children) && x in RootSplit(pages, children, lsn)
    requires RootSplit(pages, children, lsn)[x].follow
    ensures x in pages && pages[x].follow && RootSplit(pages, children, lsn)[x] == pages[x] && pages[x].right !in children
  {
    if x in pages { assert PageOk(pages, x, bound); }
  }

  lemma RootSplitUnpublished(pages: Pages, children: map<Blk, Child>, lsn: nat, bound: nat)
    requires Links(pages, bound) && RootSplitOk(pages, children)
    ensures Unpublished(RootSplit(pages, children, lsn)) && OneLeft(RootSplit(pages, children, lsn))
  {
    var pages' := RootSplit(pages, children, lsn);
    forall y, z | y in pages' && z in pages' && pages'[y].follow ensures pages'[y].right !in pages'[z].downs {
      RootSplitFlags(pages, children, lsn, bound, y);
      var c, w: Blk := pages'[y].right, if z in children then ROOT else z;
      if c in pages'[z].downs {
        RootSplitDowns(pages, children, lsn, z, c);
        NotPublished(pages, y, w);
      }
    }
    forall y, z | y in pages' && z in pages' && pages'[y].follow && pages'[z].follow && pages'[y].right == pages'[z].right
      ensures y == z
    {
      RootSplitFlags(pages, children, lsn, bound, y);
      RootSplitFlags(pages, children, lsn, bound, z);
    }
  }

  lemma RootSplitLinks(pages: Pages, children: map<Blk, Child>, lsn: nat, bound: nat, bound': nat)
    requires Links(pages, bound) && RootSplitOk(pages, children) && Later(bound, lsn, bound')
    ensures Links(RootSplit(pages, children, lsn), bound')
  {
    var pages' := RootSplit(pages, children, lsn);
    forall x | x in pages' ensures PageOk(pages', x, bound') { RootSplitPagesOk(pages, children, lsn, bound, bound', x); }
    RootSplitOneParent(pages, children, lsn, bound);
    RootSplitUnpublished(pages, children, lsn, bound);
    assert ROOT !in children;
  }
}
