/** Chains of leaf tuples on one page: each tuple holds the offset of the next one. */
module LeafChains {
  import opened LeafPage
  import opened Lists

  ghost predicate IsLive<D>(p: Items<D>, o: nat) { InPage(p, o) && At(p, o).Live? }

  ghost function NextOf<D>(p: Items<D>, o: nat): nat
    requires IsLive(p, o)
  {
    At(p, o).next
  }

  /** Links stay on the page, and no two tuples share a successor. */
  ghost predicate LinksOk<D>(p: Items<D>) {
    && (forall o {:trigger NextOf(p, o)} | IsLive(p, o) && NextOf(p, o) != 0 :: InPage(p, NextOf(p, o)))
    && forall o, q {:trigger NextOf(p, o), NextOf(p, q)} | IsLive(p, o) && IsLive(p, q) && NextOf(p, o) == NextOf(p, q) != 0 :: o == q
  }

  /** Links lead to live tuples only. */
  ghost predicate LinksAlive<D>(p: Items<D>) {
    forall o {:trigger NextOf(p, o)} | IsLive(p, o) && NextOf(p, o) != 0 :: IsLive(p, NextOf(p, o))
  }

  ghost predicate IsHead<D>(p: Items<D>, o: nat) {
    IsLive(p, o) && forall q {:trigger NextOf(p, q)} | IsLive(p, q) :: NextOf(p, q) != o
  }

  ghost predicate Linked<D>(p: Items<D>, c: seq<nat>) {
    && (forall k | 0 <= k < |c| :: IsLive(p, c[k]))
    && forall j, k | 0 <= j < k < |c| && k == j + 1 :: NextOf(p, c[j]) == c[k]
  }

  /** A whole chain, from a tuple nobody links to down to one without successor. */
  ghost predicate IsChain<D>(p: Items<D>, c: seq<nat>) {
    && |c| > 0 && Linked(p, c) && IsHead(p, c[0]) && NextOf(p, c[|c| - 1]) == 0
  }

  ghost predicate OnChain<D>(p: Items<D>, o: nat) { exists c :: IsChain(p, c) && o in c }

  /** A path from a head never meets itself. */
  lemma {:induction false} PathNoDup<D>(p: Items<D>, c: seq<nat>)
    requires LinksOk(p) && |c| > 0 && Linked(p, c) && IsHead(p, c[0])
    ensures NoDup(c)
    ensures NextOf(p, c[|c| - 1]) !in c
    decreases |c|
  {
    if |c| > 1 {
      var rest := c[..|c| - 1];
      PathNoDup(p, rest);
      assert NextOf(p, c[|c| - 2]) == c[|c| - 1];
      assert NoDup(c);
    }
    forall k | 0 <= k < |c| ensures NextOf(p, c[|c| - 1]) != c[k] {
      if k > 0 {
        assert NextOf(p, c[k - 1]) == c[k];
      }
    }
  }

  lemma {:induction false} NoDupBound(c: seq<nat>, n: nat)
    requires NoDup(c) && forall k | 0 <= k < |c| :: 1 <= c[k] <= n
    ensures |c| <= n
    decreases n
  {
    if c != [] {
      assert 1 <= c[0] <= n;
      if n in c {
        var k :| 0 <= k < |c| && c[k] == n;
        var d := c[..k] + c[k + 1..];
        forall j | 0 <= j < |d| ensures 1 <= d[j] <= n - 1 { }
        NoDupBound(d, n - 1);
      } else {
        NoDupBound(c, n - 1);
      }
    }
  }

  /** Two paths that start together agree as long as both last. */
  lemma {:induction false} PathsAgree<D>(p: Items<D>, c: seq<nat>, d: seq<nat>, k: nat)
    requires Linked(p, c) && Linked(p, d) && k < |c| && k < |d| && c[0] == d[0]
    ensures c[k] == d[k]
    decreases k
  {
    if k > 0 {
      PathsAgree(p, c, d, k - 1);
      assert NextOf(p, c[k - 1]) == c[k] && NextOf(p, d[k - 1]) == d[k];
    }
  }

  /** A path from the head of a chain is a prefix of the chain. */
  lemma PathInChain<D>(p: Items<D>, c: seq<nat>, d: seq<nat>)
    requires IsChain(p, c) && |d| > 0 && Linked(p, d) && c[0] == d[0]
    ensures d <= c
  {
    if |d| > |c| {
      assert NextOf(p, d[|c| - 1]) == d[|c|];
      PathsAgree(p, c, d, |c| - 1);
      assert false;
    }
    forall k | 0 <= k < |d| ensures c[k] == d[k] {
      PathsAgree(p, c, d, k);
    }
  }

  lemma ChainUnique<D>(p: Items<D>, c: seq<nat>, d: seq<nat>)
    requires IsChain(p, c) && IsChain(p, d) && c[0] == d[0]
    ensures c == d
  {
    PathInChain(p, c, d);
    PathInChain(p, d, c);
  }

  /** Tuples of different chains are different. */
  lemma {:induction false} ChainsDisjoint<D>(p: Items<D>, c: seq<nat>, d: seq<nat>, j: nat, k: nat)
    requires LinksOk(p) && IsChain(p, c) && IsChain(p, d)
    requires j < |c| && k < |d| && c[j] == d[k]
    ensures c == d
    decreases j
  {
    assert j > 0 ==> NextOf(p, c[j - 1]) == c[j];
    assert k > 0 ==> NextOf(p, d[k - 1]) == d[k];
    if j == 0 {
      ChainUnique(p, c, d);
    } else {
      ChainsDisjoint(p, c, d, j - 1, k - 1);
    }
  }

  /** Walking back from a tuple whose link is dangling always reaches a head. */
  lemma {:induction false} BackToHead<D>(p: Items<D>, path: seq<nat>) returns (c: seq<nat>)
    requires LinksOk(p) && |path| > 0 && Linked(p, path) && NoDup(path)
    requires !IsLive(p, NextOf(p, path[|path| - 1]))
    ensures |c| > 0 && Linked(p, c) && IsHead(p, c[0]) && c[|c| - 1] == path[|path| - 1]
    decreases |p| - |path|
  {
    if IsHead(p, path[0]) {
      c := path;
    } else {
      var q :| IsLive(p, q) && NextOf(p, q) == path[0];
      forall k | 0 <= k < |path| ensures path[k] != q {
        assert k < |path| - 1 ==> NextOf(p, path[k]) == path[k + 1];
      }
      NoDupBound([q] + path, |p|);
      c := BackToHead(p, [q] + path);
    }
  }

  /** If every head starts a whole chain, no link is dangling. */
  lemma ChainsMakeLinksAlive<D>(p: Items<D>)
    requires LinksOk(p)
    requires forall h | IsHead(p, h) :: HasChain(p, h)
    ensures LinksAlive(p)
  {
    forall o | IsLive(p, o) && NextOf(p, o) != 0 ensures IsLive(p, NextOf(p, o)) {
      if !IsLive(p, NextOf(p, o)) {
        var path := BackToHead(p, [o]);
        var c :| IsChain(p, c) && c[0] == path[0];
        var k := |path| - 1;
        assert k + 1 < |c| ==> NextOf(p, c[k]) == c[k + 1];
        PathInChain(p, c, path);
      }
    }
  }

  /** With sound links, every head starts a whole chain. */
  lemma {:induction false} HeadsStartChains<D>(p: Items<D>, path: seq<nat>)
    requires LinksOk(p) && LinksAlive(p) && |path| > 0 && Linked(p, path) && IsHead(p, path[0])
    ensures HasChain(p, path[0])
    decreases |p| - |path|
  {
    PathNoDup(p, path);
    NoDupBound(path, |p|);
    var o := NextOf(p, path[|path| - 1]);
    if o == 0 {
      assert IsChain(p, path);
    } else {
      var longer := path + [o];
      PathNoDup(p, longer);
      NoDupBound(longer, |p|);
      HeadsStartChains(p, longer);
    }
  }

  ghost predicate HasChain<D>(p: Items<D>, h: nat) { exists c :: IsChain(p, c) && c[0] == h }

  /** The chain that starts at a head. */
  ghost function ChainOf<D>(p: Items<D>, h: nat): (c: seq<nat>)
    requires HasChain(p, h)
    ensures IsChain(p, c) && c[0] == h
  {
    var c :| IsChain(p, c) && c[0] == h;
    c
  }
}
