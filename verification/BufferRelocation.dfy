/** When an index page is split, the tuples of its node buffer are dealt out to the buffers
    of the new pages, and the downlinks are enlarged to cover them. */
module BufferRelocation {
  import opened Lists
  import opened NodeBuffers
  import opened BuildBuffers
  import opened PenaltyChoice

  /** What the operator class says of a downlink and a tuple. */
  datatype Ops<!D> = Ops(penalty: (D, Tuple) -> seq<Penalty>, adjusted: (D, Tuple) -> D, covers: (D, Tuple) -> bool)

  /** An adjusted downlink covers the new tuple and what it covered before. */
  ghost predicate OpsOk<D(!new)>(ops: Ops<D>, natts: nat) {
    && (forall d: D, t :: ops.covers(ops.adjusted(d, t), t))
    && (forall d: D, t, u :: ops.covers(d, u) ==> ops.covers(ops.adjusted(d, t), u))
    && forall d: D, t :: |ops.penalty(d, t)| == natts && forall j | 0 <= j < natts :: PenaltyOk(ops.penalty(d, t)[j])
  }

  /** The first of the pages with the least penalties; the search ends at one without any
      penalty. */
  method BestPage(rows: seq<seq<Penalty>>, n: nat) returns (which: nat)
    requires rows != [] && n > 0 && RowsOk(rows, n)
    ensures Least(rows, n, which, |rows|) && FirstSuch(rows, n, which)
  {
    which := 0;
    var best := new Best[n](_ => Unknown);
    var i := 0;
    while i < |rows|
      invariant 0 <= i <= |rows| && (if i == 0 then which == 0 && best[0] == Unknown else Least(rows, n, which, i))
      invariant i > 0 ==> Holds(best[..], rows[which], n) && FirstSuch(rows, n, which)
    {
      var outcome, zero := CompareRow(rows[i], best, rows[which], i == 0);
      if outcome == Equal { NoWorseSelf(rows[i]); }
      if outcome == Adopted { StillFirst(rows, n, which, i); }
      LeastStep(rows, n, which, i, outcome);
      if outcome == Adopted {
        which := i;
      }
      if zero {
        ZeroRowIsLeast(rows, n, which);
        return;
      }
      i := i + 1;
    }
  }

  /** No row before it is as good. */
  ghost predicate FirstSuch(rows: seq<seq<Penalty>>, n: nat, which: nat)
    requires RowsOk(rows, n) && which < |rows|
  {
    forall k | 0 <= k < which :: !NoWorse(rows[k], rows[which])
  }

  lemma StillFirst(rows: seq<seq<Penalty>>, n: nat, which: nat, i: nat)
    requires RowsOk(rows, n) && i < |rows|
    requires i > 0 ==> Least(rows, n, which, i) && !NoWorse(rows[which], rows[i])
    ensures FirstSuch(rows, n, i)
  {
    forall k | 0 <= k < i ensures !NoWorse(rows[k], rows[i]) {
      if NoWorse(rows[k], rows[i]) { NoWorseThan(rows[which], rows[k], rows[i]); }
    }
  }

  /** What page `blk` gets of the first `n` tuples taken from the stack, in that order. */
  ghost function Dealt(stack: seq<Tuple>, targets: seq<nat>, which: seq<nat>, blk: nat, n: nat): seq<Tuple>
    requires n <= |stack| && n <= |which| && forall i | 0 <= i < n :: which[i] < |targets|
  {
    if n == 0 then [] else
      Dealt(stack, targets, which, blk, n - 1) + if targets[which[n - 1]] == blk then [stack[|stack| - n]] else []
  }

  /** How often each page gets tuple `x`. */
  ghost function Shares(stack: seq<Tuple>, targets: seq<nat>, which: seq<nat>, x: Tuple, n: nat): (r: seq<nat>)
    requires n <= |stack| && n <= |which| && forall i | 0 <= i < n :: which[i] < |targets|
    ensures |r| == |targets|
  {
    seq(|targets|, j requires 0 <= j < |targets| => multiset(Dealt(stack, targets, which, targets[j], n))[x])
  }

  function Sum(s: seq<nat>): nat { if s == [] then 0 else Sum(s[..|s| - 1]) + s[|s| - 1] }

  lemma {:induction false} SumMore(s: seq<nat>, w: nat, d: nat)
    requires w < |s|
    ensures Sum(s[w := s[w] + d]) == Sum(s) + d
    decreases |s|
  {
    var t, n := s[w := s[w] + d], |s| - 1;
    if w < n {
      assert t[..n] == s[..n][w := s[..n][w] + d];
      SumMore(s[..n], w, d);
    } else {
      assert t[..n] == s[..n];
    }
  }

  lemma SumIs(s: seq<nat>, s': seq<nat>, w: nat, d: nat)
    requires w < |s| && s' == s[w := s[w] + d]
    ensures Sum(s') == Sum(s) + d
  {
    SumMore(s, w, d);
  }

  lemma {:induction false} SumOfNothing(s: seq<nat>)
    requires forall j | 0 <= j < |s| :: s[j] == 0
    ensures Sum(s) == 0
  {
    if s != [] { SumOfNothing(s[..|s| - 1]); }
  }

  /** Whether the tuple taken as number `n` is `x`, as a number. */
  ghost function IsTaken(stack: seq<Tuple>, x: Tuple, n: nat): nat
    requires 0 < n <= |stack|
  {
    if stack[|stack| - n] == x then 1 else 0
  }

  lemma OneDealt(stack: seq<Tuple>, targets: seq<nat>, which: seq<nat>, x: Tuple, blk: nat, n: nat)
    requires 0 < n <= |stack| && n <= |which| && forall i | 0 <= i < n :: which[i] < |targets|
    ensures multiset(Dealt(stack, targets, which, blk, n))[x] == multiset(Dealt(stack, targets, which, blk, n - 1))[x]
              + if targets[which[n - 1]] == blk then IsTaken(stack, x, n) else 0
  {
  }

  lemma NextShares(stack: seq<Tuple>, targets: seq<nat>, which: seq<nat>, x: Tuple, n: nat)
    requires 0 < n <= |stack| && n <= |which| && NoDup(targets) && forall i | 0 <= i < n :: which[i] < |targets|
    ensures var s, w := Shares(stack, targets, which, x, n - 1), which[n - 1];
            Shares(stack, targets, which, x, n) == s[w := s[w] + IsTaken(stack, x, n)]
  {
    var w := which[n - 1];
    forall j | 0 <= j < |targets|
      ensures Shares(stack, targets, which, x, n)[j]
           == Shares(stack, targets, which, x, n - 1)[j] + if j == w then IsTaken(stack, x, n) else 0
    {
      OneDealt(stack, targets, which, x, targets[j], n);
      SameTarget(targets, w, j);
    }
  }

  lemma SameTarget(targets: seq<nat>, i: nat, j: nat)
    requires NoDup(targets) && i < |targets| && j < |targets|
    ensures targets[i] == targets[j] <==> i == j
  {
  }

  /** How often `x` is among the first `n` tuples taken. */
  ghost function TakenCount(stack: seq<Tuple>, x: Tuple, n: nat): nat
    requires n <= |stack|
  {
    if n == 0 then 0 else TakenCount(stack, x, n - 1) + IsTaken(stack, x, n)
  }

  lemma {:induction false} TakenIsStack(stack: seq<Tuple>, x: Tuple, n: nat)
    requires n <= |stack|
    ensures TakenCount(stack, x, n) == multiset(stack[|stack| - n..])[x]
    decreases n
  {
    if n > 0 {
      TakenIsStack(stack, x, n - 1);
      var tops := stack[|stack| - n..];
      assert tops == [tops[0]] + tops[1..] && tops[1..] == stack[|stack| - (n - 1)..];
    }
  }

  lemma OneMoreShare(stack: seq<Tuple>, targets: seq<nat>, which: seq<nat>, x: Tuple, n: nat)
    requires 0 < n <= |stack| && n <= |which| && NoDup(targets) && forall i | 0 <= i < n :: which[i] < |targets|
    ensures Sum(Shares(stack, targets, which, x, n)) == Sum(Shares(stack, targets, which, x, n - 1)) + IsTaken(stack, x, n)
  {
    NextShares(stack, targets, which, x, n);
    SumIs(Shares(stack, targets, which, x, n - 1), Shares(stack, targets, which, x, n), which[n - 1], IsTaken(stack, x, n));
  }

  /** No tuple is lost and none is dealt twice. */
  lemma {:induction false} DealtEach(stack: seq<Tuple>, targets: seq<nat>, which: seq<nat>, x: Tuple, n: nat)
    requires n <= |stack| && n <= |which| && NoDup(targets) && forall i | 0 <= i < n :: which[i] < |targets|
    ensures Sum(Shares(stack, targets, which, x, n)) == TakenCount(stack, x, n)
    decreases n
  {
    if n == 0 {
      SumOfNothing(Shares(stack, targets, which, x, 0));
    } else {
      DealtEach(stack, targets, which, x, n - 1);
      OneMoreShare(stack, targets, which, x, n);
    }
  }

  lemma {:induction false} NotDealtTo(stack: seq<Tuple>, targets: seq<nat>, which: seq<nat>, blk: nat, n: nat)
    requires n <= |stack| && n <= |which| && forall i | 0 <= i < n :: which[i] < |targets|
    requires blk !in targets
    ensures Dealt(stack, targets, which, blk, n) == []
  {
    if n > 0 { NotDealtTo(stack, targets, which, blk, n - 1); }
  }

  lemma {:induction false} DealtPrefix(stack: seq<Tuple>, targets: seq<nat>, which: seq<nat>, w: nat, blk: nat, n: nat)
    requires n <= |stack| && n <= |which| && w < |targets| && forall i | 0 <= i < |which| :: which[i] < |targets|
    ensures Dealt(stack, targets, which + [w], blk, n) == Dealt(stack, targets, which, blk, n)
  {
    if n > 0 { DealtPrefix(stack, targets, which, w, blk, n - 1); }
  }

  type Contents = map<Key, seq<Tuple>>

  /** After some tuples were dealt: the rest is still set aside. */
  ghost predicate Dealing(base: Contents, m: Contents, stack: seq<Tuple>, targets: seq<nat>, which: seq<nat>) {
    && |which| <= |stack| && (forall i | 0 <= i < |which| :: which[i] < |targets|)
    && m.Keys == base.Keys && Temp in m && m[Temp] == stack[..|stack| - |which|]
    && forall k | k in m && k.Node? :: m[k] == base[k] + Dealt(stack, targets, which, k.blk, |which|)
  }

  lemma DealtNext(base: Contents, m: Contents, m1: Contents, m2: Contents, stack: seq<Tuple>, targets: seq<nat>, which: seq<nat>, w: nat, t: Tuple)
    requires Dealing(base, m, stack, targets, which) && w < |targets| && Node(targets[w]) in m
    requires Temp in m1 && m[Temp] == m1[Temp] + [t] && m1 == m[Temp := m1[Temp]]
    requires m2 == m1[Node(targets[w]) := m1[Node(targets[w])] + [t]]
    ensures Dealing(base, m2, stack, targets, which + [w])
    ensures |which| < |stack| && t == stack[|stack| - 1 - |which|]
  {
    var n, which' := |which|, which + [w];
    assert t == stack[|stack| - n - 1] && m1[Temp] == stack[..|stack| - n - 1];
    forall k | k in m2 && k.Node? ensures m2[k] == base[k] + Dealt(stack, targets, which', k.blk, n + 1) {
      DealtPrefix(stack, targets, which, w, k.blk, n);
      assert m[k] == base[k] + Dealt(stack, targets, which, k.blk, n);
    }
  }

  /** Every tuple dealt so far is covered by the downlink of its page. */
  ghost predicate Covering<D>(ops: Ops<D>, downlinks: seq<D>, stack: seq<Tuple>, which: seq<nat>) {
    |which| <= |stack| && forall i | 0 <= i < |which| :: which[i] < |downlinks| && ops.covers(downlinks[which[i]], stack[|stack| - 1 - i])
  }

  lemma CoveringNext<D(!new)>(ops: Ops<D>, natts: nat, downlinks: seq<D>, stack: seq<Tuple>, which: seq<nat>, w: nat, t: Tuple)
    requires OpsOk(ops, natts) && Covering(ops, downlinks, stack, which) && w < |downlinks|
    requires |which| < |stack| && t == stack[|stack| - 1 - |which|]
    ensures Covering(ops, downlinks[w := ops.adjusted(downlinks[w], t)], stack, which + [w])
  {
    var downlinks', which' := downlinks[w := ops.adjusted(downlinks[w], t)], which + [w];
    forall i | 0 <= i < |which'| ensures ops.covers(downlinks'[which'[i]], stack[|stack| - 1 - i]) {
      if i < |which| { assert which'[i] == which[i] && ops.covers(downlinks[which[i]], stack[|stack| - 1 - i]); }
    }
  }

  // ---- the whole relocation ----

  /** What a buffer holds before the dealing: the split page's own starts anew. */
  ghost function Before(m: Contents, blk: nat, k: Key): seq<Tuple> { if k == Node(blk) || k !in m then [] else m[k] }

  /** Each page's buffer keeps what it had and gets its share, in the order of taking. */
  ghost predicate Relocated(m: Contents, m': Contents, blk: nat, targets: seq<nat>, which: seq<nat>)
    requires Node(blk) in m
  {
    var stack := m[Node(blk)];
    && |which| == |stack| && (forall i | 0 <= i < |which| :: which[i] < |targets|)
    && (forall k :: k in m' <==> k in m || (k.Node? && k.blk in targets))
    && forall k | k in m' && k.Node? :: m'[k] == Before(m, blk, k) + Dealt(stack, targets, which, k.blk, |stack|)
  }

  /** The tuples of the split page's buffer are now in the buffers of the new pages, each
      once; the buffers of other pages are as they were. */
  lemma RelocationConserves(m: Contents, m': Contents, blk: nat, targets: seq<nat>, which: seq<nat>, x: Tuple, k: Key)
    requires Node(blk) in m && Relocated(m, m', blk, targets, which) && NoDup(targets)
    ensures Sum(Shares(m[Node(blk)], targets, which, x, |which|)) == multiset(m[Node(blk)])[x]
    ensures k in m && k.Node? && k.blk !in targets && k != Node(blk) ==> k in m' && m'[k] == m[k]
  {
    var stack := m[Node(blk)];
    DealtEach(stack, targets, which, x, |stack|);
    TakenIsStack(stack, x, |stack|);
    assert stack[0..] == stack;
    if k.Node? && k.blk !in targets { NotDealtTo(stack, targets, which, k.blk, |stack|); }
  }

  method ChoosePage<D(!new)>(t: Tuple, downlinks: seq<D>, ops: Ops<D>, natts: nat) returns (w: nat)
    requires downlinks != [] && OpsOk(ops, natts) && natts > 0
    ensures w < |downlinks| && BestFor(ops, downlinks, t, w, natts)
  {
    var rows := seq(|downlinks|, i requires 0 <= i < |downlinks| => ops.penalty(downlinks[i], t));
    w := BestPage(rows, natts);
    forall i | 0 <= i < |downlinks|
      ensures NoWorse(ops.penalty(downlinks[w], t), ops.penalty(downlinks[i], t))
      ensures i < w ==> !NoWorse(ops.penalty(downlinks[i], t), ops.penalty(downlinks[w], t))
    {
      assert NoWorse(rows[w], rows[i]);
      assert i < w ==> !NoWorse(rows[i], rows[w]);
    }
  }

  /** Chooses a page for the tuple, and enlarges that page's downlink. */
  method DealOne<D(!new)>(b: BuildBuffers, t: Tuple, targets: seq<nat>, downlinks: seq<D>, ops: Ops<D>, natts: nat)
    returns (w: nat, downlinks': seq<D>)
    requires b.Valid() && TupleOk(t, b.capacity) && b.nFileBlocks < NONE && OpsOk(ops, natts) && natts > 0
    requires |targets| == |downlinks| > 0 && forall i | 0 <= i < |targets| :: Node(targets[i]) in b.tab
    modifies b
    ensures b.Valid() && b.tab.Keys == old(b.tab.Keys) && b.nFileBlocks <= old(b.nFileBlocks) + 1
    ensures w < |targets| && BestFor(ops, downlinks, t, w, natts)
    ensures b.Content() == old(b.Content())[Node(targets[w]) := old(b.Content())[Node(targets[w])] + [t]]
    ensures downlinks' == downlinks[w := ops.adjusted(downlinks[w], t)]
  {
    w := ChoosePage(t, downlinks, ops, natts);
    b.Push(Node(targets[w]), t);
    downlinks' := downlinks[w := ops.adjusted(downlinks[w], t)];
  }

  /** No other page would take the tuple at lesser penalties, and none before it at the same. */
  ghost predicate BestFor<D>(ops: Ops<D>, downlinks: seq<D>, t: Tuple, w: nat, natts: nat) {
    && w < |downlinks|
    && (forall i | 0 <= i < |downlinks| :: |ops.penalty(downlinks[i], t)| == natts)
    && (forall i | 0 <= i < |downlinks| :: NoWorse(ops.penalty(downlinks[w], t), ops.penalty(downlinks[i], t)))
    && forall i | 0 <= i < w :: !NoWorse(ops.penalty(downlinks[i], t), ops.penalty(downlinks[w], t))
  }

  /** Every tuple went to the best page under the downlinks of that moment, and only that
      page's downlink was enlarged for it. */
  ghost predicate DealtBest<D>(ops: Ops<D>, ds: seq<seq<D>>, stack: seq<Tuple>, which: seq<nat>, natts: nat) {
    && |ds| == |which| + 1 && |which| <= |stack|
    && forall i | 0 <= i < |which| :: DealtOnce(ops, ds[i], ds[i + 1], stack[|stack| - 1 - i], which[i], natts)
  }

  ghost predicate DealtOnce<D>(ops: Ops<D>, downlinks: seq<D>, downlinks': seq<D>, t: Tuple, w: nat, natts: nat) {
    BestFor(ops, downlinks, t, w, natts) && downlinks' == downlinks[w := ops.adjusted(downlinks[w], t)]
  }

  lemma DealtBestNext<D>(ops: Ops<D>, ds: seq<seq<D>>, stack: seq<Tuple>, which: seq<nat>, natts: nat, t: Tuple, w: nat,
                         downlinks: seq<D>, downlinks': seq<D>)
    requires DealtBest(ops, ds, stack, which, natts) && |which| < |stack| && t == stack[|stack| - 1 - |which|]
    requires downlinks == ds[|which|] && DealtOnce(ops, downlinks, downlinks', t, w, natts)
    ensures DealtBest(ops, ds + [downlinks'], stack, which + [w], natts)
  {
    var ds', which' := ds + [downlinks'], which + [w];
    forall i | 0 <= i < |which'| ensures DealtOnce(ops, ds'[i], ds'[i + 1], stack[|stack| - 1 - i], which'[i], natts) {
      if i < |which| { assert ds'[i] == ds[i] && ds'[i + 1] == ds[i + 1] && which'[i] == which[i]; }
    }
  }

  /** The first `i` targets have a buffer; those that had none start empty. */
  ghost predicate Added(m: Contents, m': Contents, targets: seq<nat>, i: nat)
    requires i <= |targets|
  {
    && (forall k :: k in m' <==> k in m || (k.Node? && k.blk in targets[..i]))
    && forall k | k in m' :: m'[k] == if k in m then m[k] else []
  }

  lemma AddedNext(m: Contents, m1: Contents, m2: Contents, targets: seq<nat>, i: nat)
    requires i < |targets| && Added(m, m1, targets, i)
    requires m2 == if Node(targets[i]) in m1 then m1 else m1[Node(targets[i]) := []]
    ensures Added(m, m2, targets, i + 1)
  {
    assert targets[..i + 1] == targets[..i] + [targets[i]];
    forall k ensures k in m2 <==> k in m || (k.Node? && k.blk in targets[..i + 1]) {
      assert k in m2 <==> k in m1 || k == Node(targets[i]);
    }
  }

  method GetOne(b: BuildBuffers, k: Key)
    requires b.Valid() && k.Node?
    modifies b
    ensures b.Valid() && b.nFileBlocks == old(b.nFileBlocks)
    ensures b.Content() == if k in old(b.Content()) then old(b.Content()) else old(b.Content())[k := []]
  {
    ContentKeys(b);
    b.GetNodeBuffer(k);
  }

  /** The buffers of the new pages; the leftmost may be the split page itself. */
  method GetBuffers(b: BuildBuffers, targets: seq<nat>)
    requires b.Valid()
    modifies b
    ensures b.Valid() && b.nFileBlocks == old(b.nFileBlocks)
    ensures Added(old(b.Content()), b.Content(), targets, |targets|)
  {
    ghost var m := b.Content();
    var i := 0;
    while i < |targets|
      invariant 0 <= i <= |targets| && b.Valid() && b.nFileBlocks == old(b.nFileBlocks)
      invariant Added(m, b.Content(), targets, i)
    {
      ghost var m1 := b.Content();
      GetOne(b, Node(targets[i]));
      AddedNext(m, m1, b.Content(), targets, i);
      i := i + 1;
    }
  }

  lemma AllThere(keys: set<Key>, targets: seq<nat>)
    requires forall k: Key | k.Node? && k.blk in targets :: k in keys
    ensures forall i | 0 <= i < |targets| :: Node(targets[i]) in keys
  {
    forall i | 0 <= i < |targets| ensures Node(targets[i]) in keys { assert targets[i] in targets; }
  }

  lemma ContentKeys(b: BuildBuffers)
    requires b.Valid()
    ensures b.Content().Keys == b.tab.Keys
  {
  }

  /** Takes one tuple from the copy and deals it out, unless none is left. */
  method DealNext<D(!new)>(b: BuildBuffers, targets: seq<nat>, downlinks: seq<D>, ops: Ops<D>, natts: nat,
                           ghost base: Contents, ghost stack: seq<Tuple>, ghost which: seq<nat>, ghost ds: seq<seq<D>>)
    returns (done: bool, downlinks': seq<D>, ghost which': seq<nat>, ghost ds': seq<seq<D>>)
    requires b.Valid() && Temp in b.tab && OpsOk(ops, natts) && natts > 0 && |targets| == |downlinks| > 0
    requires forall i | 0 <= i < |targets| :: Node(targets[i]) in b.tab
    requires Dealing(base, b.Content(), stack, targets, which) && Covering(ops, downlinks, stack, which)
    requires DealtBest(ops, ds, stack, which, natts) && ds[|which|] == downlinks
    requires b.nFileBlocks + |stack| - |which| <= NONE
    modifies b
    ensures b.Valid() && b.tab.Keys == old(b.tab.Keys) && |downlinks'| == |downlinks|
    ensures Dealing(base, b.Content(), stack, targets, which') && Covering(ops, downlinks', stack, which')
    ensures DealtBest(ops, ds', stack, which', natts) && ds'[|which'|] == downlinks' && ds'[0] == ds[0]
    ensures b.nFileBlocks + |stack| - |which'| <= NONE
    ensures |which'| == (if done then |which| else |which| + 1) && (done ==> |which| == |stack|)
  {
    ghost var m := b.Content();
    downlinks', which', ds' := downlinks, which, ds;
    var r := b.Pop(Temp);
    done := r.Nothing?;
    if r.Item? {
      ghost var m1 := b.Content();
      var w;
      w, downlinks' := DealOne(b, r.t, targets, downlinks, ops, natts);
      which' := which + [w];
      DealtNext(base, m, m1, b.Content(), stack, targets, which, w, r.t);
      CoveringNext(ops, natts, downlinks, stack, which, w, r.t);
      ds' := ds + [downlinks'];
      DealtBestNext(ops, ds, stack, which, natts, r.t, w, downlinks, downlinks');
    }
  }

  /** Takes the tuples from the copy until it is empty. */
  method DealAll<D(!new)>(b: BuildBuffers, targets: seq<nat>, downlinks: seq<D>, ops: Ops<D>, natts: nat,
                          ghost base: Contents, ghost stack: seq<Tuple>)
    returns (downlinks': seq<D>, ghost which: seq<nat>, ghost ds: seq<seq<D>>)
    requires b.Valid() && Temp in b.tab && OpsOk(ops, natts) && natts > 0 && |targets| == |downlinks| > 0
    requires forall i | 0 <= i < |targets| :: Node(targets[i]) in b.tab
    requires Dealing(base, b.Content(), stack, targets, []) && b.nFileBlocks + |stack| <= NONE
    modifies b
    ensures b.Valid() && b.tab.Keys == old(b.tab.Keys) && |which| == |stack| && |downlinks'| == |downlinks|
    ensures Dealing(base, b.Content(), stack, targets, which) && Covering(ops, downlinks', stack, which)
    ensures DealtBest(ops, ds, stack, which, natts) && ds[0] == downlinks && ds[|which|] == downlinks'
  {
    downlinks', which, ds := downlinks, [], [downlinks];
    var done := false;
    while !done
      invariant b.Valid() && b.tab.Keys == old(b.tab.Keys) && |downlinks'| == |downlinks|
      invariant Dealing(base, b.Content(), stack, targets, which) && Covering(ops, downlinks', stack, which)
      invariant DealtBest(ops, ds, stack, which, natts) && ds[0] == downlinks && ds[|which|] == downlinks'
      invariant b.nFileBlocks + |stack| - |which| <= NONE && (done ==> |which| == |stack|)
      decreases |stack| - |which|, !done
    {
      done, downlinks', which, ds := DealNext(b, targets, downlinks', ops, natts, base, stack, which, ds);
    }
  }

  /** The split page's tuples are set aside and every new page has a buffer. */
  ghost predicate Prepared(m: Contents, base: Contents, blk: nat, targets: seq<nat>)
    requires Node(blk) in m
  {
    && (forall k :: k in base <==> k in m || k == Temp || (k.Node? && k.blk in targets))
    && Temp in base && base[Temp] == m[Node(blk)]
    && forall k | k in base && k.Node? :: base[k] == Before(m, blk, k)
  }

  method Prepare(b: BuildBuffers, blk: nat, targets: seq<nat>)
    requires b.Valid() && Temp !in b.tab && Node(blk) in b.tab && Node(blk) in b.Content()
    modifies b
    ensures b.Valid() && Temp in b.tab && forall i | 0 <= i < |targets| :: Node(targets[i]) in b.tab
    ensures b.nFileBlocks == old(b.nFileBlocks) && b.Content().Keys == b.tab.Keys
    ensures Prepared(old(b.Content()), b.Content(), blk, targets)
  {
    ghost var m := b.Content();
    ContentKeys(b);
    b.SetAside(Node(blk));
    ghost var m1 := b.Content();
    ContentKeys(b);
    GetBuffers(b, targets);
    ContentKeys(b);
    PreparedFrom(m, m1, b.Content(), blk, targets);
    AllThere(b.tab.Keys, targets);
  }

  lemma PreparedFrom(m: Contents, m1: Contents, base: Contents, blk: nat, targets: seq<nat>)
    requires Node(blk) in m && Temp !in m && m1 == m[Temp := m[Node(blk)]][Node(blk) := []]
    requires Added(m1, base, targets, |targets|)
    ensures Prepared(m, base, blk, targets)
    ensures forall k: Key | k.Node? && k.blk in targets :: k in base.Keys
  {
    assert targets[..|targets|] == targets;
  }

  lemma DealingStarts(base: Contents, stack: seq<Tuple>, targets: seq<nat>)
    requires Temp in base && base[Temp] == stack
    ensures Dealing(base, base, stack, targets, [])
  {
    assert stack[..|stack|] == stack;
  }

  lemma RelocationDone(m: Contents, base: Contents, m1: Contents, m': Contents, blk: nat, targets: seq<nat>, which: seq<nat>)
    requires Node(blk) in m && Temp !in m && Prepared(m, base, blk, targets)
    requires Dealing(base, m1, m[Node(blk)], targets, which) && |which| == |m[Node(blk)]| && m' == m1 - {Temp}
    ensures Relocated(m, m', blk, targets, which)
  {
  }

  /** Deals the tuples of a split page's buffer out to the new pages. */
  method Relocate<D(!new)>(b: BuildBuffers, blk: nat, targets: seq<nat>, downlinks: seq<D>, ops: Ops<D>, natts: nat)
    returns (downlinks': seq<D>, ghost which: seq<nat>, ghost ds: seq<seq<D>>)
    requires b.Valid() && Temp !in b.tab && OpsOk(ops, natts) && natts > 0 && |targets| == |downlinks| > 0
    requires Node(blk) in b.tab ==> Node(blk) in b.Content() && b.nFileBlocks + |b.Content()[Node(blk)]| <= NONE
    modifies b
    ensures b.Valid() && Temp !in b.tab
    ensures Node(blk) !in old(b.tab) ==> b.State() == old(b.State()) && downlinks' == downlinks
    ensures Node(blk) in old(b.tab) ==> Relocated(old(b.Content()), b.Content(), blk, targets, which)
    ensures Node(blk) in old(b.tab) ==> |downlinks'| == |downlinks| && Covering(ops, downlinks', old(b.Content())[Node(blk)], which)
    ensures Node(blk) in old(b.tab) ==> DealtBest(ops, ds, old(b.Content())[Node(blk)], which, natts)
    ensures ds != [] && ds[0] == downlinks && ds[|ds| - 1] == downlinks'
  {
    if Node(blk) !in b.tab {
      return downlinks, [], [downlinks];
    }
    ghost var m := b.Content();
    Prepare(b, blk, targets);
    ghost var base := b.Content();
    DealingStarts(base, m[Node(blk)], targets);
    downlinks', which, ds := DealAll(b, targets, downlinks, ops, natts, base, m[Node(blk)]);
    ghost var m1 := b.Content();
    b.DropCopy();
    RelocationDone(m, base, m1, b.Content(), blk, targets, which);
  }
}
