/** Splitting a full leaf chain of the radix tree: forming the new inner tuple, dividing
    the node groups over two pages, and putting the tuples back. */
module TextSplit {
  import opened TextStrings
  import opened TextTree
  import opened TextChoose

  // ---- sizes ----

  /** The space of the first `n` values, and of those among them that belong to node `g`. */
  function Total(rests: seq<Str>, n: nat, ps: Params): nat
    requires n <= |rests|
  {
    if n == 0 then 0 else Total(rests, n - 1, ps) + ps.leafSize(|rests[n - 1]|)
  }

  function GroupSize(rests: seq<Str>, mapping: seq<nat>, n: nat, g: nat, ps: Params): nat
    requires n <= |rests| && n <= |mapping|
  {
    if n == 0 then 0 else
      GroupSize(rests, mapping, n - 1, g, ps) + if mapping[n - 1] == g then ps.leafSize(|rests[n - 1]|) else 0
  }

  function Sum(s: seq<nat>, n: nat): nat
    requires n <= |s|
  {
    if n == 0 then 0 else Sum(s, n - 1) + s[n - 1]
  }

  lemma {:induction false} SumUpdate(s: seq<nat>, n: nat, g: nat, x: nat)
    requires n <= |s| && g < |s|
    ensures Sum(s[g := x], n) + (if g < n then s[g] else 0) == Sum(s, n) + if g < n then x else 0
    decreases n
  {
    if n > 0 {
      SumUpdate(s, n - 1, g, x);
    }
  }

  lemma {:induction false} SumOfZeros(s: seq<nat>, n: nat)
    requires n <= |s| && forall k | 0 <= k < |s| :: s[k] == 0
    ensures Sum(s, n) == 0
    decreases n
  {
    if n > 0 { SumOfZeros(s, n - 1); }
  }

  lemma {:induction false} PartOfSum(s: seq<nat>, n: nat, k: nat)
    requires k < n <= |s|
    ensures s[k] <= Sum(s, n)
    decreases n
  {
    if k < n - 1 { PartOfSum(s, n - 1, k); }
  }

  // ---- dividing the groups over the current page and a new one ----

  /** The room that the first `n` groups need on one of the two pages: `sel` is false for the
      current page and true for the new one. */
  function OnPage(sizes: seq<nat>, sel: seq<bool>, page: bool, n: nat): nat
    requires n <= |sizes| && n <= |sel|
  {
    if n == 0 then 0 else OnPage(sizes, sel, page, n - 1) + if sel[n - 1] == page then sizes[n - 1] else 0
  }

  /** The groups put on each page fit there together. */
  ghost predicate PagesHold(sizes: seq<nat>, sel: seq<bool>, currentFree: nat, newFree: nat) {
    && |sel| == |sizes|
    && OnPage(sizes, sel, false, |sizes|) <= currentFree && OnPage(sizes, sel, true, |sizes|) <= newFree
  }

  lemma {:induction false} OnPageNext(sizes: seq<nat>, sel: seq<bool>, b: bool, page: bool, n: nat)
    requires n <= |sizes| && n <= |sel|
    ensures OnPage(sizes, sel + [b], page, n) == OnPage(sizes, sel, page, n)
  {
    if n > 0 { OnPageNext(sizes, sel, b, page, n - 1); }
  }

  lemma {:induction false} BothPages(sizes: seq<nat>, sel: seq<bool>, n: nat)
    requires n <= |sizes| && n <= |sel|
    ensures OnPage(sizes, sel, false, n) + OnPage(sizes, sel, true, n) == Sum(sizes, n)
  {
    if n > 0 { BothPages(sizes, sel, n - 1); }
  }

  lemma {:induction false} AllOnCurrent(sizes: seq<nat>, sel: seq<bool>, n: nat)
    requires n <= |sizes| && n <= |sel| && forall g | 0 <= g < |sel| :: !sel[g]
    ensures OnPage(sizes, sel, false, n) == Sum(sizes, n) && OnPage(sizes, sel, true, n) == 0
  {
    if n > 0 { AllOnCurrent(sizes, sel, n - 1); }
  }

  lemma {:induction false} SumGrows(s: seq<nat>, m: nat, n: nat)
    requires m <= n <= |s|
    ensures Sum(s, m) <= Sum(s, n)
    decreases n
  {
    if m < n { SumGrows(s, m, n - 1); }
  }

  /** A group goes to the current page if it fits there beside those put there before. */
  ghost predicate Greedy(sizes: seq<nat>, sel: seq<bool>, currentFree: nat, n: nat)
    requires n <= |sizes| && n <= |sel|
  {
    forall g | 0 <= g < n :: sel[g] <==> OnPage(sizes, sel, false, g) + sizes[g] > currentFree
  }

  lemma GreedyNext(sizes: seq<nat>, sel: seq<bool>, b: bool, currentFree: nat)
    requires |sel| < |sizes| && Greedy(sizes, sel, currentFree, |sel|)
    requires b <==> OnPage(sizes, sel, false, |sel|) + sizes[|sel|] > currentFree
    ensures Greedy(sizes, sel + [b], currentFree, |sel| + 1)
  {
    forall g | 0 <= g < |sel| + 1 ensures OnPage(sizes, sel + [b], false, g) == OnPage(sizes, sel, false, g) {
      OnPageNext(sizes, sel, b, false, g);
    }
  }

  /** Puts each group on the current page if it still fits there, else on the new page;
      succeeds exactly if the new page does not overflow. */
  method DivideGroups(leafSizes: array<nat>, currentFree: nat, newFree: nat) returns (ok: bool, sel: seq<bool>)
    ensures |sel| == leafSizes.Length && Greedy(leafSizes[..], sel, currentFree, |sel|)
    ensures OnPage(leafSizes[..], sel, false, |sel|) <= currentFree
    ensures ok <==> PagesHold(leafSizes[..], sel, currentFree, newFree)
    ensures Sum(leafSizes[..], leafSizes.Length) <= newFree ==> ok
  {
    var curspace: int, newspace: int := currentFree, newFree;
    ghost var sizes := leafSizes[..];
    sel := [];
    var i := 0;
    while i < leafSizes.Length
      invariant 0 <= i == |sel| <= leafSizes.Length && Greedy(sizes, sel, currentFree, i)
      invariant curspace == currentFree - OnPage(sizes, sel, false, i) >= 0
      invariant newspace == newFree - OnPage(sizes, sel, true, i)
    {
      var toNew := !(leafSizes[i] <= curspace);
      GreedyNext(sizes, sel, toNew, currentFree);
      OnPageNext(sizes, sel, toNew, false, i);
      OnPageNext(sizes, sel, toNew, true, i);
      if toNew {
        newspace := newspace - leafSizes[i];
      } else {
        curspace := curspace - leafSizes[i];
      }
      sel := sel + [toNew];
      i := i + 1;
    }
    BothPages(sizes, sel, i);
    ok := curspace >= 0 && newspace >= 0;
  }

  method GroupSizes(rests: seq<Str>, mapping: seq<nat>, n: nat, nNodes: nat, ps: Params) returns (leafSizes: array<nat>)
    requires n <= |rests| == |mapping| && forall i | 0 <= i < |mapping| :: mapping[i] < nNodes
    ensures fresh(leafSizes) && leafSizes.Length == nNodes
    ensures forall g | 0 <= g < nNodes :: leafSizes[g] == GroupSize(rests, mapping, n, g, ps)
    ensures Sum(leafSizes[..], nNodes) == Total(rests, n, ps)
  {
    leafSizes := new nat[nNodes](_ => 0);
    SumOfZeros(leafSizes[..], nNodes);
    var i := 0;
    while i < n
      invariant 0 <= i <= n
      invariant forall g | 0 <= g < nNodes :: leafSizes[g] == GroupSize(rests, mapping, i, g, ps)
      invariant Sum(leafSizes[..], nNodes) == Total(rests, i, ps)
    {
      var g, size := mapping[i], ps.leafSize(|rests[i]|);
      SumUpdate(leafSizes[..], nNodes, g, leafSizes[g] + size);
      ghost var before := leafSizes[..];
      leafSizes[g] := leafSizes[g] + size;
      assert leafSizes[..] == before[g := before[g] + size];
      i := i + 1;
    }
  }

  // ---- putting the tuples into the nodes ----

  lemma {:induction false} FiledFront(x: Item, items: seq<Item>, acc: Str)
    ensures Filed([x] + items, acc) == Filed(items, acc) + multiset{(acc + x.rest, x.tid)}
    decreases |items|
  {
    if items == [] {
      assert [x] + items == [x];
      assert [x][..0] == [];
    } else {
      var r := items[..|items| - 1];
      assert ([x] + items)[..|items|] == [x] + r;
      FiledFront(x, r, acc);
    }
  }

  lemma {:induction false} ChainSizeFront(x: Item, items: seq<Item>, ps: Params)
    ensures ChainSize([x] + items, ps) == ChainSize(items, ps) + ps.leafSize(|x.rest|)
    decreases |items|
  {
    if items == [] {
      assert [x] + items == [x];
      assert [x][..0] == [];
    } else {
      assert ([x] + items)[..|items|] == [x] + items[..|items| - 1];
      ChainSizeFront(x, items[..|items| - 1], ps);
    }
  }

  /** How many of the first `n` values belong to node `g`. */
  function Tally(mapping: seq<nat>, n: nat, g: nat): nat
    requires n <= |mapping|
  {
    if n == 0 then 0 else Tally(mapping, n - 1, g) + if mapping[n - 1] == g then 1 else 0
  }

  lemma {:induction false} TallyBound(mapping: seq<nat>, n: nat, g: nat)
    requires n <= |mapping|
    ensures Tally(mapping, n, g) <= n
    ensures (exists k :: 0 <= k < n && mapping[k] != g) ==> Tally(mapping, n, g) < n
    decreases n
  {
    if n > 0 {
      TallyBound(mapping, n - 1, g);
    }
  }

  lemma SeveralTally(mapping: seq<nat>, n: nat, g: nat)
    requires SeveralNodes(mapping, n)
    ensures Tally(mapping, n, g) < n
  {
    TallyBound(mapping, n, g);
    var j, k :| 0 <= j < k < n && mapping[j] != mapping[k];
    assert mapping[j] != g || mapping[k] != g;
  }

  function EmptyNodes(prefix: Str, same: bool, labels: seq<int>): Tree {
    Inner(prefix, same, labels, seq(|labels|, _ => Leaf([])))
  }

  lemma {:induction false} EmptyStored(t: Tree, n: nat, acc: Str)
    requires t.Inner? && n <= |t.children| && forall i | 0 <= i < |t.children| :: t.children[i] == Leaf([])
    ensures StoredIn(t, n, acc) == multiset{} && CountIn(t, n) == 0 && DepthIn(t, n) == 0
    decreases n
  {
    if n > 0 {
      EmptyStored(t, n - 1, acc);
      assert t.children[n - 1] == Leaf([]);
    }
  }

  /** The node groups after the first `i` tuples have been put in. */
  ghost predicate Grouped(t: Tree, prefix: Str, same: bool, labels: seq<int>, tuples: seq<Item>, rests: seq<Str>,
                          mapping: seq<nat>, i: nat, ps: Params)
    requires i <= |tuples| && i <= |rests| && i <= |mapping|
  {
    && t.Inner? && t.prefix == prefix && t.allTheSame == same && t.labels == labels && |t.children| == |labels|
    && forall g | 0 <= g < |labels| ::
         && t.children[g].Leaf? && |t.children[g].items| == Tally(mapping, i, g)
         && ChainSize(t.children[g].items, ps) == GroupSize(rests, mapping, i, g, ps)
  }

  lemma GroupStep(t: Tree, prefix: Str, same: bool, labels: seq<int>, tuples: seq<Item>, rests: seq<Str>,
                  mapping: seq<nat>, i: nat, ps: Params)
    requires i < |tuples| && i < |rests| && i < |mapping| && mapping[i] < |labels|
    requires Grouped(t, prefix, same, labels, tuples, rests, mapping, i, ps)
    ensures Grouped(WithChild(t, mapping[i], Leaf([Item(rests[i], tuples[i].tid)] + t.children[mapping[i]].items)),
                    prefix, same, labels, tuples, rests, mapping, i + 1, ps)
  {
    ChainSizeFront(Item(rests[i], tuples[i].tid), t.children[mapping[i]].items, ps);
  }

  lemma GroupStepStored(t: Tree, g: nat, x: Item, whole: Str, acc: Str)
    requires t.Inner? && g < |t.children| == |t.labels| && t.children[g].Leaf? && IsLabel(t.labels[g])
    requires whole == t.prefix + LabelBytes(t.labels[g]) + x.rest
    ensures Stored(WithChild(t, g, Leaf([x] + t.children[g].items)), acc)
            == Stored(t, acc) + multiset{(acc + whole, x.tid)}
  {
    var b, c := acc + t.prefix + NodeBytes(t, g), Leaf([x] + t.children[g].items);
    FiledFront(x, t.children[g].items, b);
    assert b + x.rest == acc + whole;
    StoredWithChild(t, g, c, |t.children|, acc + t.prefix, multiset{(acc + whole, x.tid)});
  }

  /** Prefix, label and the value's rest spell out the old datum. */
  ghost predicate ValueSpelled(prefix: Str, labels: seq<int>, tuples: seq<Item>, rests: seq<Str>, mapping: seq<nat>, i: nat) {
    && i < |tuples| && i < |rests| && i < |mapping| && mapping[i] < |labels| && IsLabel(labels[mapping[i]])
    && tuples[i].rest == prefix + LabelBytes(labels[mapping[i]]) + rests[i]
  }

  lemma NodeFilled(t: Tree, prefix: Str, same: bool, labels: seq<int>, tuples: seq<Item>, rests: seq<Str>,
                   mapping: seq<nat>, i: nat, ps: Params, acc: Str)
    requires ValueSpelled(prefix, labels, tuples, rests, mapping, i)
    requires Grouped(t, prefix, same, labels, tuples, rests, mapping, i, ps) && Stored(t, acc) == Filed(tuples[..i], acc)
    ensures var t' := WithChild(t, mapping[i], Leaf([Item(rests[i], tuples[i].tid)] + t.children[mapping[i]].items));
            Grouped(t', prefix, same, labels, tuples, rests, mapping, i + 1, ps) && Stored(t', acc) == Filed(tuples[..i + 1], acc)
  {
    GroupStep(t, prefix, same, labels, tuples, rests, mapping, i, ps);
    GroupStepStored(t, mapping[i], Item(rests[i], tuples[i].tid), tuples[i].rest, acc);
    assert tuples[..i + 1][..i] == tuples[..i] && tuples[..i + 1][i] == tuples[i];
  }

  method FillNodes(prefix: Str, same: bool, labels: seq<int>, tuples: seq<Item>, rests: seq<Str>, mapping: seq<nat>,
                   n: nat, ps: Params, ghost acc: Str)
    returns (t: Tree)
    requires n <= |tuples| && n <= |rests| && n <= |mapping|
    requires forall i {:trigger ValueSpelled(prefix, labels, tuples, rests, mapping, i)} | 0 <= i < n ::
               ValueSpelled(prefix, labels, tuples, rests, mapping, i)
    ensures Grouped(t, prefix, same, labels, tuples, rests, mapping, n, ps)
    ensures Stored(t, acc) == Filed(tuples[..n], acc)
  {
    t := EmptyNodes(prefix, same, labels);
    EmptyStored(t, |t.children|, acc + prefix);
    var i := 0;
    while i < n
      invariant 0 <= i <= n
      invariant Grouped(t, prefix, same, labels, tuples, rests, mapping, i, ps)
      invariant Stored(t, acc) == Filed(tuples[..i], acc)
    {
      assert ValueSpelled(prefix, labels, tuples, rests, mapping, i);
      var g := mapping[i];
      NodeFilled(t, prefix, same, labels, tuples, rests, mapping, i, ps, acc);
      t := WithChild(t, g, Leaf([Item(rests[i], tuples[i].tid)] + t.children[g].items));
      i := i + 1;
    }
  }

  // ---- the whole split ----

  function Datums(tuples: seq<Item>): (r: seq<Str>)
    ensures |r| == |tuples| && forall i | 0 <= i < |tuples| :: r[i] == tuples[i].rest
  {
    seq(|tuples|, i requires 0 <= i < |tuples| => tuples[i].rest)
  }

  /** Stripped values need no more room than the chain they come from. */
  lemma {:induction false} StrippedFits(tuples: seq<Item>, rests: seq<Str>, n: nat, ps: Params)
    requires ParamsOk(ps) && n <= |tuples| && n <= |rests| && forall i | 0 <= i < n :: |rests[i]| <= |tuples[i].rest|
    ensures Total(rests, n, ps) <= ChainSize(tuples[..n], ps)
  {
    if n > 0 {
      StrippedFits(tuples, rests, n - 1, ps);
      assert tuples[..n][..n - 1] == tuples[..n - 1];
    } else {
      assert tuples[..0] == [];
    }
  }

  lemma {:induction false} GroupInTotal(rests: seq<Str>, mapping: seq<nat>, n: nat, g: nat, ps: Params)
    requires n <= |rests| && n <= |mapping|
    ensures GroupSize(rests, mapping, n, g, ps) <= Total(rests, n, ps)
  {
    if n > 0 {
      GroupInTotal(rests, mapping, n - 1, g, ps);
    }
  }

  /** A page found for a request has at least the room asked for. */
  ghost predicate PagesOk(getPage: nat -> nat, ps: Params) {
    forall request: nat | request <= ps.capacity :: request <= getPage(request) <= ps.capacity
  }

  /** `sel` says for each node which page its tuples go to, `newFree` is the room on the
      other page, if one was needed. */
  datatype Split = SplitDone(inserted: bool, sel: seq<bool>, newFree: nat) | SplitFailed

  function Sizes(rests: seq<Str>, mapping: seq<nat>, n: nat, nNodes: nat, ps: Params): (r: seq<nat>)
    requires n <= |rests| && n <= |mapping|
    ensures |r| == nNodes
  {
    seq(nNodes, g requires 0 <= g < nNodes => GroupSize(rests, mapping, n, g, ps))
  }

  /** The size of the chain below each node. */
  function ChainSizes(t: Tree, ps: Params): (r: seq<nat>)
    requires t.Inner?
    ensures |r| == |t.children|
  {
    seq(|t.children|, g requires 0 <= g < |t.children| => if t.children[g].Leaf? then ChainSize(t.children[g].items, ps) else 0)
  }

  lemma ChainsAreGroups(t: Tree, prefix: Str, same: bool, labels: seq<int>, tuples: seq<Item>, rests: seq<Str>,
                        mapping: seq<nat>, n: nat, ps: Params)
    requires n <= |tuples| && n <= |rests| && n <= |mapping| && Grouped(t, prefix, same, labels, tuples, rests, mapping, n, ps)
    ensures ChainSizes(t, ps) == Sizes(rests, mapping, n, |labels|, ps)
  {
  }

  /** A group on a page takes no more than the page has. */
  lemma {:induction false} OneOnPage(sizes: seq<nat>, sel: seq<bool>, g: nat, n: nat)
    requires g < n <= |sizes| && n <= |sel|
    ensures sizes[g] <= OnPage(sizes, sel, sel[g], n)
  {
    if g < n - 1 { OneOnPage(sizes, sel, g, n - 1); }
  }

  lemma GroupsFit(rests: seq<Str>, mapping: seq<nat>, n: nat, nNodes: nat, ps: Params, sel: seq<bool>, currentFree: nat, newFree: nat)
    requires n <= |rests| && n <= |mapping| && currentFree <= ps.capacity && newFree <= ps.capacity
    requires PagesHold(Sizes(rests, mapping, n, nNodes, ps), sel, currentFree, newFree)
    ensures forall g | 0 <= g < nNodes :: GroupSize(rests, mapping, n, g, ps) <= ps.capacity
  {
    var sizes := Sizes(rests, mapping, n, nNodes, ps);
    forall g | 0 <= g < nNodes ensures GroupSize(rests, mapping, n, g, ps) <= ps.capacity {
      OneOnPage(sizes, sel, g, nNodes);
    }
  }

  /** Decides whether the new value, the last one, can go in with the split, and which page
      each node's group goes to, from the room on the current page and on a fresh one. */
  method PlaceGroups(rests: seq<Str>, mapping: seq<nat>, nNodes: nat, includeNew: bool, ps: Params,
                     currentFree: nat, getPage: nat -> nat)
    returns (r: Split)
    requires rests != [] && |rests| == |mapping| && forall i | 0 <= i < |mapping| :: mapping[i] < nNodes
    requires currentFree <= ps.capacity && PagesOk(getPage, ps)
    requires Total(rests, |rests| - 1, ps) <= ps.capacity
    ensures r.SplitDone? && r.newFree <= ps.capacity
    ensures r.inserted ==> includeNew
    ensures includeNew && Total(rests, |rests|, ps) <= ps.capacity ==> r.inserted
    ensures var n := if r.inserted then |rests| else |rests| - 1;
            PagesHold(Sizes(rests, mapping, n, nNodes, ps), r.sel, currentFree, r.newFree)
  {
    var nOld := |rests| - 1;
    var maxToInclude := if includeNew then |rests| else nOld;
    var leafSizes := GroupSizes(rests, mapping, maxToInclude, nNodes, ps);
    var total := TotalSize(rests, maxToInclude, ps);
    assert leafSizes[..] == Sizes(rests, mapping, maxToInclude, nNodes, ps);
    var current := seq(nNodes, _ => false);
    AllOnCurrent(leafSizes[..], current, nNodes);
    if total <= currentFree {
      return SplitDone(includeNew, current, 0);
    }
    if |rests| == 1 && total > ps.capacity {
      NothingPlaced(rests, mapping, nNodes, ps, current);
      return SplitDone(false, current, 0);
    }
    r := PlaceOnTwo(rests, mapping, nNodes, includeNew, ps, currentFree, getPage, leafSizes, total);
  }

  /** A single old value that is too long leaves all nodes empty. */
  lemma NothingPlaced(rests: seq<Str>, mapping: seq<nat>, nNodes: nat, ps: Params, sel: seq<bool>)
    requires |sel| == nNodes && forall g | 0 <= g < nNodes :: !sel[g]
    ensures PagesHold(Sizes(rests, mapping, 0, nNodes, ps), sel, 0, 0)
  {
    AllOnCurrent(Sizes(rests, mapping, 0, nNodes, ps), sel, nNodes);
    SumOfZeros(Sizes(rests, mapping, 0, nNodes, ps), nNodes);
  }

  /** Another leaf page is needed; if the groups cannot be divided, the new value has to go. */
  method PlaceOnTwo(rests: seq<Str>, mapping: seq<nat>, nNodes: nat, includeNew: bool, ps: Params, currentFree: nat,
                    getPage: nat -> nat, leafSizes: array<nat>, total: nat)
    returns (r: Split)
    requires rests != [] && |rests| == |mapping| && forall i | 0 <= i < |mapping| :: mapping[i] < nNodes
    requires PagesOk(getPage, ps) && Total(rests, |rests| - 1, ps) <= ps.capacity
    requires var n := if includeNew then |rests| else |rests| - 1;
             leafSizes[..] == Sizes(rests, mapping, n, nNodes, ps) && total == Total(rests, n, ps) == Sum(leafSizes[..], nNodes)
    modifies leafSizes
    ensures r.SplitDone? && r.newFree <= ps.capacity
    ensures r.inserted ==> includeNew
    ensures includeNew && Total(rests, |rests|, ps) <= ps.capacity ==> r.inserted
    ensures var n := if r.inserted then |rests| else |rests| - 1;
            PagesHold(Sizes(rests, mapping, n, nNodes, ps), r.sel, currentFree, r.newFree)
  {
    var newFree := getPage(if total < ps.capacity then total else ps.capacity);
    var ok, sel := DivideGroups(leafSizes, currentFree, newFree);
    if ok {
      return SplitDone(includeNew, sel, newFree);
    }
    if includeNew {
      TakeOut(rests, mapping, nNodes, ps, leafSizes);
      ok, sel := DivideGroups(leafSizes, currentFree, newFree);
      if !ok {
        return SplitFailed;
      }
      return SplitDone(false, sel, newFree);
    }
    return SplitFailed;
  }

  /** The new value is taken out of its group again. */
  method TakeOut(rests: seq<Str>, mapping: seq<nat>, nNodes: nat, ps: Params, leafSizes: array<nat>)
    requires rests != [] && |rests| == |mapping| && forall i | 0 <= i < |mapping| :: mapping[i] < nNodes
    requires leafSizes[..] == Sizes(rests, mapping, |rests|, nNodes, ps)
    requires Sum(leafSizes[..], nNodes) == Total(rests, |rests|, ps)
    modifies leafSizes
    ensures leafSizes[..] == Sizes(rests, mapping, |rests| - 1, nNodes, ps)
    ensures Sum(leafSizes[..], nNodes) == Total(rests, |rests| - 1, ps)
  {
    var nOld := |rests| - 1;
    var g, size := mapping[nOld], ps.leafSize(|rests[nOld]|);
    ghost var before := leafSizes[..];
    assert leafSizes[g] == before[g];
    SumUpdate(before, nNodes, g, before[g] - size);
    leafSizes[g] := leafSizes[g] - size;
    assert leafSizes[..] == before[g := before[g] - size];
  }

  method TotalSize(rests: seq<Str>, n: nat, ps: Params) returns (total: nat)
    requires n <= |rests|
    ensures total == Total(rests, n, ps)
  {
    total := 0;
    var i := 0;
    while i < n
      invariant 0 <= i <= n && total == Total(rests, i, ps)
    {
      total := total + ps.leafSize(|rests[i]|);
      i := i + 1;
    }
  }
}
