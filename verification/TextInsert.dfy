/** Inserting a string into the radix tree: the descent from the root, with node
    additions, prefix splits and leaf splits on the way. */
module TextInsert {
  import opened TextStrings
  import opened TextTree
  import opened TextChoose
  import opened TextSplit

  // ---- splitting a leaf ----

  /** What a leaf split leaves behind for a new value that it did not take in. */
  ghost predicate SplitLeftOver(t: Tree, items: seq<Item>, rest: Str)
    requires t.Inner? && |t.children| == |t.labels|
  {
    && t.prefix <= rest && (items == [] ==> NextLabel(rest, |t.prefix|) in t.labels)
    && forall i | 0 <= i < |t.children| :: LeftOverAt(t, items, rest, i)
  }

  ghost predicate LeftOverAt(t: Tree, items: seq<Item>, rest: Str, i: nat)
    requires t.Inner? && i < |t.children| == |t.labels| && t.prefix <= rest
  {
    || CountItems(t.children[i]) < |items|
    || (|items| < 2 && CountItems(t.children[i]) == |items| && (t.labels[i] == NextLabel(rest, |t.prefix|) ==> t.labels[i] > 0))
  }

  /** The operator class's split of a chain and a new value, after the core's check. */
  datatype Formed = Formed(prefix: Str, labels0: seq<int>, mapping0: seq<nat>, rests: seq<Str>,
                           same: bool, includeNew: bool, labels: seq<int>, mapping: seq<nat>)

  ghost predicate FormedOk(f: Formed, items: seq<Item>, x: Item, ps: Params) {
    && SplitOk(Datums(items + [x]), f.prefix, f.labels0, f.mapping0, f.rests)
    && |f.mapping| == |items| + 1 && (forall i | 0 <= i < |f.mapping| :: f.mapping[i] < |f.labels|)
    && (forall i | 0 <= i < |items| :: f.labels[f.mapping[i]] == f.labels0[f.mapping0[i]])
    && (f.includeNew ==> f.labels[f.mapping[|items|]] == f.labels0[f.mapping0[|items|]])
    && (if f.same then items != [] && |f.labels| == 8 && AllEqual(f.labels) && f.labels[0] in f.labels0 else f.labels == f.labels0)
    && (!f.includeNew ==> Total(f.rests, |f.rests|, ps) > ps.capacity)
    && (Total(f.rests, |f.rests|, ps) > ps.capacity && |items| >= 2 ==> SeveralNodes(f.mapping, |items|))
  }

  method FormSplit(items: seq<Item>, x: Item, ps: Params, maxPrefix: nat) returns (f: Formed)
    ensures FormedOk(f, items, x, ps)
  {
    var datums := Datums(items + [x]);
    var prefix, labels0, mapping0, rests := PickSplit(datums, maxPrefix);
    var tooBig := TooBig(rests, ps);
    var same, includeNew, labels, mapping := CheckAllTheSame(labels0, mapping0, tooBig);
    f := Formed(prefix, labels0, mapping0, rests, same, includeNew, labels, mapping);
  }

  /** The new inner tuple holds the old entries, and the new one if it could be included. */
  method DoPickSplit(items: seq<Item>, x: Item, ps: Params, maxPrefix: nat, currentFree: nat, getPage: nat -> nat,
                     ghost acc: Str)
    returns (inner: Tree, inserted: bool, sel: seq<bool>, newFree: nat)
    requires ParamsOk(ps) && ChainSize(items, ps) <= ps.capacity
    requires currentFree <= ps.capacity && PagesOk(getPage, ps)
    ensures inner.Inner? && newFree <= ps.capacity && PagesHold(ChainSizes(inner, ps), sel, currentFree, newFree)
    ensures inner.Inner? && Valid(inner, ps)
    ensures Stored(inner, acc) == Filed(items, acc) + if inserted then multiset{(acc + x.rest, x.tid)} else multiset{}
    ensures !inserted ==> SplitLeftOver(inner, items, x.rest)
  {
    var f := FormSplit(items, x, ps, maxPrefix);
    OldTuplesFit(items, x, f, ps);
    var placed := PlaceGroups(f.rests, f.mapping, |f.labels|, f.includeNew, ps, currentFree, getPage);
    inserted, sel, newFree := placed.inserted, placed.sel, placed.newFree;
    var n := if inserted then |items| + 1 else |items|;
    LabelsKept(items, x, f, n, ps);
    GroupsFit(f.rests, f.mapping, n, |f.labels|, ps, sel, currentFree, newFree);
    inner := FillNodes(f.prefix, f.same, f.labels, items + [x], f.rests, f.mapping, n, ps, acc);
    SplitIsValid(inner, f.prefix, f.same, f.labels, items + [x], f.rests, f.mapping, n, ps);
    FiledTuples(items, x, acc);
    ChainsAreGroups(inner, f.prefix, f.same, f.labels, items + [x], f.rests, f.mapping, n, ps);
    if !inserted {
      LeftOver(inner, items, x, f, ps);
    }
  }

  lemma OldTuplesFit(items: seq<Item>, x: Item, f: Formed, ps: Params)
    requires ParamsOk(ps) && ChainSize(items, ps) <= ps.capacity && FormedOk(f, items, x, ps)
    ensures Total(f.rests, |items|, ps) <= ps.capacity
  {
    var n, datums := |items|, Datums(items + [x]);
    forall i | 0 <= i < n ensures |f.rests[i]| <= |items[i].rest| {
      assert datums[i] == items[i].rest;
      assert |datums[i]| >= |f.rests[i]|;
    }
    assert items[..n] == items;
    StrippedFits(items, f.rests, n, ps);
    assert ChainSize(items[..n], ps) == ChainSize(items, ps);
  }

  lemma FiledTuples(items: seq<Item>, x: Item, acc: Str)
    ensures Filed((items + [x])[..|items|], acc) == Filed(items, acc)
    ensures Filed((items + [x])[..|items| + 1], acc) == Filed(items, acc) + multiset{(acc + x.rest, x.tid)}
  {
    assert (items + [x])[..|items|] == items;
    assert (items + [x])[..|items| + 1] == items + [x];
  }

  lemma LeftOver(t: Tree, items: seq<Item>, x: Item, f: Formed, ps: Params)
    requires ParamsOk(ps) && FormedOk(f, items, x, ps) && Total(f.rests, |f.rests|, ps) > ps.capacity
    requires Grouped(t, f.prefix, f.same, f.labels, items + [x], f.rests, f.mapping, |items|, ps)
    ensures SplitLeftOver(t, items, x.rest)
  {
    AloneHasNode(items, x, f, ps);
    forall g | 0 <= g < |t.children| ensures LeftOverAt(t, items, x.rest, g) {
      LeftOverNode(t, items, x, f, ps, g);
    }
  }

  /** Why a value that was left out still makes progress: the old values are spread over
      several nodes, or the value loses at least one byte on the way down. */
  lemma LeftOverNode(t: Tree, items: seq<Item>, x: Item, f: Formed, ps: Params, g: nat)
    requires ParamsOk(ps) && FormedOk(f, items, x, ps) && Total(f.rests, |f.rests|, ps) > ps.capacity
    requires Grouped(t, f.prefix, f.same, f.labels, items + [x], f.rests, f.mapping, |items|, ps)
    requires g < |f.labels| && f.prefix <= x.rest
    ensures LeftOverAt(t, items, x.rest, g)
  {
    var datums, n := Datums(items + [x]), |items|;
    assert datums[n] == x.rest;
    TallyBound(f.mapping, n, g);
    if n >= 2 {
      SeveralTally(f.mapping, n, g);
    } else if f.labels[g] == NextLabel(x.rest, |f.prefix|) == -1 && Tally(f.mapping, n, g) == n {
      EmptyValuesFit(items, x, f, ps, g);
    }
  }

  /** At most two values, all used up by the prefix, would have fitted. */
  lemma EmptyValuesFit(items: seq<Item>, x: Item, f: Formed, ps: Params, g: nat)
    requires ParamsOk(ps) && FormedOk(f, items, x, ps) && |items| < 2 && g < |f.labels| && f.prefix <= x.rest
    requires f.labels[g] == NextLabel(x.rest, |f.prefix|) == -1 && Tally(f.mapping, |items|, g) == |items|
    ensures Total(f.rests, |f.rests|, ps) <= ps.capacity
  {
    var datums, n := Datums(items + [x]), |items|;
    assert datums[n] == x.rest;
    EmptyRest(datums, f.prefix, f.labels0, f.mapping0, f.rests, n);
    if n == 1 {
      assert Tally(f.mapping, 0, g) == 0 && f.mapping[0] == g;
      EmptyRest(datums, f.prefix, f.labels0, f.mapping0, f.rests, 0);
    }
    assert |f.rests| == n + 1 && f.rests[n] == [] && f.rests[0] == [];
    SmallTotal(f.rests, ps);
  }

  /** A value split on its own has a node. */
  lemma AloneHasNode(items: seq<Item>, x: Item, f: Formed, ps: Params)
    requires FormedOk(f, items, x, ps)
    ensures f.prefix <= x.rest && (items == [] ==> NextLabel(x.rest, |f.prefix|) in f.labels)
  {
    var datums := Datums(items + [x]);
    assert datums[|items|] == x.rest;
    assert f.labels0[f.mapping0[|items|]] in f.labels0;
  }

  lemma SmallTotal(rests: seq<Str>, ps: Params)
    requires ParamsOk(ps) && 0 < |rests| <= 2 && rests[0] == rests[|rests| - 1] == []
    ensures Total(rests, |rests|, ps) <= ps.capacity
  {
    if |rests| > 0 {
      assert Total(rests, 1, ps) == ps.leafSize(0);
    }
  }

  lemma EmptyRest(datums: seq<Str>, prefix: Str, labels: seq<int>, mapping: seq<nat>, rests: seq<Str>, i: nat)
    requires SplitOk(datums, prefix, labels, mapping, rests) && i < |datums| && NextLabel(datums[i], |prefix|) == -1
    ensures rests[i] == []
  {
    assert labels[mapping[i]] == -1;
    assert |datums[i]| == |prefix| + |rests[i]|;
  }

  method TooBig(rests: seq<Str>, ps: Params) returns (tooBig: bool)
    ensures tooBig <==> Total(rests, |rests|, ps) > ps.capacity
  {
    var total := TotalSize(rests, |rests|, ps);
    tooBig := total > ps.capacity;
  }

  lemma LabelsKept(items: seq<Item>, x: Item, f: Formed, n: nat, ps: Params)
    requires FormedOk(f, items, x, ps) && n == if f.includeNew then n else |items|
    requires |items| <= n <= |items| + 1
    ensures GoodLabels(f.labels, f.same)
    ensures forall i {:trigger ValueSpelled(f.prefix, f.labels, items + [x], f.rests, f.mapping, i)} | 0 <= i < n ::
              ValueSpelled(f.prefix, f.labels, items + [x], f.rests, f.mapping, i)
  {
    var datums := Datums(items + [x]);
    if f.same {
      forall l | l in f.labels ensures l == f.labels[0] {
        var k :| 0 <= k < |f.labels| && f.labels[k] == l;
      }
    } else {
      assert f.mapping[0] < |f.labels|;
    }
    forall i | 0 <= i < n
      ensures IsLabel(f.labels[f.mapping[i]])
      ensures (items + [x])[i].rest == f.prefix + LabelBytes(f.labels[f.mapping[i]]) + f.rests[i]
    {
      assert datums[i] == (items + [x])[i].rest;
    }
  }

  lemma SplitIsValid(t: Tree, prefix: Str, same: bool, labels: seq<int>, tuples: seq<Item>, rests: seq<Str>,
                     mapping: seq<nat>, n: nat, ps: Params)
    requires n <= |tuples| && n <= |rests| && n <= |mapping|
    requires Grouped(t, prefix, same, labels, tuples, rests, mapping, n, ps) && GoodLabels(labels, same)
    requires forall g | 0 <= g < |labels| :: GroupSize(rests, mapping, n, g, ps) <= ps.capacity
    ensures Valid(t, ps)
  {
    forall g | 0 <= g < |t.children| ensures Valid(t.children[g], ps) {
      assert t.children[g].Leaf?;
    }
  }

  // ---- making an inner tuple match ----

  /** How far an inner tuple is from having a node for `s`: 2 if it must be split, 1 if a
      node must be added, 0 if it has one. */
  ghost function Phase(t: Tree, s: Str): nat
    requires t.Inner?
  {
    if !(t.prefix <= s) then 2
    else if NextLabel(s, |t.prefix|) in t.labels then 0
    else if t.allTheSame then 2 else 1
  }

  function AddedNode(t: Tree, nodeLabel: int, n: nat): Tree
    requires t.Inner? && n <= |t.labels| == |t.children|
  {
    Inner(t.prefix, t.allTheSame, t.labels[..n] + [nodeLabel] + t.labels[n..], t.children[..n] + [Leaf([])] + t.children[n..])
  }

  /** The part of the tuple below the split keeps all nodes. */
  function SplitInner(t: Tree, pp: Str, nodeLabel: int, post: Str): Tree
    requires t.Inner?
  {
    Inner(pp, false, [nodeLabel], [t.(prefix := post)])
  }

  ghost predicate SameNode(t: Tree, j: nat, u: Tree, k: nat)
    requires t.Inner? && u.Inner? && j < |t.children| && k < |u.children|
  {
    u.children[k] == t.children[j] && NodeBytes(u, k) == NodeBytes(t, j)
  }

  lemma NodeStored(t: Tree, m: nat, acc: Str)
    requires t.Inner? && 0 < m <= |t.children|
    ensures StoredIn(t, m, acc) == StoredIn(t, m - 1, acc) + Stored(t.children[m - 1], acc + NodeBytes(t, m - 1))
  {
  }

  lemma {:induction false} SameNodesStored(t: Tree, u: Tree, m: nat, acc: Str)
    requires t.Inner? && u.Inner? && m <= |t.children| && m <= |u.children|
    requires forall k: nat | k < m :: SameNode(t, k, u, k)
    ensures StoredIn(u, m, acc) == StoredIn(t, m, acc)
    decreases m
  {
    if m > 0 {
      SameNodesStored(t, u, m - 1, acc);
      assert SameNode(t, m - 1, u, m - 1);
      NodeStored(t, m, acc);
      NodeStored(u, m, acc);
    }
  }

  /** An empty node put in between adds nothing. */
  lemma {:induction false} ShiftedNodesStored(t: Tree, u: Tree, n: nat, m: nat, acc: Str)
    requires t.Inner? && u.Inner? && n <= m <= |t.children| && |u.children| == |t.children| + 1
    requires (forall k: nat | k < n :: SameNode(t, k, u, k)) && u.children[n] == Leaf([])
    requires forall k: nat, j: nat | n <= k < m && j == k + 1 :: SameNode(t, k, u, j)
    ensures StoredIn(u, m + 1, acc) == StoredIn(t, m, acc)
    decreases m
  {
    if m == n {
      SameNodesStored(t, u, n, acc);
      EmptyNodeStored(u, n, acc);
    } else {
      ShiftedNodesStored(t, u, n, m - 1, acc);
      ShiftedNode(t, u, m, acc);
    }
  }

  lemma EmptyNodeStored(u: Tree, n: nat, acc: Str)
    requires u.Inner? && n < |u.children| && u.children[n] == Leaf([])
    ensures StoredIn(u, n + 1, acc) == StoredIn(u, n, acc)
  {
    NodeStored(u, n + 1, acc);
    assert Stored(u.children[n], acc + NodeBytes(u, n)) == multiset{};
  }

  lemma ShiftedNode(t: Tree, u: Tree, m: nat, acc: Str)
    requires t.Inner? && u.Inner? && 0 < m <= |t.children| && m < |u.children| && SameNode(t, m - 1, u, m)
    requires StoredIn(u, m, acc) == StoredIn(t, m - 1, acc)
    ensures StoredIn(u, m + 1, acc) == StoredIn(t, m, acc)
  {
    NodeStored(u, m + 1, acc);
    NodeStored(t, m, acc);
  }

  lemma AddedNodeValid(t: Tree, u: Tree, nodeLabel: int, n: nat, ps: Params)
    requires Valid(t, ps) && t.Inner? && n <= |t.labels| && !t.allTheSame && u == AddedNode(t, nodeLabel, n)
    requires IsLabel(nodeLabel) && Increasing(u.labels)
    ensures Valid(u, ps)
  {
    forall l | l in u.labels ensures IsLabel(l) {
      assert l == nodeLabel || l in t.labels;
    }
    forall k | 0 <= k < |u.children| ensures Valid(u.children[k], ps) {
      assert u.children[k] == if k < n then t.children[k] else if k == n then Leaf([]) else t.children[k - 1];
    }
  }

  lemma AddedNodeIsEmpty(t: Tree, u: Tree, nodeLabel: int, n: nat)
    requires t.Inner? && n <= |t.labels| == |t.children| && u == AddedNode(t, nodeLabel, n) && Increasing(u.labels)
    ensures nodeLabel in u.labels
    ensures forall i | 0 <= i < |u.labels| :: u.labels[i] == nodeLabel ==> u.children[i] == Leaf([])
  {
    assert u.labels[n] == nodeLabel;
    forall i | 0 <= i < |u.labels| && i != n ensures u.labels[i] != nodeLabel {
      if i < n { assert u.labels[i] < u.labels[n]; } else { assert u.labels[n] < u.labels[i]; }
    }
  }

  lemma AddedNodeSame(t: Tree, u: Tree, nodeLabel: int, n: nat, acc: Str)
    requires t.Inner? && n <= |t.labels| == |t.children| && u == AddedNode(t, nodeLabel, n)
    ensures Stored(u, acc) == Stored(t, acc)
  {
    forall k: nat | k < n ensures SameNode(t, k, u, k) {
      assert u.labels[k] == t.labels[k];
    }
    forall k: nat, j: nat | n <= k < |t.children| && j == k + 1 ensures SameNode(t, k, u, j) {
      assert u.labels[j] == t.labels[k];
    }
    ShiftedNodesStored(t, u, n, |t.children|, acc + t.prefix);
  }

  lemma AddedNodeOk(t: Tree, u: Tree, nodeLabel: int, n: nat, s: Str, ps: Params, acc: Str)
    requires Valid(t, ps) && t.Inner? && n <= |t.labels| && !t.allTheSame && t.prefix <= s
    requires u == AddedNode(t, nodeLabel, n) && nodeLabel == NextLabel(s, |t.prefix|) && Increasing(u.labels)
    ensures Valid(u, ps) && Stored(u, acc) == Stored(t, acc) && Phase(u, s) == 0
    ensures forall i | 0 <= i < |u.labels| :: u.labels[i] == nodeLabel ==> u.children[i] == Leaf([])
  {
    AddedNodeSame(t, u, nodeLabel, n, acc);
    AddedNodeValid(t, u, nodeLabel, n, ps);
    AddedNodeIsEmpty(t, u, nodeLabel, n);
  }

  lemma SplitInnerOk(t: Tree, pp: Str, nodeLabel: int, post: Str, s: Str, ps: Params, acc: Str)
    requires Valid(t, ps) && t.Inner? && ChooseOk(t, s, SplitTuple(pp, nodeLabel, post))
    ensures var u := SplitInner(t, pp, nodeLabel, post);
      Valid(u, ps) && Stored(u, acc) == Stored(t, acc) && Phase(u, s) == 1
  {
    var u, low := SplitInner(t, pp, nodeLabel, post), t.(prefix := post);
    assert NodeBytes(u, 0) == LabelBytes(nodeLabel);
    assert acc + pp + LabelBytes(nodeLabel) + post == acc + t.prefix;
    forall k: nat | k < |t.children| ensures SameNode(t, k, low, k) { }
    SameNodesStored(t, low, |t.children|, acc + t.prefix);
    assert StoredIn(u, 0, acc + pp) == multiset{};
    assert StoredIn(u, 1, acc + pp) == Stored(low, acc + pp + LabelBytes(nodeLabel));
  }

  /** Splits the tuple or adds a node until it has one for the string, then picks that
      node; among identical nodes any may be picked. */
  method ProcessInner(t: Tree, datum: Str, level: nat, ps: Params, ghost acc: Str)
    returns (u: Tree, i: nat, levelAdd: nat, rest: Str)
    requires ParamsOk(ps) && t.Inner? && Valid(t, ps) && level <= |datum|
    ensures u.Inner? && Valid(u, ps) && Stored(u, acc) == Stored(t, acc)
    ensures i < |u.children| && u.prefix <= datum[level..] && u.labels[i] == NextLabel(datum[level..], |u.prefix|)
    ensures levelAdd == |u.prefix| + |LabelBytes(u.labels[i])| && level + levelAdd <= |datum|
    ensures rest == datum[level + levelAdd..]
    ensures u == t || (u.children[i] == Leaf([]) && Phase(t, datum[level..]) > 0)
  {
    u := t;
    ghost var s := datum[level..];
    while true
      invariant u.Inner? && Valid(u, ps) && Stored(u, acc) == Stored(t, acc)
      invariant u == t || Phase(t, s) > 0
      invariant u == t || Phase(u, s) == 1
                || (Phase(u, s) == 0 && forall k | 0 <= k < |u.labels| :: u.labels[k] == NextLabel(s, |u.prefix|) ==> u.children[k] == Leaf([]))
      decreases Phase(u, s)
    {
      var out := Choose(u, datum, level);
      match out {
        case MatchNode(n, add, restDatum) =>
          i, levelAdd, rest := n, add, restDatum;
          if u.allTheSame {
            i :| 0 <= i < |u.labels|;
          }
          return;
        case AddNode(nodeLabel, n) =>
          if u.allTheSame {
            assert false;
          }
          AddedNodeOk(u, AddedNode(u, nodeLabel, n), nodeLabel, n, s, ps, acc);
          u := AddedNode(u, nodeLabel, n);
        case SplitTuple(pp, nodeLabel, post) =>
          SplitInnerOk(u, pp, nodeLabel, post, s, ps, acc);
          u := SplitInner(u, pp, nodeLabel, post);
      }
    }
  }
}
