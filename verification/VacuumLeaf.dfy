/** Vacuuming a leaf page: scan, plan, check, carry out; and the replay of the plan. */
module VacuumLeaf {
  import opened LeafPage
  import opened Lists
  import opened LeafChains
  import opened VacuumPlan
  import opened VacuumPage
  import opened VacuumCounts

  type Callback = Tid -> bool

  /** The live tuples the caller wants removed. */
  ghost function Deletable<D>(p: Items<D>, callback: Callback): set<nat> {
    set o: nat | 1 <= o <= |p| && IsLive(p, o) && callback(At(p, o).heapPtr)
  }

  /** Why a page cannot be vacuumed, or what became of it. */
  datatype Outcome = BadLinks | NothingToDo | BadState | BadCounts | Done(plan: Plan)

  ghost predicate LinksOkBelow<D>(p: Items<D>, n: nat) {
    && (forall o | 1 <= o < n && IsLive(p, o) && NextOf(p, o) != 0 :: InPage(p, NextOf(p, o)))
    && forall o, q | 1 <= o < q < n && IsLive(p, o) && IsLive(p, q) && NextOf(p, o) != 0 :: NextOf(p, o) != NextOf(p, q)
  }

  lemma AllLinksOk<D>(p: Items<D>)
    ensures LinksOk(p) <==> LinksOkBelow(p, |p| + 1)
  {
    if LinksOkBelow(p, |p| + 1) {
      forall o, q | IsLive(p, o) && IsLive(p, q) && NextOf(p, o) == NextOf(p, q) != 0 ensures o == q {
        assert o <= q || q <= o;
      }
    }
  }

  /** `predecessor` records, for the tuples before `n`, who links to an offset. */
  ghost predicate Recorded<D>(p: Items<D>, predecessor: seq<nat>, n: nat) {
    && |predecessor| == |p| + 1
    && (forall o | 1 <= o < n && IsLive(p, o) && NextOf(p, o) != 0 ::
          NextOf(p, o) < |predecessor| && predecessor[NextOf(p, o)] == o)
    && (forall x | 0 <= x < |predecessor| && predecessor[x] != 0 ::
          1 <= predecessor[x] < n && IsLive(p, predecessor[x]) && NextOf(p, predecessor[x]) == x)
  }

  /** A link that leaves the page, or a second link to the same tuple. */
  lemma LinkClashes<D>(p: Items<D>, pred: seq<nat>, i: nat)
    requires 1 <= i <= |p| && LinksOkBelow(p, i) && Recorded(p, pred, i)
    requires IsLive(p, i) && NextOf(p, i) != 0 && (NextOf(p, i) > |p| || pred[NextOf(p, i)] != 0)
    ensures !LinksOkBelow(p, i + 1)
  {
  }

  lemma NoLinkRecorded<D>(p: Items<D>, pred: seq<nat>, i: nat)
    requires 1 <= i <= |p| && LinksOkBelow(p, i) && Recorded(p, pred, i)
    requires !IsLive(p, i) || NextOf(p, i) == 0
    ensures LinksOkBelow(p, i + 1) && Recorded(p, pred, i + 1)
  {
  }

  lemma LinkRecorded<D>(p: Items<D>, pred: seq<nat>, i: nat)
    requires 1 <= i <= |p| && LinksOkBelow(p, i) && Recorded(p, pred, i)
    requires IsLive(p, i) && 0 < NextOf(p, i) <= |p| && pred[NextOf(p, i)] == 0
    ensures LinksOkBelow(p, i + 1) && Recorded(p, pred[NextOf(p, i) := i], i + 1)
  {
  }

  lemma LinksOkShrinks<D>(p: Items<D>, n: nat)
    requires LinksOk(p)
    ensures LinksOkBelow(p, n)
  {
  }

  /** Enters tuple `i` in the predecessor map; fails if its link leaves the page or
      leads to a tuple that already has a predecessor. */
  method RecordLink<D>(p: Items<D>, predecessor: array<nat>, i: nat) returns (ok: bool)
    requires 1 <= i <= |p| && p[i - 1].Live? && predecessor.Length == |p| + 1
    requires LinksOkBelow(p, i) && Recorded(p, predecessor[..], i)
    modifies predecessor
    ensures ok <==> LinksOkBelow(p, i + 1)
    ensures ok ==> Recorded(p, predecessor[..], i + 1)
  {
    var next := p[i - 1].next;
    assert IsLive(p, i) && NextOf(p, i) == next;
    ghost var pred: seq<nat> := predecessor[..];
    if next == 0 {
      NoLinkRecorded(p, pred, i);
    } else {
      if next > |p| || predecessor[next] != 0 {
        LinkClashes(p, pred, i);
        return false;
      }
      LinkRecorded(p, pred, i);
      predecessor[next] := i;
      assert predecessor[..] == pred[next := i];
    }
    return true;
  }

  ghost function DeletableBelow<D>(p: Items<D>, callback: Callback, n: nat): set<nat> {
    set o | o in Deletable(p, callback) && o < n
  }

  lemma OneMoreDeletable<D>(p: Items<D>, callback: Callback, i: nat)
    requires 1 <= i <= |p|
    ensures DeletableBelow(p, callback, i + 1)
            == DeletableBelow(p, callback, i) + if p[i - 1].Live? && callback(p[i - 1].heapPtr) then {i} else {}
  {
  }

  /** What the scan knows when it reaches tuple `i`. */
  ghost predicate Scanned<D>(p: Items<D>, callback: Callback, i: nat, predecessor: seq<nat>, deletable: seq<bool>, count: nat) {
    && LinksOkBelow(p, i) && Recorded(p, predecessor, i)
    && |deletable| == |p| + 1 && count == |DeletableBelow(p, callback, i)|
    && forall o: nat | o <= |p| :: deletable[o] <==> o in DeletableBelow(p, callback, i)
  }

  method ScanTuple<D>(p: Items<D>, callback: Callback, i: nat, predecessor: array<nat>, deletable: array<bool>, count: nat)
    returns (ok: bool, count': nat)
    requires 1 <= i <= |p| && Scanned(p, callback, i, predecessor[..], deletable[..], count)
    modifies predecessor, deletable
    ensures ok <==> LinksOkBelow(p, i + 1)
    ensures ok ==> Scanned(p, callback, i + 1, predecessor[..], deletable[..], count')
  {
    count', ok := count, true;
    OneMoreDeletable(p, callback, i);
    if p[i - 1].Live? {
      if callback(p[i - 1].heapPtr) {
        deletable[i] := true;
        count' := count' + 1;
      }
      ok := RecordLink(p, predecessor, i);
    } else {
      NoLinkRecorded(p, predecessor[..], i);
    }
  }

  method ScanPage<D>(p: Items<D>, callback: Callback)
    returns (ok: bool, predecessor: array<nat>, deletable: array<bool>, nDeletable: nat)
    ensures ok <==> LinksOk(p)
    ensures fresh(predecessor) && fresh(deletable)
    ensures ok ==> Scanned(p, callback, |p| + 1, predecessor[..], deletable[..], nDeletable)
  {
    predecessor := new nat[|p| + 1](_ => 0);
    deletable := new bool[|p| + 1](_ => false);
    nDeletable := 0;
    var i: nat := 1;
    assert DeletableBelow(p, callback, 1) == {};
    while i <= |p|
      invariant 1 <= i <= |p| + 1
      invariant Scanned(p, callback, i, predecessor[..], deletable[..], nDeletable)
    {
      ok, nDeletable := ScanTuple(p, callback, i, predecessor, deletable, nDeletable);
      if !ok {
        if LinksOk(p) { LinksOkShrinks(p, i + 1); }
        return;
      }
      i := i + 1;
    }
    ok := true;
    AllLinksOk(p);
  }

  lemma AllScanned<D>(p: Items<D>, callback: Callback)
    ensures DeletableBelow(p, callback, |p| + 1) == Deletable(p, callback)
  {
  }

  lemma HeadsAreUnrecorded<D>(p: Items<D>, predecessor: seq<nat>, i: nat)
    requires Recorded(p, predecessor, |p| + 1) && IsLive(p, i)
    ensures IsHead(p, i) <==> predecessor[i] == 0
  {
  }

  // ---- planning ----

  /** The plan for a path that started at head `i` and may still go on. */
  ghost predicate PathPlan<D>(p: Items<D>, del: set<nat>, c: seq<nat>, before: Plan, plan: Plan)
    requires |c| > 0 && AllLive(p, c)
  {
    KeepDropFacts(del, c);
    var i, s := c[0], Keep(del, c);
    && plan.dead == before.dead
    && plan.placeholder == before.placeholder + Drop(del, c[1..])
    && plan.moves == before.moves + (if s != [] && i in del then [Move(s[0], i)] else [])
    && plan.links == before.links + GapLinks(p, i, s)
  }

  /** The last survivor's place, 0 if there is none; and whether the tuple after it is gone. */
  ghost predicate PathState<D>(p: Items<D>, del: set<nat>, c: seq<nat>, prevLive: nat, gap: bool, j: nat)
    requires |c| > 0 && AllLive(p, c)
  {
    KeepDropFacts(del, c);
    var s := Keep(del, c);
    && (s == [] ==> prevLive == 0)
    && (s != [] ==> prevLive == Place(c[0], s, |s| - 1) && (gap <==> NextOf(p, s[|s| - 1]) != j))
  }

  lemma OneMore(del: set<nat>, c: seq<nat>, j: nat)
    requires |c| > 0
    ensures Keep(del, c + [j]) == if j in del then Keep(del, c) else Keep(del, c) + [j]
    ensures Drop(del, (c + [j])[1..]) == if j in del then Drop(del, c[1..]) + [j] else Drop(del, c[1..])
  {
    assert (c + [j])[..|c|] == c;
    assert (c + [j])[1..] == c[1..] + [j];
    assert (c[1..] + [j])[..|c| - 1] == c[1..];
  }

  lemma PathGrows<D>(p: Items<D>, c: seq<nat>, j: nat)
    requires LinksOk(p) && |c| > 0 && Linked(p, c) && IsHead(p, c[0]) && NextOf(p, c[|c| - 1]) == j && IsLive(p, j)
    ensures Linked(p, c + [j]) && AllLive(p, c + [j]) && NoDup(c + [j]) && NextOf(p, j) !in c + [j]
    ensures |c| < |p|
  {
    PathNoDup(p, c + [j]);
    NoDupBound(c + [j], |p|);
  }

  /** After a deletable tuple, the link of the last survivor does not lead to the next one. */
  lemma GapAfterDrop<D>(p: Items<D>, del: set<nat>, c: seq<nat>, j: nat)
    requires LinksOk(p) && |c| > 0 && Linked(p, c) && IsHead(p, c[0]) && NextOf(p, c[|c| - 1]) == j && IsLive(p, j)
    requires AllLive(p, c) && Keep(del, c) != [] && j in del
    ensures var s := Keep(del, c); IsLive(p, s[|s| - 1]) && NextOf(p, s[|s| - 1]) != NextOf(p, j)
  {
    PathGrows(p, c, j);
    KeepDropFacts(del, c);
    var s := Keep(del, c);
    assert s[|s| - 1] in c;
    var k :| 0 <= k < |c| && c[k] == s[|s| - 1];
    assert NextOf(p, c[k]) == (c + [j])[k + 1];
  }

  lemma PlanDropped<D>(p: Items<D>, del: set<nat>, c: seq<nat>, before: Plan, plan: Plan, prevLive: nat, gap: bool, j: nat)
    requires LinksOk(p) && |c| > 0 && Linked(p, c) && IsHead(p, c[0]) && NextOf(p, c[|c| - 1]) == j && IsLive(p, j)
    requires AllLive(p, c) && AllLive(p, c + [j]) && j in del
    requires PathPlan(p, del, c, before, plan) && PathState(p, del, c, prevLive, gap, j)
    ensures PathPlan(p, del, c + [j], before, plan.(placeholder := plan.placeholder + [j]))
    ensures PathState(p, del, c + [j], prevLive, true, NextOf(p, j))
  {
    OneMore(del, c, j);
    if Keep(del, c) != [] {
      GapAfterDrop(p, del, c, j);
    }
  }

  lemma PlanKeptFirst<D>(p: Items<D>, del: set<nat>, c: seq<nat>, before: Plan, plan: Plan, prevLive: nat, gap: bool, j: nat)
    requires |c| > 0 && IsLive(p, j) && j != 0 && 0 !in c
    requires AllLive(p, c) && AllLive(p, c + [j]) && j !in del && Keep(del, c) == []
    requires PathPlan(p, del, c, before, plan) && PathState(p, del, c, prevLive, gap, j)
    ensures PathPlan(p, del, c + [j], before, plan.(moves := plan.moves + [Move(j, c[0])]))
    ensures PathState(p, del, c + [j], c[0], false, NextOf(p, j))
  {
    OneMore(del, c, j);
    KeepDropFacts(del, c);
    assert c[0] in c;
    assert Keep(del, c + [j]) == [j];
  }

  lemma GapLinksGrow<D>(p: Items<D>, h: nat, s: seq<nat>, j: nat)
    requires s != [] && AllLive(p, s) && IsLive(p, j)
    ensures AllLive(p, s + [j])
    ensures GapLinks(p, h, s + [j])
            == GapLinks(p, h, s) + if NextOf(p, s[|s| - 1]) != j then [Link(Place(h, s, |s| - 1), j)] else []
  {
    assert (s + [j])[..|s|] == s;
    assert Place(h, s + [j], |s| - 1) == Place(h, s, |s| - 1);
  }

  lemma StateKept<D>(p: Items<D>, del: set<nat>, c: seq<nat>, j: nat)
    requires |c| > 0 && IsLive(p, j)
    requires AllLive(p, c + [j]) && j !in del && Keep(del, c) != []
    ensures PathState(p, del, c + [j], j, false, NextOf(p, j))
  {
    OneMore(del, c, j);
  }

  lemma PlanKept<D>(p: Items<D>, del: set<nat>, c: seq<nat>, before: Plan, plan: Plan, prevLive: nat, gap: bool, j: nat)
    requires |c| > 0 && IsLive(p, j)
    requires AllLive(p, c) && AllLive(p, c + [j]) && j !in del && Keep(del, c) != []
    requires PathPlan(p, del, c, before, plan) && PathState(p, del, c, prevLive, gap, j)
    ensures PathPlan(p, del, c + [j], before, plan.(links := plan.links + if gap then [Link(prevLive, j)] else []))
  {
    OneMore(del, c, j);
    KeepDropFacts(del, c);
    var s := Keep(del, c);
    GapLinksGrow(p, c[0], s, j);
    var l: seq<Link> := if gap then [Link(prevLive, j)] else [];
    assert GapLinks(p, c[0], s + [j]) == GapLinks(p, c[0], s) + l;
    Regroup(before.links, GapLinks(p, c[0], s), l);
    assert (s + [j])[0] == s[0] && (c + [j])[0] == c[0];
  }

  lemma Regroup(a: seq<Link>, b: seq<Link>, c: seq<Link>)
    ensures a + b + c == a + (b + c)
  {
  }

  lemma PlanEnds<D>(p: Items<D>, del: set<nat>, c: seq<nat>, before: Plan, plan: Plan, prevLive: nat, gap: bool)
    requires |c| > 0 && AllLive(p, c)
    requires PathPlan(p, del, c, before, plan) && PathState(p, del, c, prevLive, gap, 0)
    ensures Keep(del, c) == [] ==> plan.(dead := plan.dead + [c[0]]) == Append(before, ChainPlan(p, del, c))
    ensures Keep(del, c) != [] ==>
              plan.(links := plan.links + if gap then [Link(prevLive, 0)] else []) == Append(before, ChainPlan(p, del, c))
  {
  }

  /** Follows the chain of head `i` and adds its work to the plan. Fails if the chain
      runs into a tuple that is not live. */
  method PlanChain<D>(p: Items<D>, deletable: array<bool>, i: nat, before: Plan, ghost del: set<nat>)
    returns (ok: bool, plan: Plan, ghost c: seq<nat>)
    requires LinksOk(p) && IsHead(p, i)
    requires deletable.Length == |p| + 1 && forall o: nat | o <= |p| :: deletable[o] <==> o in del
    ensures ok ==> IsChain(p, c) && c[0] == i && AllLive(p, c) && plan == Append(before, ChainPlan(p, del, c))
    ensures !ok ==> !LinksAlive(p)
  {
    plan, c := before, [i];
    var gap := false;
    var prevLive := if deletable[i] then 0 else i;
    var j := p[i - 1].next;
    FirstMember(p, del, i, before, prevLive, j);
    while j != 0
      invariant |c| > 0 && c[0] == i && Linked(p, c) && AllLive(p, c) && NextOf(p, c[|c| - 1]) == j && |c| <= |p|
      invariant PathPlan(p, del, c, before, plan) && PathState(p, del, c, prevLive, gap, j)
      decreases |p| - |c|
    {
      assert IsLive(p, c[|c| - 1]);
      var lt := p[j - 1];
      if !lt.Live? {
        return false, plan, c;
      }
      PathGrows(p, c, j);
      KeptPlaces(p, del, c);
      if deletable[j] {
        PlanDropped(p, del, c, before, plan, prevLive, gap, j);
        plan := plan.(placeholder := plan.placeholder + [j]);
        gap := true;
      } else if prevLive == 0 {
        PlanKeptFirst(p, del, c, before, plan, prevLive, gap, j);
        plan := plan.(moves := plan.moves + [Move(j, i)]);
        prevLive, gap := i, false;
      } else {
        PlanKept(p, del, c, before, plan, prevLive, gap, j);
        StateKept(p, del, c, j);
        if gap {
          plan := plan.(links := plan.links + [Link(prevLive, j)]);
        }
        prevLive, gap := j, false;
      }
      c := c + [j];
      j := lt.next;
    }
    KeptPlaces(p, del, c);
    PlanEnds(p, del, c, before, plan, prevLive, gap);
    if prevLive == 0 {
      plan := plan.(dead := plan.dead + [i]);
    } else if gap {
      plan := plan.(links := plan.links + [Link(prevLive, 0)]);
    }
    ok := true;
  }

  lemma FirstMember<D>(p: Items<D>, del: set<nat>, i: nat, before: Plan, prevLive: nat, j: nat)
    requires IsLive(p, i) && j == NextOf(p, i) && prevLive == if i in del then 0 else i
    ensures PathPlan(p, del, [i], before, before) && PathState(p, del, [i], prevLive, false, j)
  {
    assert [i][..0] == [] && [i][1..] == [];
    assert Keep(del, []) == [] && Drop(del, []) == [];
  }

  lemma KeptPlaces<D>(p: Items<D>, del: set<nat>, c: seq<nat>)
    requires |c| > 0 && AllLive(p, c)
    ensures var s := Keep(del, c); s != [] ==> Place(c[0], s, |s| - 1) != 0
    ensures 0 !in c
  {
    KeepDropFacts(del, c);
    assert c[0] in c;
    var s := Keep(del, c);
    if s != [] { assert s[|s| - 1] in c; }
  }

  /** Adds the work of tuple `i`, if it is the head of a chain. */
  method PlanTuple<D>(p: Items<D>, predecessor: array<nat>, deletable: array<bool>, i: nat, before: Plan, ghost del: set<nat>)
    returns (ok: bool, plan: Plan)
    requires LinksOk(p) && Recorded(p, predecessor[..], |p| + 1) && 1 <= i <= |p|
    requires deletable.Length == |p| + 1 && forall o: nat | o <= |p| :: deletable[o] <==> o in del
    requires HeadsDone(p, i - 1) && before == PlanBelow(p, del, i - 1)
    ensures !ok ==> !LinksAlive(p)
    ensures ok ==> HeadsDone(p, i) && plan == PlanBelow(p, del, i)
  {
    if p[i - 1].Live? {
      HeadsAreUnrecorded(p, predecessor[..], i);
      if predecessor[i] == 0 {
        ghost var c;
        ok, plan, c := PlanChain(p, deletable, i, before, del);
        if ok {
          assert HasChain(p, i);
          ChainUnique(p, c, ChainOf(p, i));
        }
        return;
      }
    }
    NoHead(p, del, i);
    return true, before;
  }

  method PlanPage<D>(p: Items<D>, predecessor: array<nat>, deletable: array<bool>, ghost del: set<nat>)
    returns (ok: bool, plan: Plan)
    requires LinksOk(p) && Recorded(p, predecessor[..], |p| + 1)
    requires deletable.Length == |p| + 1 && forall o: nat | o <= |p| :: deletable[o] <==> o in del
    ensures ok <==> LinksAlive(p)
    ensures ok ==> HeadsDone(p, |p|) && plan == PlanBelow(p, del, |p|)
  {
    plan := EmptyPlan;
    var i := 1;
    while i <= |p|
      invariant 1 <= i <= |p| + 1
      invariant HeadsDone(p, i - 1) && plan == PlanBelow(p, del, i - 1)
    {
      ok, plan := PlanTuple(p, predecessor, deletable, i, plan, del);
      if !ok {
        return;
      }
      i := i + 1;
    }
    ok := true;
    ChainsMakeLinksAlive(p);
  }

  lemma NoHead<D>(p: Items<D>, del: set<nat>, i: nat)
    requires i > 0 && HeadsDone(p, i - 1) && !IsHead(p, i)
    ensures HeadsDone(p, i) && PlanBelow(p, del, i) == PlanBelow(p, del, i - 1)
  {
    var a := PlanBelow(p, del, i - 1);
    assert Append(a, EmptyPlan) == a;
  }

  lemma PartCount(a: set<nat>, b: set<nat>)
    ensures |a * b| == |a| <==> a <= b
  {
    assert a == a * b + (a - b);
    assert (a * b) * (a - b) == {};
    assert |a| == |a * b| + |a - b|;
    assert a - b == {} ==> a <= b;
  }

  lemma CoveredIsOnChain<D>(p: Items<D>, o: nat)
    requires IsLive(p, o)
    ensures OnChain(p, o) <==> o in CoveredSet(p, |p|)
  {
    if c :| IsChain(p, c) && o in c { assert IsLive(p, c[0]); }
  }

  lemma CountsAgree<D>(p: Items<D>, del: set<nat>)
    requires HeadsDone(p, |p|) && forall o | o in del :: IsLive(p, o)
    ensures Removed(PlanBelow(p, del, |p|)) == |del| <==> forall o | o in del :: OnChain(p, o)
  {
    BelowRemoves(p, del, |p|, PlanBelow(p, del, |p|));
    PartCount(del, CoveredSet(p, |p|));
    forall o | o in del ensures OnChain(p, o) <==> o in CoveredSet(p, |p|) {
      CoveredIsOnChain(p, o);
    }
  }
}
