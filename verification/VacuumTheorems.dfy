/** What a leaf page looks like after a vacuum, stated through its chains. */
module VacuumTheorems {
  import opened LeafPage
  import opened Lists
  import opened LeafChains
  import opened VacuumPlan
  import opened VacuumPage
  import opened VacuumCounts
  import opened VacuumLeaf
  import opened LeafBuffer
  import opened VacuumRun

  /** What a scan sees when it follows a chain. */
  ghost function Contents<D>(p: Items<D>, c: seq<nat>): seq<(Tid, D)>
    requires AllLive(p, c)
  {
    seq(|c|, k requires 0 <= k < |c| => (assert IsLive(p, c[k]); (At(p, c[k]).heapPtr, At(p, c[k]).datum)))
  }

  ghost function Surviving<D>(entries: seq<(Tid, D)>, callback: Callback): seq<(Tid, D)> {
    if entries == [] then [] else
      var rest, last := Surviving(entries[..|entries| - 1], callback), entries[|entries| - 1];
      if callback(last.0) then rest else rest + [last]
  }

  lemma {:induction false} ContentsOfKeep<D>(p: Items<D>, callback: Callback, c: seq<nat>, del: set<nat>)
    requires AllLive(p, c) && forall o | o in c :: o in del <==> callback(Entry(p, o).0)
    ensures AllLive(p, Keep(del, c))
    ensures Contents(p, Keep(del, c)) == Surviving(Contents(p, c), callback)
    decreases |c|
  {
    if c == [] {
      assert Contents(p, []) == [];
    } else {
      var r, last := c[..|c| - 1], c[|c| - 1];
      assert last in c && forall o | o in r :: o in c;
      ContentsOfKeep(p, callback, r, del);
      assert c == r + [last];
      ContentsPush(p, r, last);
      SurvivingPush(Contents(p, r), Entry(p, last), callback);
      if last !in del {
        ContentsPush(p, Keep(del, r), last);
      }
    }
  }

  lemma SurvivingPush<D>(entries: seq<(Tid, D)>, e: (Tid, D), callback: Callback)
    ensures Surviving(entries + [e], callback) == if callback(e.0) then Surviving(entries, callback) else Surviving(entries, callback) + [e]
  {
    assert (entries + [e])[..|entries|] == entries;
  }

  ghost function Entry<D>(p: Items<D>, o: nat): (Tid, D)
    requires IsLive(p, o)
  {
    (At(p, o).heapPtr, At(p, o).datum)
  }

  lemma ContentsPush<D>(p: Items<D>, s: seq<nat>, o: nat)
    requires AllLive(p, s) && IsLive(p, o)
    ensures AllLive(p, s + [o]) && Contents(p, s + [o]) == Contents(p, s) + [Entry(p, o)]
  {
  }

  /** The chain after the vacuum: the survivors behind the old head. */
  ghost function NewChain(del: set<nat>, c: seq<nat>): seq<nat>
    requires c != []
  {
    var s := Keep(del, c);
    if s == [] then [] else [c[0]] + s[1..]
  }

  lemma NewChainPlaces<D>(p: Items<D>, del: set<nat>, c: seq<nat>, k: nat)
    requires c != [] && k < |Keep(del, c)|
    ensures |NewChain(del, c)| == |Keep(del, c)| && NewChain(del, c)[k] == Place(c[0], Keep(del, c), k)
  {
  }

  /** The page before, the deletable tuples, and the page after. */
  ghost predicate Result<D>(p: Items<D>, del: set<nat>, q: Items<D>) {
    LinksOk(p) && LinksAlive(p) && Vacuumed(p, del, q) && forall o | o in del :: OnChain(p, o)
  }

  lemma PlacedTuple<D>(p: Items<D>, del: set<nat>, q: Items<D>, c: seq<nat>, k: nat)
    requires Result(p, del, q) && IsChain(p, c) && k < |Keep(del, c)|
    ensures AllLive(p, c) && NoDup(Keep(del, c)) && IsLive(p, Keep(del, c)[k]) && Keep(del, c)[k] in c && Keep(del, c)[k] !in del
    ensures k > 0 ==> Keep(del, c)[k] != c[0]
    ensures Place(c[0], Keep(del, c), k) in c
    ensures IsLive(q, Place(c[0], Keep(del, c), k))
    ensures At(q, Place(c[0], Keep(del, c), k)) == At(p, Keep(del, c)[k]).(next := NextPlace(Keep(del, c), k))
  {
    ChainIsAlive(p, c);
    Survivors(p, del, c);
    SurvivorStands(p, del, q, c, k);
    assert IsLive(p, c[0]) && c[0] in c;
  }

  lemma SurvivorStands<D>(p: Items<D>, del: set<nat>, q: Items<D>, c: seq<nat>, k: nat)
    requires LinksOk(p) && Vacuumed(p, del, q) && IsChain(p, c) && k < |Keep(del, c)|
    ensures InItsPlace(p, q, c[0], Keep(del, c), k)
  {
    ChainIsAlive(p, c);
    assert ChainVacuumed(p, del, c, q);
  }

  /** A tuple that is live afterwards was never on a chain, or is a survivor in its place. */
  lemma LiveAfter<D>(p: Items<D>, del: set<nat>, q: Items<D>, o: nat) returns (c: seq<nat>, k: nat)
    requires Result(p, del, q) && IsLive(q, o)
    ensures !OnChain(p, o) ==> At(q, o) == At(p, o) && IsLive(p, o)
    ensures OnChain(p, o) ==> IsChain(p, c) && o in c && k < |Keep(del, c)| && o == Place(c[0], Keep(del, c), k)
  {
    c, k := [], 0;
    if OnChain(p, o) {
      c :| IsChain(p, c) && o in c;
      ChainIsAlive(p, c);
      KeepDropFacts(del, c);
      KeepOrder(del, c);
      assert ChainVacuumed(p, del, c, q);
      var s := Keep(del, c);
      if o != c[0] {
        assert o in s;
        k :| 0 <= k < |s| && s[k] == o;
      }
    }
  }

  lemma PredecessorOnChain<D>(p: Items<D>, o: nat, c: seq<nat>)
    requires LinksOk(p) && IsLive(p, o) && NextOf(p, o) != 0 && IsChain(p, c) && NextOf(p, o) in c
    ensures o in c
  {
    var j :| 0 <= j < |c| && c[j] == NextOf(p, o);
    assert j > 0;
    assert NextOf(p, c[j - 1]) == c[j];
  }

  /** Links of tuples off the chains stay off the chains. */
  lemma OffChainLink<D>(p: Items<D>, o: nat)
    requires LinksOk(p) && IsLive(p, o) && !OnChain(p, o)
    ensures NextOf(p, o) != 0 ==> !OnChain(p, NextOf(p, o))
  {
    if c :| NextOf(p, o) != 0 && IsChain(p, c) && NextOf(p, o) in c {
      PredecessorOnChain(p, o, c);
    }
  }

  /** Where the link of a live tuple leads afterwards. */
  lemma LinkTarget<D>(p: Items<D>, del: set<nat>, q: Items<D>, o: nat) returns (c: seq<nat>, k: nat)
    requires Result(p, del, q) && IsLive(q, o) && NextOf(q, o) != 0
    ensures !OnChain(p, o) ==> IsLive(p, o) && NextOf(p, o) == NextOf(q, o) && !OnChain(p, NextOf(q, o))
    ensures OnChain(p, o) ==> IsChain(p, c) && o in c && k + 1 < |Keep(del, c)| && o == Place(c[0], Keep(del, c), k)
                              && NextOf(q, o) == Keep(del, c)[k + 1] && NextOf(q, o) in c && NextOf(q, o) != c[0]
    ensures IsLive(q, NextOf(q, o))
  {
    c, k := LiveAfter(p, del, q, o);
    if OnChain(p, o) {
      PlacedTuple(p, del, q, c, k);
      PlacedTuple(p, del, q, c, k + 1);
    } else {
      OffChainLink(p, o);
      assert IsLive(p, NextOf(p, o));
    }
  }

  lemma SameLinkSameTuple<D>(p: Items<D>, del: set<nat>, q: Items<D>, o: nat, x: nat)
    requires Result(p, del, q) && IsLive(q, o) && IsLive(q, x) && NextOf(q, o) == NextOf(q, x) != 0
    ensures o == x
  {
    var c, k := LinkTarget(p, del, q, o);
    var d, m := LinkTarget(p, del, q, x);
    assert OnChain(p, o) <==> OnChain(p, x);
    if OnChain(p, o) {
      SameChain(p, c, d, NextOf(q, o));
      PlacedTuple(p, del, q, c, k);
      assert k == m;
    }
  }

  lemma SameChain<D>(p: Items<D>, c: seq<nat>, d: seq<nat>, o: nat)
    requires LinksOk(p) && IsChain(p, c) && IsChain(p, d) && o in c && o in d
    ensures c == d
  {
    var j :| 0 <= j < |c| && c[j] == o;
    var k :| 0 <= k < |d| && d[k] == o;
    ChainsDisjoint(p, c, d, j, k);
  }

  /** The page stays sound. */
  lemma VacuumKeepsLinks<D>(p: Items<D>, del: set<nat>, q: Items<D>)
    requires Result(p, del, q)
    ensures LinksOk(q) && LinksAlive(q)
  {
    forall o | IsLive(q, o) && NextOf(q, o) != 0 ensures IsLive(q, NextOf(q, o)) {
      var c, k := LinkTarget(p, del, q, o);
    }
    forall o, x | IsLive(q, o) && IsLive(q, x) && NextOf(q, o) == NextOf(q, x) != 0 ensures o == x {
      SameLinkSameTuple(p, del, q, o, x);
    }
  }

  ghost predicate BehindHead<D>(p: Items<D>, x: nat) { exists d :: IsChain(p, d) && x in d && x != d[0] }

  /** Links lead behind the heads of chains, or off the chains. */
  lemma LinkGoesBehind<D>(p: Items<D>, del: set<nat>, q: Items<D>, o: nat)
    requires Result(p, del, q) && IsLive(q, o) && NextOf(q, o) != 0
    ensures BehindHead(p, NextOf(q, o)) || !OnChain(p, NextOf(q, o))
  {
    var d, k := LinkTarget(p, del, q, o);
  }

  lemma HeadNotBehind<D>(p: Items<D>, c: seq<nat>)
    requires LinksOk(p) && IsChain(p, c)
    ensures !BehindHead(p, c[0]) && OnChain(p, c[0])
  {
    assert c[0] in c;
    forall d | IsChain(p, d) && c[0] in d ensures c[0] == d[0] {
      SameChain(p, c, d, c[0]);
    }
  }

  lemma HeadStaysHead<D>(p: Items<D>, del: set<nat>, q: Items<D>, c: seq<nat>)
    requires Result(p, del, q) && IsChain(p, c) && Keep(del, c) != []
    ensures IsHead(q, c[0])
  {
    PlacedTuple(p, del, q, c, 0);
    assert IsLive(p, c[0]);
    HeadNotBehind(p, c);
    forall o | IsLive(q, o) ensures NextOf(q, o) != c[0] {
      if NextOf(q, o) != 0 { LinkGoesBehind(p, del, q, o); }
    }
  }

  /** Read from its unchanged head, each chain is the old chain without the deleted
      tuples, in the same order; if nothing is left the head is a DEAD tuple. */
  lemma ChainAfterVacuum<D>(p: Items<D>, callback: Callback, q: Items<D>, c: seq<nat>)
    requires Result(p, Deletable(p, callback), q) && IsChain(p, c)
    ensures AllLive(p, c) && InPage(q, c[0])
    ensures var del := Deletable(p, callback);
      if Surviving(Contents(p, c), callback) == [] then At(q, c[0]) == Dead
      else var d := NewChain(del, c);
        d != [] && d[0] == c[0] && IsChain(q, d) && AllLive(q, d) && Contents(q, d) == Surviving(Contents(p, c), callback)
  {
    var del := Deletable(p, callback);
    ChainIsAlive(p, c);
    ContentsOfKeep(p, callback, c, del);
    assert ChainVacuumed(p, del, c, q);
    var s, d := Keep(del, c), NewChain(del, c);
    assert IsLive(p, c[0]);
    if s != [] {
      NewChainIsChain(p, del, q, c);
      forall k | 0 <= k < |s| ensures Contents(q, d)[k] == Contents(p, s)[k] {
        PlacedTuple(p, del, q, c, k);
        NewChainPlaces(p, del, c, k);
      }
    }
  }

  lemma NewChainIsChain<D>(p: Items<D>, del: set<nat>, q: Items<D>, c: seq<nat>)
    requires Result(p, del, q) && IsChain(p, c) && Keep(del, c) != []
    ensures IsChain(q, NewChain(del, c)) && AllLive(q, NewChain(del, c))
  {
    HeadStaysHead(p, del, q, c);
    NewChainLinks(p, del, q, c, NewChain(del, c));
  }

  lemma NewChainLinks<D>(p: Items<D>, del: set<nat>, q: Items<D>, c: seq<nat>, d: seq<nat>)
    requires Result(p, del, q) && IsChain(p, c) && Keep(del, c) != [] && d == NewChain(del, c)
    ensures |d| == |Keep(del, c)| && d[0] == c[0] && Linked(q, d) && AllLive(q, d) && NextOf(q, d[|d| - 1]) == 0
  {
    var s := Keep(del, c);
    forall k | 0 <= k < |s| ensures IsLive(q, d[k]) && NextOf(q, d[k]) == NextPlace(s, k) {
      PlacedTuple(p, del, q, c, k);
      NewChainPlaces(p, del, c, k);
    }
    assert |d| == |s| && forall k | 0 < k < |d| :: d[k] == s[k];
  }

  /** Nothing deletable is left, so vacuuming again finds nothing to do. */
  lemma NothingLeft<D>(p: Items<D>, callback: Callback, q: Items<D>)
    requires Result(p, Deletable(p, callback), q)
    ensures Deletable(q, callback) == {}
  {
    var del := Deletable(p, callback);
    forall o | IsLive(q, o) ensures !callback(At(q, o).heapPtr) {
      var c, k := LiveAfter(p, del, q, o);
      if OnChain(p, o) {
        PlacedTuple(p, del, q, c, k);
      }
    }
  }

  /** Tuples that are not live, and tuples off the chains, stay as they are. */
  lemma OthersStay<D>(p: Items<D>, del: set<nat>, q: Items<D>, o: nat)
    requires Result(p, del, q) && InPage(p, o) && !IsLive(p, o)
    ensures At(q, o) == At(p, o)
  {
    forall c | IsChain(p, c) ensures o !in c {
      ChainIsAlive(p, c);
    }
  }

  lemma UsedTuplesAreLive<D>(p: Items<D>, del: set<nat>, plan: Plan, o: nat)
    requires HeadsDone(p, |p|) && plan == PlanBelow(p, del, |p|)
    ensures Uses(plan)[o] <= 1
    ensures Uses(plan)[o] > 0 ==> IsLive(p, o)
  {
    BelowUses(p, del, |p|, o, plan);
    if c :| IsChain(p, c) && c[0] <= |p| && o in c {
      ChainIsAlive(p, c);
    }
  }

  lemma KindAfter<D>(p: Items<D>, plan: Plan, o: nat)
    requires PlanFits(p, plan) && PlanInPage(p, plan) && InPage(p, o)
    requires forall x :: Uses(plan)[x] <= 1 && (Uses(plan)[x] > 0 ==> IsLive(p, x))
    ensures After(p, plan, o).Placeholder? <==> At(p, o).Placeholder? || o in plan.placeholder || o in Srcs(plan.moves)
    ensures After(p, plan, o).Redirect? <==> At(p, o).Redirect?
    ensures o in plan.placeholder || o in Srcs(plan.moves) ==> !At(p, o).Placeholder?
  {
    var m := plan.moves;
    RoleCounts(m, o);
    var dead, ph, src, dest := multiset(plan.dead), multiset(plan.placeholder), multiset(Srcs(m)), multiset(Dests(m));
    assert Uses(plan)[o] == dead[o] + ph[o] + src[o] + dest[o];
    if IsDest(m, o) {
      SrcOfIsSrc(m, o);
      SourceIsUsed(plan, SrcOf(m, o));
    }
  }

  lemma SourceIsUsed(plan: Plan, o: nat)
    requires IsSrc(plan.moves, o)
    ensures Uses(plan)[o] > 0
  {
    RoleCounts(plan.moves, o);
  }

  lemma TurnedDisjoint<D>(p: Items<D>, del: set<nat>, plan: Plan)
    requires HeadsDone(p, |p|) && plan == PlanBelow(p, del, |p|)
    ensures |Members(plan.placeholder) + Members(Srcs(plan.moves))| == |plan.placeholder| + |plan.moves|
  {
    forall x ensures Uses(plan)[x] <= 1 { UsedTuplesAreLive(p, del, plan, x); }
    PlanListsNoDup(plan);
    NoDupCount(plan.placeholder);
    NoDupCount(Srcs(plan.moves));
    forall o | o in plan.placeholder ensures o !in Srcs(plan.moves) {
      assert Uses(plan)[o] <= 1;
    }
    assert Members(plan.placeholder) * Members(Srcs(plan.moves)) == {};
  }

  lemma KindsAfterPlan<D>(p: Items<D>, del: set<nat>, plan: Plan, q: Items<D>, o: nat)
    requires HeadsDone(p, |p|) && plan == PlanBelow(p, del, |p|) && PlanFits(p, plan) && q == ApplyPlan(p, plan)
    ensures o in Placeholders(q) <==> o in Placeholders(p) || (InPage(p, o) && (o in plan.placeholder || o in Srcs(plan.moves)))
    ensures o in Redirects(q) <==> o in Redirects(p)
    ensures o in plan.placeholder || o in Srcs(plan.moves) ==> o !in Placeholders(p)
  {
    if InPage(p, o) {
      forall x ensures Uses(plan)[x] <= 1 && (Uses(plan)[x] > 0 ==> IsLive(p, x)) { UsedTuplesAreLive(p, del, plan, x); }
      ApplyPlanAt(p, plan, o);
      KindAfter(p, plan, o);
    }
  }

  /** Accurate counters stay accurate. */
  lemma VacuumKeepsCounters<D>(s: PageState<D>, del: set<nat>, plan: Plan, recptr: nat)
    requires HeadsDone(s.items, |s.items|) && plan == PlanBelow(s.items, del, |s.items|) && PlanFits(s.items, plan)
    requires Accurate(s)
    ensures Accurate(AfterVacuum(s, plan, recptr))
  {
    CountersAfter(s, del, plan, ApplyPlan(s.items, plan));
  }

  lemma CountersAfter<D>(s: PageState<D>, del: set<nat>, plan: Plan, q: Items<D>)
    requires HeadsDone(s.items, |s.items|) && plan == PlanBelow(s.items, del, |s.items|) && PlanFits(s.items, plan)
    requires Accurate(s) && q == ApplyPlan(s.items, plan)
    ensures s.nPlaceholder + |plan.placeholder| + |plan.moves| == |Placeholders(q)|
    ensures s.nRedirection == |Redirects(q)|
  {
    var p := s.items;
    TurnedDisjoint(p, del, plan);
    var turned := Members(plan.placeholder) + Members(Srcs(plan.moves));
    forall o: nat
      ensures o in Placeholders(q) <==> o in Placeholders(p) || o in turned
      ensures o in Redirects(q) <==> o in Redirects(p)
      ensures o in turned ==> o !in Placeholders(p)
    {
      KindsAfterPlan(p, del, plan, q, o);
      if o in turned { TurnedInPage(p, plan, o); }
    }
    CountTurned(p, q, turned);
  }

  lemma CountTurned<D>(p: Items<D>, q: Items<D>, turned: set<nat>)
    requires forall o: nat :: o in Placeholders(q) <==> o in Placeholders(p) || o in turned
    requires forall o: nat :: o in Redirects(q) <==> o in Redirects(p)
    requires forall o: nat :: o in turned ==> o !in Placeholders(p)
    ensures |Placeholders(q)| == |Placeholders(p)| + |turned|
    ensures |Redirects(q)| == |Redirects(p)|
  {
    assert Placeholders(q) == Placeholders(p) + turned;
    assert Placeholders(p) * turned == {};
    assert Redirects(q) == Redirects(p);
  }

  lemma TurnedInPage<D>(p: Items<D>, plan: Plan, o: nat)
    requires PlanFits(p, plan) && (o in plan.placeholder || o in Srcs(plan.moves))
    ensures InPage(p, o)
  {
    if o in Srcs(plan.moves) {
      var k :| 0 <= k < |plan.moves| && Srcs(plan.moves)[k] == o;
      assert plan.moves[k].src == o;
    }
  }
}
