/** The plan of a whole leaf page: its effect on every chain, and the arithmetic of
    its counters. */
module VacuumPage {
  import opened LeafPage
  import opened Lists
  import opened LeafChains
  import opened VacuumPlan

  ghost predicate HeadsDone<D>(p: Items<D>, n: nat) {
    LinksOk(p) && forall h | 1 <= h <= n && IsHead(p, h) :: HasChain(p, h)
  }

  /** The plans of all chains whose head is at offset `n` or before, in that order. */
  ghost function PlanBelow<D>(p: Items<D>, del: set<nat>, n: nat): Plan
    requires HeadsDone(p, n)
  {
    if n == 0 then EmptyPlan else
      Append(PlanBelow(p, del, n - 1), HeadPlan(p, del, n))
  }

  ghost function HeadPlan<D>(p: Items<D>, del: set<nat>, h: nat): Plan
    requires HeadsDone(p, h) && h > 0
  {
    if IsHead(p, h) then ChainPlan(p, del, ChainOf(p, h)) else EmptyPlan
  }

  /** Offsets on chains whose head is at `n` or before. */
  ghost predicate Covered<D>(p: Items<D>, n: nat, o: nat) {
    exists c :: IsChain(p, c) && c[0] <= n && o in c
  }

  lemma ChainIsAlive<D>(p: Items<D>, c: seq<nat>)
    requires LinksOk(p) && IsChain(p, c)
    ensures AllLive(p, c) && NoDup(c)
  {
    PathNoDup(p, c);
  }

  lemma ChainTouches<D>(p: Items<D>, del: set<nat>, c: seq<nat>, o: nat)
    requires LinksOk(p) && IsChain(p, c) && AllLive(p, c)
    requires Touches(ChainPlan(p, del, c), o)
    ensures o in c
  {
    ChainIsAlive(p, c);
    Survivors(p, del, c);
    MoveRoles(p, del, c);
    KeepDropFacts(del, c[1..]);
    KeepDropFacts(del, c);
    var plan := ChainPlan(p, del, c);
    if LinkSource(plan.links, o) {
      ChainLinkSources(p, c[0], Keep(del, c), o);
    }
  }

  lemma {:induction false} BelowTouches<D>(p: Items<D>, del: set<nat>, n: nat, o: nat)
    requires HeadsDone(p, n) && InPage(p, o)
    ensures PlanInPage(p, PlanBelow(p, del, n))
    ensures Touches(PlanBelow(p, del, n), o) ==> Covered(p, n, o)
  {
    if n > 0 {
      BelowTouches(p, del, n - 1, o);
      assert Covered(p, n - 1, o) ==> Covered(p, n, o);
      HeadTouches(p, del, n, o);
      AfterAppend(p, PlanBelow(p, del, n - 1), HeadPlan(p, del, n), o);
    }
  }

  lemma UncoveredByOthers<D>(p: Items<D>, n: nat, c: seq<nat>, o: nat)
    requires LinksOk(p) && IsChain(p, c) && o in c && c[0] > n
    ensures !Covered(p, n, o)
  {
    if d :| IsChain(p, d) && d[0] <= n && o in d {
      var j :| 0 <= j < |c| && c[j] == o;
      var k :| 0 <= k < |d| && d[k] == o;
      ChainsDisjoint(p, c, d, j, k);
    }
  }

  /** On a chain only the plan of that chain matters. */
  lemma {:induction false} BelowAfter<D>(p: Items<D>, del: set<nat>, n: nat, c: seq<nat>, o: nat, plan: Plan)
    requires HeadsDone(p, n) && IsChain(p, c) && o in c && c[0] <= n && AllLive(p, c) && plan == PlanBelow(p, del, n)
    ensures InPage(p, o) && PlanInPage(p, plan) && PlanInPage(p, ChainPlan(p, del, c))
    ensures After(p, plan, o) == After(p, ChainPlan(p, del, c), o)
    decreases n
  {
    assert IsLive(p, o) && IsLive(p, c[0]);
    BelowTouches(p, del, n - 1, o);
    HeadTouches(p, del, n, o);
    var a, b := PlanBelow(p, del, n - 1), HeadPlan(p, del, n);
    AfterAppend(p, a, b, o);
    if c[0] == n {
      ChainUnique(p, c, ChainOf(p, n));
      UncoveredByOthers(p, n - 1, c, o);
    } else {
      BelowAfter(p, del, n - 1, c, o, a);
      assert Covered(p, n - 1, o);
    }
  }

  lemma HeadTouches<D>(p: Items<D>, del: set<nat>, n: nat, o: nat)
    requires HeadsDone(p, n) && n > 0
    ensures PlanInPage(p, HeadPlan(p, del, n))
    ensures Touches(HeadPlan(p, del, n), o) ==> Covered(p, n, o) && !Covered(p, n - 1, o)
  {
    if IsHead(p, n) {
      var c := ChainOf(p, n);
      ChainIsAlive(p, c);
      MoveRoles(p, del, c);
      if Touches(ChainPlan(p, del, c), o) {
        ChainTouches(p, del, c, o);
        UncoveredByOthers(p, n - 1, c, o);
      }
    }
  }

  lemma UntouchedAfter<D>(p: Items<D>, plan: Plan, o: nat)
    requires InPage(p, o) && PlanInPage(p, plan) && !Touches(plan, o)
    ensures After(p, plan, o) == At(p, o)
  {
    if At(p, o).Live? {
      LinkUntouched(plan.links, o, At(p, o).next);
    }
  }

  // ---- the steps that carry out a plan ----

  function Srcs(m: seq<Move>): (r: seq<nat>)
    ensures |r| == |m| && forall k | 0 <= k < |m| :: r[k] == m[k].src
  {
    seq(|m|, k requires 0 <= k < |m| => m[k].src)
  }

  function Dests(m: seq<Move>): (r: seq<nat>)
    ensures |r| == |m| && forall k | 0 <= k < |m| :: r[k] == m[k].dest
  {
    seq(|m|, k requires 0 <= k < |m| => m[k].dest)
  }

  predicate MovesInPage<D>(p: Items<D>, m: seq<Move>) {
    forall k {:trigger m[k]} | 0 <= k < |m| :: InPage(p, m[k].src) && InPage(p, m[k].dest)
  }

  predicate LinksInPage<D>(p: Items<D>, links: seq<Link>) {
    forall k {:trigger links[k]} | 0 <= k < |links| :: InPage(p, links[k].src)
  }

  /** The line pointers of source and target are exchanged, move by move. */
  function SwapAll<D>(p: Items<D>, m: seq<Move>): (r: Items<D>)
    requires MovesInPage(p, m)
    ensures |r| == |p|
  {
    if m == [] then p else
      var last := m[|m| - 1];
      var q := SwapAll(p, m[..|m| - 1]);
      Put(Put(q, last.src, At(q, last.dest)), last.dest, At(q, last.src))
  }

  /** The links are set one after the other. */
  function Relinked<D>(p: Items<D>, links: seq<Link>): (r: Items<D>)
    requires LinksInPage(p, links)
    ensures |r| == |p|
  {
    if links == [] then p else
      var last := links[|links| - 1];
      var q := Relinked(p, links[..|links| - 1]);
      var t := At(q, last.src);
      if t.Live? then Put(q, last.src, t.(next := last.dest)) else q
  }

  predicate PlanFits<D>(p: Items<D>, plan: Plan) {
    && (forall o | o in plan.dead :: InPage(p, o)) && (forall o | o in plan.placeholder :: InPage(p, o))
    && MovesInPage(p, plan.moves) && LinksInPage(p, plan.links)
  }

  function ApplyPlan<D>(p: Items<D>, plan: Plan): (r: Items<D>)
    requires PlanFits(p, plan)
    ensures |r| == |p|
  {
    Relinked(Rearranged(p, plan), plan.links)
  }

  /** How often an offset is deleted or moved by the plan. */
  ghost function Uses(plan: Plan): multiset<nat> {
    multiset(plan.dead) + multiset(plan.placeholder) + multiset(Srcs(plan.moves)) + multiset(Dests(plan.moves))
  }

  ghost predicate UsedOnce(plan: Plan) { forall o :: Uses(plan)[o] <= 1 }

  lemma {:induction false} RelinkedAt<D>(p: Items<D>, links: seq<Link>, o: nat)
    requires InPage(p, o) && LinksInPage(p, links)
    ensures At(Relinked(p, links), o)
            == if At(p, o).Live? then At(p, o).(next := LinkAfter(links, o, At(p, o).next)) else At(p, o)
    decreases |links|
  {
    if links != [] {
      RelinkedAt(p, links[..|links| - 1], o);
    }
  }

  lemma SrcsLess(m: seq<Move>, o: nat)
    requires m != []
    ensures Srcs(m) == Srcs(m[..|m| - 1]) + [m[|m| - 1].src]
    ensures Dests(m) == Dests(m[..|m| - 1]) + [m[|m| - 1].dest]
  {
  }

  ghost function MoveUses(m: seq<Move>): multiset<nat> { multiset(Srcs(m)) + multiset(Dests(m)) }

  lemma RoleCounts(m: seq<Move>, o: nat)
    ensures IsSrc(m, o) <==> multiset(Srcs(m))[o] > 0
    ensures IsDest(m, o) <==> multiset(Dests(m))[o] > 0
  {
    assert IsSrc(m, o) <==> o in Srcs(m);
    assert IsDest(m, o) <==> o in Dests(m);
  }

  lemma LastMoveApart(m: seq<Move>, o: nat)
    requires m != [] && forall x :: MoveUses(m)[x] <= 1
    ensures var r, last := m[..|m| - 1], m[|m| - 1];
      && (forall x :: MoveUses(r)[x] <= 1)
      && !IsSrc(r, last.src) && !IsDest(r, last.src) && !IsSrc(r, last.dest) && !IsDest(r, last.dest)
      && last.src != last.dest
      && (IsSrc(m, o) <==> IsSrc(r, o) || o == last.src) && (IsDest(m, o) <==> IsDest(r, o) || o == last.dest)
      && (IsDest(r, o) ==> SrcOf(m, o) == SrcOf(r, o) && !IsSrc(r, o) && SrcOf(r, o) != last.dest)
  {
    var r, last := m[..|m| - 1], m[|m| - 1];
    SrcsLess(m, o);
    assert MoveUses(m) == MoveUses(r) + multiset{last.src} + multiset{last.dest};
    assert forall x :: MoveUses(r)[x] <= MoveUses(m)[x];
    RoleCounts(m, o);
    RoleCounts(r, o);
    RoleCounts(r, last.src);
    RoleCounts(r, last.dest);
    assert MoveUses(m)[last.src] <= 1 && MoveUses(m)[last.dest] <= 1 && MoveUses(m)[o] <= 1;
    if IsDest(r, o) {
      assert o != last.dest;
      SrcOfIsSrc(r, o);
    }
  }

  lemma SrcOfIsSrc(m: seq<Move>, o: nat)
    requires IsDest(m, o)
    ensures IsSrc(m, SrcOf(m, o))
  {
    var p: Items<int> := [];
    SrcOfInPage(p, m, o);
  }

  /** Exchanges of disjoint pairs put each source at its target. */
  lemma {:induction false} SwapAllAt<D>(p: Items<D>, m: seq<Move>, o: nat)
    requires InPage(p, o) && MovesInPage(p, m) && forall x :: MoveUses(m)[x] <= 1
    ensures IsDest(m, o) ==> InPage(p, SrcOf(m, o)) && At(SwapAll(p, m), o) == At(p, SrcOf(m, o))
    ensures !IsDest(m, o) && !IsSrc(m, o) ==> At(SwapAll(p, m), o) == At(p, o)
    decreases |m|
  {
    if m != [] {
      var r, last := m[..|m| - 1], m[|m| - 1];
      LastMoveApart(m, o);
      SwapAllAt(p, r, o);
      SwapAllAt(p, r, last.src);
    }
  }

  /** The page before the links are set. */
  function Rearranged<D>(p: Items<D>, plan: Plan): (r: Items<D>)
    requires PlanFits(p, plan)
    ensures |r| == |p|
  {
    var p1 := Replaced(p, plan.dead, _ => Dead);
    var p2 := Replaced(p1, plan.placeholder, _ => Placeholder);
    var p3 := SwapAll(p2, plan.moves);
    Replaced(p3, Srcs(plan.moves), _ => Placeholder)
  }

  lemma OnceAt(plan: Plan, o: nat)
    requires UsedOnce(plan)
    ensures var m := plan.moves;
      multiset(plan.dead)[o] + multiset(plan.placeholder)[o] + multiset(Srcs(m))[o] + multiset(Dests(m))[o] <= 1
    ensures forall x :: MoveUses(plan.moves)[x] <= 1
  {
    var m := plan.moves;
    assert Uses(plan)[o] == multiset(plan.dead)[o] + multiset(plan.placeholder)[o] + multiset(Srcs(m))[o] + multiset(Dests(m))[o];
    forall x ensures MoveUses(m)[x] <= 1 {
      assert Uses(plan)[x] <= 1;
    }
  }

  lemma RearrangedAt<D>(p: Items<D>, plan: Plan, o: nat)
    requires PlanFits(p, plan) && UsedOnce(plan) && InPage(p, o)
    ensures At(Rearranged(p, plan), o)
            == if o in plan.dead then Dead
               else if o in plan.placeholder || IsSrc(plan.moves, o) then Placeholder
               else if IsDest(plan.moves, o) then (SrcOfInPage(p, plan.moves, o); At(p, SrcOf(plan.moves, o)))
               else At(p, o)
  {
    var m := plan.moves;
    var p2 := Replaced(Replaced(p, plan.dead, _ => Dead), plan.placeholder, _ => Placeholder);
    OnceAt(plan, o);
    RoleCounts(m, o);
    SwapAllAt(p2, m, o);
    if IsDest(m, o) {
      SrcOfInPage(p, m, o);
      SrcOfIsSrc(m, o);
      OnceAt(plan, SrcOf(m, o));
      RoleCounts(m, SrcOf(m, o));
      assert At(p2, SrcOf(m, o)) == At(p, SrcOf(m, o));
    }
  }

  /** Carrying out a plan that uses each offset once has the effect `After` describes. */
  lemma ApplyPlanAt<D>(p: Items<D>, plan: Plan, o: nat)
    requires PlanFits(p, plan) && UsedOnce(plan) && InPage(p, o)
    ensures PlanInPage(p, plan)
    ensures At(ApplyPlan(p, plan), o) == After(p, plan, o)
  {
    RearrangedAt(p, plan, o);
    RelinkedAt(Rearranged(p, plan), plan.links, o);
  }
}
