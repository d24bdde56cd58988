/** A leaf-page plan uses every offset at most once and accounts for exactly the
    deletable tuples that lie on chains. */
module VacuumCounts {
  import opened LeafPage
  import opened Lists
  import opened LeafChains
  import opened VacuumPlan
  import opened VacuumPage

  lemma {:induction false} DropCons(del: set<nat>, h: nat, t: seq<nat>)
    ensures Keep(del, [h] + t) == (if h in del then [] else [h]) + Keep(del, t)
    ensures Drop(del, [h] + t) == (if h in del then [h] else []) + Drop(del, t)
    decreases |t|
  {
    if t == [] {
      assert ([h] + t)[..0] == [] && [h] + t == [h];
      assert Keep(del, []) == [] && Drop(del, []) == [];
    } else {
      var c := [h] + t;
      assert c[..|c| - 1] == [h] + t[..|t| - 1];
      DropCons(del, h, t[..|t| - 1]);
    }
  }

  /** Tuples the plan takes away from their offsets. */
  function Removed(plan: Plan): nat { |plan.dead| + |plan.placeholder| + |plan.moves| }

  lemma ChainShape<D>(p: Items<D>, del: set<nat>, c: seq<nat>)
    requires |c| > 0 && AllLive(p, c)
    ensures var plan, rest := ChainPlan(p, del, c), Keep(del, c[1..]);
      && plan.placeholder == Drop(del, c[1..])
      && plan.dead == (if c[0] in del && rest == [] then [c[0]] else [])
      && Srcs(plan.moves) == (if c[0] in del && rest != [] then [rest[0]] else [])
      && Dests(plan.moves) == (if c[0] in del && rest != [] then [c[0]] else [])
    ensures |Drop(del, c)| == (if c[0] in del then 1 else 0) + |Drop(del, c[1..])|
  {
    assert c == [c[0]] + c[1..];
    DropCons(del, c[0], c[1..]);
  }

  lemma ChainUses<D>(p: Items<D>, del: set<nat>, c: seq<nat>)
    requires |c| > 0 && AllLive(p, c)
    ensures Uses(ChainPlan(p, del, c)) <= multiset(c)
  {
    ChainShape(p, del, c);
    var h, t, rest := c[0], c[1..], Keep(del, c[1..]);
    KeepDropFacts(del, t);
    assert c == [h] + t;
    assert multiset(c) == multiset{h} + multiset(rest) + multiset(Drop(del, t));
    UsesFit(ChainPlan(p, del, c), h, rest, Drop(del, t));
  }

  lemma UsesFit(plan: Plan, h: nat, rest: seq<nat>, dropped: seq<nat>)
    requires plan.placeholder == dropped && (plan.dead == [] || (plan.dead == [h] && Srcs(plan.moves) == [] == Dests(plan.moves)))
    requires (Srcs(plan.moves) == [] == Dests(plan.moves))
             || (rest != [] && Srcs(plan.moves) == [rest[0]] && Dests(plan.moves) == [h] && plan.dead == [])
    ensures Uses(plan) <= multiset{h} + multiset(rest) + multiset(dropped)
  {
    if rest != [] {
      assert rest == [rest[0]] + rest[1..];
      assert multiset(rest) == multiset{rest[0]} + multiset(rest[1..]);
    }
  }

  lemma ChainRemoves<D>(p: Items<D>, del: set<nat>, c: seq<nat>)
    requires |c| > 0 && AllLive(p, c)
    ensures Removed(ChainPlan(p, del, c)) == |Drop(del, c)|
  {
    ChainShape(p, del, c);
    var plan := ChainPlan(p, del, c);
    assert |plan.moves| == |Srcs(plan.moves)|;
  }

  ghost function CoveredSet<D>(p: Items<D>, n: nat): set<nat> { set o: nat | 1 <= o <= |p| && Covered(p, n, o) }

  lemma CoveredStep<D>(p: Items<D>, n: nat)
    requires HeadsDone(p, n) && n > 0
    ensures !IsHead(p, n) ==> CoveredSet(p, n) == CoveredSet(p, n - 1)
    ensures IsHead(p, n) ==> (forall o :: o in CoveredSet(p, n) <==> o in CoveredSet(p, n - 1) || o in ChainOf(p, n))
    ensures IsHead(p, n) ==> (forall o | o in ChainOf(p, n) :: o !in CoveredSet(p, n - 1))
  {
    forall o | Covered(p, n, o) && !Covered(p, n - 1, o) ensures IsHead(p, n) && o in ChainOf(p, n) {
      var c :| IsChain(p, c) && c[0] <= n && o in c;
      assert c[0] == n;
      ChainUnique(p, c, ChainOf(p, n));
    }
    forall o | Covered(p, n - 1, o) ensures Covered(p, n, o) {
      var c :| IsChain(p, c) && c[0] <= n - 1 && o in c;
    }
    if IsHead(p, n) {
      var c := ChainOf(p, n);
      ChainIsAlive(p, c);
      forall o | o in c ensures o !in CoveredSet(p, n - 1) && o in CoveredSet(p, n) {
        UncoveredByOthers(p, n - 1, c, o);
        assert IsLive(p, o);
      }
    }
  }

  lemma {:induction false} NoDupMultiset(s: seq<nat>, o: nat)
    requires NoDup(s)
    ensures multiset(s)[o] <= 1
  {
    if s != [] {
      var r := s[..|s| - 1];
      assert s == r + [s[|s| - 1]];
      NoDupMultiset(r, o);
      assert s[|s| - 1] !in r;
    }
  }

  ghost function Budget<D>(p: Items<D>, n: nat, o: nat): nat { if Covered(p, n, o) then 1 else 0 }

  lemma {:induction false} BelowUses<D>(p: Items<D>, del: set<nat>, n: nat, o: nat, plan: Plan)
    requires HeadsDone(p, n) && plan == PlanBelow(p, del, n)
    ensures Uses(plan)[o] <= Budget(p, n, o)
    decreases n
  {
    if n == 0 {
      NothingUsed();
    } else {
      var a, b := PlanBelow(p, del, n - 1), HeadPlan(p, del, n);
      BelowUses(p, del, n - 1, o, a);
      HeadUsesOnce(p, del, n, o);
      UsesAdd(plan, a, b, o);
    }
  }

  lemma UsesAdd(whole: Plan, a: Plan, b: Plan, o: nat)
    requires whole == Append(a, b)
    ensures Uses(whole)[o] == Uses(a)[o] + Uses(b)[o]
  {
    AppendUses(a, b);
  }

  lemma HeadUsesOnce<D>(p: Items<D>, del: set<nat>, n: nat, o: nat)
    requires HeadsDone(p, n) && n > 0
    ensures Uses(HeadPlan(p, del, n))[o] + Budget(p, n - 1, o) <= Budget(p, n, o)
  {
    assert Covered(p, n - 1, o) ==> Covered(p, n, o);
    if IsHead(p, n) {
      ChainIsAlive(p, ChainOf(p, n));
      ChainUsesOnce(p, del, n, ChainOf(p, n), o);
    } else {
      NothingUsed();
    }
  }

  lemma ChainUsesOnce<D>(p: Items<D>, del: set<nat>, n: nat, c: seq<nat>, o: nat)
    requires LinksOk(p) && IsChain(p, c) && AllLive(p, c) && c[0] == n
    ensures Uses(ChainPlan(p, del, c))[o] <= 1
    ensures Uses(ChainPlan(p, del, c))[o] > 0 ==> Covered(p, n, o) && !Covered(p, n - 1, o)
  {
    ChainIsAlive(p, c);
    ChainUses(p, del, c);
    NoDupMultiset(c, o);
    assert Uses(ChainPlan(p, del, c))[o] <= multiset(c)[o];
    if o in c {
      UncoveredByOthers(p, n - 1, c, o);
    }
  }

  lemma NothingUsed()
    ensures Uses(EmptyPlan) == multiset{} && Removed(EmptyPlan) == 0
  {
    assert Srcs([]) == [] && Dests([]) == [];
  }

  lemma AppendUses(a: Plan, b: Plan)
    ensures Uses(Append(a, b)) == Uses(a) + Uses(b)
    ensures Removed(Append(a, b)) == Removed(a) + Removed(b)
  {
    assert Srcs(a.moves + b.moves) == Srcs(a.moves) + Srcs(b.moves);
    assert Dests(a.moves + b.moves) == Dests(a.moves) + Dests(b.moves);
  }

  lemma DropCount(del: set<nat>, c: seq<nat>)
    requires NoDup(c)
    ensures |Drop(del, c)| == |del * Members(c)|
  {
    KeepDropFacts(del, c);
    KeepOrder(del, c);
    NoDupCount(Drop(del, c));
    assert Members(Drop(del, c)) == del * Members(c);
  }

  /** The plan removes exactly the deletable tuples on the chains handled so far. */
  lemma {:induction false} BelowRemoves<D>(p: Items<D>, del: set<nat>, n: nat, plan: Plan)
    requires HeadsDone(p, n) && plan == PlanBelow(p, del, n)
    ensures Removed(plan) == |del * CoveredSet(p, n)|
    decreases n
  {
    if n == 0 {
      NothingCovered(p, del);
    } else {
      var a, b := PlanBelow(p, del, n - 1), HeadPlan(p, del, n);
      BelowRemoves(p, del, n - 1, a);
      HeadRemoves(p, del, n);
      RemovedAdd(plan, a, b);
    }
  }

  lemma RemovedAdd(whole: Plan, a: Plan, b: Plan)
    requires whole == Append(a, b)
    ensures Removed(whole) == Removed(a) + Removed(b)
  {
  }

  lemma NothingCovered<D>(p: Items<D>, del: set<nat>)
    ensures |del * CoveredSet(p, 0)| == 0
  {
    forall o ensures !Covered(p, 0, o) {
      if c :| IsChain(p, c) && c[0] <= 0 && o in c { }
    }
    assert del * CoveredSet(p, 0) == {};
  }

  lemma HeadRemoves<D>(p: Items<D>, del: set<nat>, n: nat)
    requires HeadsDone(p, n) && n > 0
    ensures Removed(HeadPlan(p, del, n)) == |del * CoveredSet(p, n)| - |del * CoveredSet(p, n - 1)|
  {
    CoveredStep(p, n);
    if IsHead(p, n) {
      var c := ChainOf(p, n);
      ChainIsAlive(p, c);
      ChainRemoves(p, del, c);
      DropCount(del, c);
      SplitCount(del, CoveredSet(p, n - 1), Members(c), CoveredSet(p, n));
    }
  }

  lemma SplitCount(del: set<nat>, a: set<nat>, b: set<nat>, ab: set<nat>)
    requires (forall o :: o in ab <==> o in a || o in b) && forall o | o in b :: o !in a
    ensures |del * ab| == |del * a| + |del * b|
  {
    assert del * ab == del * a + del * b;
    assert (del * a) * (del * b) == {};
  }

  lemma {:induction false} BelowFits<D>(p: Items<D>, del: set<nat>, n: nat, plan: Plan)
    requires HeadsDone(p, n) && plan == PlanBelow(p, del, n)
    ensures PlanFits(p, plan)
    decreases n
  {
    if n > 0 {
      var a, b := PlanBelow(p, del, n - 1), HeadPlan(p, del, n);
      BelowFits(p, del, n - 1, a);
      HeadFits(p, del, n, b);
      FitsAppend(p, a, b);
    }
  }

  lemma HeadFits<D>(p: Items<D>, del: set<nat>, n: nat, plan: Plan)
    requires HeadsDone(p, n) && n > 0 && plan == HeadPlan(p, del, n)
    ensures PlanFits(p, plan)
  {
    if IsHead(p, n) {
      ChainFits(p, del, ChainOf(p, n));
    }
  }

  lemma FitsAppend<D>(p: Items<D>, a: Plan, b: Plan)
    requires PlanFits(p, a) && PlanFits(p, b)
    ensures PlanFits(p, Append(a, b))
  {
  }

  lemma ChainFits<D>(p: Items<D>, del: set<nat>, c: seq<nat>)
    requires LinksOk(p) && IsChain(p, c)
    ensures AllLive(p, c) && PlanFits(p, ChainPlan(p, del, c))
  {
    ChainIsAlive(p, c);
    var plan := ChainPlan(p, del, c);
    forall o | Touches(plan, o) ensures InPage(p, o) {
      ChainTouches(p, del, c, o);
      assert IsLive(p, o);
    }
    forall k | 0 <= k < |plan.links| ensures InPage(p, plan.links[k].src) {
      assert Touches(plan, plan.links[k].src);
    }
    forall k | 0 <= k < |plan.moves| ensures InPage(p, plan.moves[k].src) && InPage(p, plan.moves[k].dest) {
      assert IsSrc(plan.moves, plan.moves[k].src) && IsDest(plan.moves, plan.moves[k].dest);
    }
  }

  /** What the vacuum promises about the new page `q`. */
  ghost predicate Vacuumed<D>(p: Items<D>, del: set<nat>, q: Items<D>)
    requires LinksOk(p)
  {
    && |q| == |p|
    && (forall c | IsChain(p, c) :: (ChainIsAlive(p, c); ChainVacuumed(p, del, c, q)))
    && (forall o: nat | InPage(p, o) && !OnChain(p, o) :: At(q, o) == At(p, o))
  }

  /** Carrying out the plan of all chains vacuums every chain and leaves the rest alone. */
  lemma PlanVacuums<D>(p: Items<D>, del: set<nat>)
    requires HeadsDone(p, |p|)
    ensures PlanFits(p, PlanBelow(p, del, |p|))
    ensures Vacuumed(p, del, ApplyPlan(p, PlanBelow(p, del, |p|)))
  {
    var plan := PlanBelow(p, del, |p|);
    BelowFits(p, del, |p|, plan);
    forall o ensures Uses(plan)[o] <= 1 { BelowUses(p, del, |p|, o, plan); }
    var q := ApplyPlan(p, plan);
    forall c | IsChain(p, c) ensures AllLive(p, c) && ChainVacuumed(p, del, c, q) {
      ChainIsAlive(p, c);
      MoveRoles(p, del, c);
      assert IsLive(p, c[0]);
      forall o | o in c ensures At(q, o) == After(p, ChainPlan(p, del, c), o) {
        BelowAfter(p, del, |p|, c, o, plan);
        ApplyPlanAt(p, plan, o);
      }
      ChainPlanMeaning(p, del, c, q);
    }
    forall o: nat | InPage(p, o) && !OnChain(p, o) ensures At(q, o) == At(p, o) {
      BelowTouches(p, del, |p|, o);
      ApplyPlanAt(p, plan, o);
      UntouchedAfter(p, plan, o);
    }
  }
}
