/** The work list of a leaf-page vacuum and what carrying it out does to each chain. */
module VacuumPlan {
  import opened LeafPage
  import opened Lists
  import opened LeafChains

  /** A tuple to relocate, and a chain link to rewrite. */
  datatype Move = Move(src: nat, dest: nat)
  datatype Link = Link(src: nat, dest: nat)

  /** Offsets that become DEAD, offsets that become placeholders, tuples that move to
      the head of their chain, and links to update; in the order they are carried out. */
  datatype Plan = Plan(dead: seq<nat>, placeholder: seq<nat>, moves: seq<Move>, links: seq<Link>)

  const EmptyPlan: Plan := Plan([], [], [], [])

  function Append(a: Plan, b: Plan): Plan {
    Plan(a.dead + b.dead, a.placeholder + b.placeholder, a.moves + b.moves, a.links + b.links)
  }

  // ---- the plan for one chain ----

  /** The surviving members of a chain, and the deleted ones, in order. */
  ghost function Keep(del: set<nat>, c: seq<nat>): seq<nat> {
    if c == [] then [] else
      var k := Keep(del, c[..|c| - 1]);
      if c[|c| - 1] in del then k else k + [c[|c| - 1]]
  }

  ghost function Drop(del: set<nat>, c: seq<nat>): seq<nat> {
    if c == [] then [] else
      var k := Drop(del, c[..|c| - 1]);
      if c[|c| - 1] in del then k + [c[|c| - 1]] else k
  }

  /** Where survivor `k` of the chain with head `h` ends up: the first one at the head. */
  ghost function Place(h: nat, s: seq<nat>, k: nat): nat
    requires k < |s|
  {
    if k == 0 then h else s[k]
  }

  ghost predicate AllLive<D>(p: Items<D>, s: seq<nat>) { forall o | o in s :: IsLive(p, o) }

  /** Link updates among the survivors `s`, where deleted tuples left a gap. */
  ghost function GapLinks<D>(p: Items<D>, h: nat, s: seq<nat>): seq<Link>
    requires AllLive(p, s)
  {
    if |s| <= 1 then [] else
      var m := |s| - 2;
      GapLinks(p, h, s[..|s| - 1]) + if NextOf(p, s[m]) != s[m + 1] then [Link(Place(h, s, m), s[m + 1])] else []
  }

  ghost function EndLink<D>(p: Items<D>, h: nat, s: seq<nat>): seq<Link>
    requires AllLive(p, s)
  {
    if s != [] && NextOf(p, s[|s| - 1]) != 0 then [Link(Place(h, s, |s| - 1), 0)] else []
  }

  ghost function ChainPlan<D>(p: Items<D>, del: set<nat>, c: seq<nat>): Plan
    requires |c| > 0 && AllLive(p, c)
  {
    KeepDropFacts(del, c);
    var h, s := c[0], Keep(del, c);
    Plan(if s == [] then [h] else [],
         Drop(del, c[1..]),
         if s != [] && h in del then [Move(s[0], h)] else [],
         GapLinks(p, h, s) + EndLink(p, h, s))
  }

  lemma {:induction false} KeepDropFacts(del: set<nat>, c: seq<nat>)
    ensures forall o :: o in Keep(del, c) <==> o in c && o !in del
    ensures forall o :: o in Drop(del, c) <==> o in c && o in del
    ensures multiset(Keep(del, c)) + multiset(Drop(del, c)) == multiset(c)
  {
    if c != [] {
      KeepDropFacts(del, c[..|c| - 1]);
      assert c == c[..|c| - 1] + [c[|c| - 1]];
    }
  }

  lemma {:induction false} KeepNoDup(del: set<nat>, c: seq<nat>)
    requires NoDup(c)
    ensures NoDup(Keep(del, c)) && NoDup(Drop(del, c))
  {
    if c != [] {
      KeepNoDup(del, c[..|c| - 1]);
      KeepDropFacts(del, c[..|c| - 1]);
      assert c[|c| - 1] !in c[..|c| - 1];
    }
  }

  lemma {:induction false} KeepHead(del: set<nat>, c: seq<nat>)
    requires NoDup(c) && c != []
    ensures c[0] !in del ==> Keep(del, c) != [] && Keep(del, c)[0] == c[0]
    ensures forall k | 0 < k < |Keep(del, c)| :: Keep(del, c)[k] != c[0]
  {
    var d := c[..|c| - 1];
    if d == [] {
      assert Keep(del, d) == [];
    } else {
      KeepHead(del, d);
      assert d[0] == c[0] != c[|c| - 1];
    }
  }

  lemma KeepOrder(del: set<nat>, c: seq<nat>)
    requires NoDup(c)
    ensures NoDup(Keep(del, c)) && NoDup(Drop(del, c))
    ensures c != [] && c[0] !in del ==> Keep(del, c) != [] && Keep(del, c)[0] == c[0]
    ensures c != [] ==> forall k | 0 < k < |Keep(del, c)| :: Keep(del, c)[k] != c[0]
  {
    KeepNoDup(del, c);
    if c != [] { KeepHead(del, c); }
  }

  // ---- carrying out a plan ----

  ghost predicate IsSrc(m: seq<Move>, o: nat) { exists k :: 0 <= k < |m| && m[k].src == o }

  ghost predicate IsDest(m: seq<Move>, o: nat) { exists k :: 0 <= k < |m| && m[k].dest == o }

  ghost function SrcOf(m: seq<Move>, o: nat): nat
    requires IsDest(m, o)
  {
    if m[|m| - 1].dest == o then m[|m| - 1].src else SrcOf(m[..|m| - 1], o)
  }

  /** The link of `o` after all updates, the last one counting. */
  ghost function LinkAfter(links: seq<Link>, o: nat, next: nat): nat {
    if links == [] then next
    else if links[|links| - 1].src == o then links[|links| - 1].dest
    else LinkAfter(links[..|links| - 1], o, next)
  }

  /** What stands at offset `o` when the plan has been carried out. */
  ghost function After<D>(p: Items<D>, plan: Plan, o: nat): Tuple<D>
    requires InPage(p, o) && PlanInPage(p, plan)
  {
    var t := if o in plan.dead then Dead
             else if o in plan.placeholder || IsSrc(plan.moves, o) then Placeholder
             else if IsDest(plan.moves, o) then (SrcOfInPage(p, plan.moves, o); At(p, SrcOf(plan.moves, o)))
             else At(p, o);
    if t.Live? then t.(next := LinkAfter(plan.links, o, t.next)) else t
  }

  lemma {:induction false} SrcOfInPage<D>(p: Items<D>, m: seq<Move>, o: nat)
    requires IsDest(m, o)
    ensures exists k :: 0 <= k < |m| && m[k] == Move(SrcOf(m, o), o)
    ensures (forall x | x in m :: InPage(p, x.src)) ==> InPage(p, SrcOf(m, o))
    decreases |m|
  {
    if m[|m| - 1].dest != o {
      var k :| 0 <= k < |m| && m[k].dest == o;
      assert m[..|m| - 1][k].dest == o;
      SrcOfInPage(p, m[..|m| - 1], o);
      var j :| 0 <= j < |m| - 1 && m[..|m| - 1][j] == Move(SrcOf(m, o), o);
      assert m[j] == Move(SrcOf(m, o), o);
    }
  }

  ghost predicate Touches(plan: Plan, o: nat) {
    || o in plan.dead || o in plan.placeholder || IsSrc(plan.moves, o) || IsDest(plan.moves, o)
    || exists k :: 0 <= k < |plan.links| && plan.links[k].src == o
  }

  lemma {:induction false} LinkAfterAppend(a: seq<Link>, b: seq<Link>, o: nat, next: nat)
    ensures LinkAfter(a + b, o, next) == LinkAfter(b, o, LinkAfter(a, o, next))
    decreases |b|
  {
    if b == [] {
      assert a + b == a;
    } else {
      LinkAfterAppend(a, b[..|b| - 1], o, next);
      assert (a + b)[..|a + b| - 1] == a + b[..|b| - 1];
    }
  }

  lemma {:induction false} LinkUntouched(links: seq<Link>, o: nat, next: nat)
    requires forall k | 0 <= k < |links| :: links[k].src != o
    ensures LinkAfter(links, o, next) == next
  {
    if links != [] {
      LinkUntouched(links[..|links| - 1], o, next);
    }
  }

  lemma {:induction false} SrcOfAppend(a: seq<Move>, b: seq<Move>, o: nat)
    ensures IsSrc(a + b, o) <==> IsSrc(a, o) || IsSrc(b, o)
    ensures IsDest(a + b, o) <==> IsDest(a, o) || IsDest(b, o)
    ensures IsDest(b, o) ==> SrcOf(a + b, o) == SrcOf(b, o)
    ensures IsDest(a, o) && !IsDest(b, o) ==> SrcOf(a + b, o) == SrcOf(a, o)
    decreases |b|
  {
    assert forall k | 0 <= k < |a| :: (a + b)[k] == a[k];
    assert forall k | 0 <= k < |b| :: (a + b)[|a| + k] == b[k];
    if b == [] {
      assert a + b == a;
    } else {
      var b' := b[..|b| - 1];
      SrcOfAppend(a, b', o);
      assert (a + b)[..|a + b| - 1] == a + b';
      assert IsDest(b, o) <==> IsDest(b', o) || b[|b| - 1].dest == o by {
        assert forall k | 0 <= k < |b'| :: b'[k] == b[k];
      }
    }
  }

  /** Plans that touch different offsets do not interfere. */
  lemma AfterAppend<D>(p: Items<D>, a: Plan, b: Plan, o: nat)
    requires InPage(p, o)
    requires forall m | m in Append(a, b).moves :: InPage(p, m.src)
    ensures forall m | m in a.moves :: InPage(p, m.src)
    ensures forall m | m in b.moves :: InPage(p, m.src)
    ensures Touches(Append(a, b), o) ==> Touches(a, o) || Touches(b, o)
    ensures !Touches(a, o) ==> After(p, Append(a, b), o) == After(p, b, o)
    ensures !Touches(b, o) ==> After(p, Append(a, b), o) == After(p, a, o)
  {
    assert forall m | m in a.moves :: m in Append(a, b).moves;
    assert forall m | m in b.moves :: m in Append(a, b).moves;
    SrcOfAppend(a.moves, b.moves, o);
    LinkTouches(a.links, b.links, o);
  }

  lemma LinkTouches(a: seq<Link>, b: seq<Link>, o: nat)
    ensures (exists k :: 0 <= k < |a + b| && (a + b)[k].src == o)
            ==> (exists k :: 0 <= k < |a| && a[k].src == o) || (exists k :: 0 <= k < |b| && b[k].src == o)
    ensures !(exists k :: 0 <= k < |a| && a[k].src == o) ==> forall next :: LinkAfter(a + b, o, next) == LinkAfter(b, o, next)
    ensures !(exists k :: 0 <= k < |b| && b[k].src == o) ==> forall next :: LinkAfter(a + b, o, next) == LinkAfter(a, o, next)
  {
    if k :| 0 <= k < |a + b| && (a + b)[k].src == o {
      assert if k < |a| then a[k].src == o else b[k - |a|].src == o;
    }
    forall next ensures LinkAfter(a + b, o, next) == LinkAfter(b, o, LinkAfter(a, o, next)) {
      LinkAfterAppend(a, b, o, next);
    }
    if !(exists k :: 0 <= k < |a| && a[k].src == o) {
      forall next ensures LinkAfter(a, o, next) == next { LinkUntouched(a, o, next); }
    }
    if !(exists k :: 0 <= k < |b| && b[k].src == o) {
      forall next ensures LinkAfter(b, o, next) == next { LinkUntouched(b, o, next); }
    }
  }

  // ---- the plan of one chain does what it should ----

  ghost predicate LinkSource(links: seq<Link>, o: nat) { exists k :: 0 <= k < |links| && links[k].src == o }

  lemma {:induction false} GapLinkSources<D>(p: Items<D>, h: nat, s: seq<nat>, o: nat)
    requires AllLive(p, s) && LinkSource(GapLinks(p, h, s), o)
    ensures |s| > 1 && (o == h || o in s[..|s| - 1])
    decreases |s|
  {
    var g := GapLinks(p, h, s[..|s| - 1]);
    var k :| 0 <= k < |GapLinks(p, h, s)| && GapLinks(p, h, s)[k].src == o;
    if k < |g| {
      assert g[k].src == o;
      GapLinkSources(p, h, s[..|s| - 1], o);
      assert o == h || o in s[..|s| - 1];
    } else {
      assert s[..|s| - 1][|s| - 2] == s[|s| - 2];
    }
  }

  lemma {:induction false} GapLinksMeaning<D>(p: Items<D>, h: nat, s: seq<nat>, k: nat)
    requires NoDup(s) && (forall k | 0 < k < |s| :: s[k] != h) && AllLive(p, s)
    requires k + 1 < |s|
    ensures LinkAfter(GapLinks(p, h, s), Place(h, s, k), NextOf(p, s[k])) == s[k + 1]
    decreases |s|
  {
    var r, m := s[..|s| - 1], |s| - 2;
    var g, l := GapLinks(p, h, r), [Link(Place(h, s, m), s[m + 1])];
    assert (g + l)[..|g|] == g && g + [] == g;
    if k < m {
      GapLinksMeaning(p, h, r, k);
      assert Place(h, s, k) == Place(h, r, k) != Place(h, s, m);
    } else {
      if LinkSource(g, Place(h, s, m)) {
        GapLinkSources(p, h, r, Place(h, s, m));
      }
      LinkUntouched(g, Place(h, s, m), NextOf(p, s[m]));
    }
  }

  ghost function NextPlace(s: seq<nat>, k: nat): nat
    requires k < |s|
  {
    if k + 1 < |s| then s[k + 1] else 0
  }

  lemma ChainLinksMeaning<D>(p: Items<D>, h: nat, s: seq<nat>, k: nat)
    requires NoDup(s) && (forall k | 0 < k < |s| :: s[k] != h) && AllLive(p, s)
    requires k < |s|
    ensures LinkAfter(GapLinks(p, h, s) + EndLink(p, h, s), Place(h, s, k), NextOf(p, s[k])) == NextPlace(s, k)
  {
    var g: seq<Link>, e: seq<Link> := GapLinks(p, h, s), EndLink(p, h, s);
    LinkAfterAppend(g, e, Place(h, s, k), NextOf(p, s[k]));
    if k + 1 < |s| {
      GapLinksMeaning(p, h, s, k);
    } else {
      if LinkSource(g, Place(h, s, k)) {
        GapLinkSources(p, h, s, Place(h, s, k));
      }
      LinkUntouched(g, Place(h, s, k), NextOf(p, s[k]));
    }
  }

  lemma ChainLinkSources<D>(p: Items<D>, h: nat, s: seq<nat>, o: nat)
    requires AllLive(p, s) && LinkSource(GapLinks(p, h, s) + EndLink(p, h, s), o)
    ensures s != [] && (o == h || o in s)
  {
    var g: seq<Link>, e: seq<Link> := GapLinks(p, h, s), EndLink(p, h, s);
    var k: nat :| k < |g + e| && (g + e)[k].src == o;
    if k < |g| {
      assert g[k].src == o;
      GapLinkSources(p, h, s, o);
    } else {
      assert e[k - |g|].src == o;
    }
  }

  /** Survivor `k` stands at its place and links to the next one. */
  ghost predicate InItsPlace<D>(p: Items<D>, q: Items<D>, h: nat, s: seq<nat>, k: nat)
    requires k < |s|
  {
    IsLive(p, s[k]) && InPage(q, Place(h, s, k)) && At(q, Place(h, s, k)) == At(p, s[k]).(next := NextPlace(s, k))
  }

  /** A chain after the vacuum, on page `q`: its survivors in their old order, linked
      from the old head on; or a DEAD tuple when there is none. */
  ghost predicate ChainVacuumed<D>(p: Items<D>, del: set<nat>, c: seq<nat>, q: Items<D>)
    requires |q| == |p| && |c| > 0 && AllLive(p, c)
  {
    KeepDropFacts(del, c);
    var h, s := c[0], Keep(del, c);
    assert IsLive(p, h);
    && (s == [] ==> At(q, h) == Dead)
    && (forall k | 0 <= k < |s| :: InItsPlace(p, q, h, s, k))
    && (forall o | o in c && o != h && Leaves(del, c, o) :: At(q, o) == Placeholder)
  }

  /** A member that is deleted, or moved to the head. */
  ghost predicate Leaves(del: set<nat>, c: seq<nat>, o: nat) {
    o in del || (Keep(del, c) != [] && o == Keep(del, c)[0])
  }

  /** What each member of a chain turns into, before the links are updated. */
  lemma MemberRoles<D>(p: Items<D>, del: set<nat>, c: seq<nat>)
    requires |c| > 0 && NoDup(c) && AllLive(p, c)
    ensures var h, s, plan := c[0], Keep(del, c), ChainPlan(p, del, c);
      && (forall o | o in c && o != h :: o !in plan.dead && (o in plan.placeholder <==> o in del))
      && h !in plan.placeholder && (h in plan.dead <==> s == [])
  {
    KeepDropFacts(del, c);
    KeepDropFacts(del, c[1..]);
    assert forall o :: o in c <==> o == c[0] || o in c[1..];
  }

  lemma MoveRoles<D>(p: Items<D>, del: set<nat>, c: seq<nat>)
    requires |c| > 0 && NoDup(c) && AllLive(p, c)
    ensures var h, s, plan := c[0], Keep(del, c), ChainPlan(p, del, c);
      && PlanInPage(p, plan)
      && (forall o :: IsSrc(plan.moves, o) <==> s != [] && h in del && o == s[0])
      && (forall o :: IsDest(plan.moves, o) <==> s != [] && h in del && o == h)
      && (IsDest(plan.moves, h) ==> SrcOf(plan.moves, h) == s[0])
  {
    KeepDropFacts(del, c);
    var m := ChainPlan(p, del, c).moves;
    if m == [] {
      NoMoves(m);
    } else {
      assert Keep(del, c)[0] in c;
      OneMove(m, Keep(del, c)[0], c[0]);
    }
  }

  lemma NoMoves(m: seq<Move>)
    requires m == []
    ensures forall o :: !IsSrc(m, o) && !IsDest(m, o)
  {
  }

  lemma OneMove(m: seq<Move>, src: nat, dest: nat)
    requires m == [Move(src, dest)]
    ensures forall o :: (IsSrc(m, o) <==> o == src) && (IsDest(m, o) <==> o == dest)
    ensures SrcOf(m, dest) == src
  {
    assert m[0] == Move(src, dest);
  }

  lemma Survivors<D>(p: Items<D>, del: set<nat>, c: seq<nat>)
    requires |c| > 0 && NoDup(c) && AllLive(p, c)
    ensures var h, s := c[0], Keep(del, c);
      && NoDup(s) && AllLive(p, s) && (forall k | 0 <= k < |s| :: s[k] in c && s[k] !in del)
      && (forall k | 0 < k < |s| :: s[k] != h) && (s != [] && h !in del ==> s[0] == h)
  {
    KeepDropFacts(del, c);
    KeepOrder(del, c);
  }

  lemma SurvivorPlaced<D>(p: Items<D>, del: set<nat>, c: seq<nat>, k: nat)
    requires |c| > 0 && NoDup(c) && AllLive(p, c) && k < |Keep(del, c)|
    ensures var h, s, plan := c[0], Keep(del, c), ChainPlan(p, del, c);
      && PlanInPage(p, plan) && IsLive(p, s[k]) && Place(h, s, k) in c && InPage(p, Place(h, s, k))
      && After(p, plan, Place(h, s, k)) == At(p, s[k]).(next := NextPlace(s, k))
  {
    MemberRoles(p, del, c);
    MoveRoles(p, del, c);
    Survivors(p, del, c);
    var h, s := c[0], Keep(del, c);
    ChainLinksMeaning(p, h, s, k);
    assert IsLive(p, h) && IsLive(p, s[k]) && s[k] in c;
  }

  lemma ChainPlanMeaning<D>(p: Items<D>, del: set<nat>, c: seq<nat>, q: Items<D>)
    requires |c| > 0 && NoDup(c) && AllLive(p, c) && |q| == |p|
    requires PlanInPage(p, ChainPlan(p, del, c)) && forall o | o in c :: At(q, o) == After(p, ChainPlan(p, del, c), o)
    ensures ChainVacuumed(p, del, c, q)
  {
    Survivors(p, del, c);
    var h, s := c[0], Keep(del, c);
    forall k | 0 <= k < |s| ensures InItsPlace(p, q, h, s, k) {
      SurvivorPlaced(p, del, c, k);
    }
    forall o | o in c
      ensures IsLive(p, o)
      ensures o == c[0] && s == [] ==> At(q, o) == Dead
      ensures o != c[0] && Leaves(del, c, o) ==> At(q, o) == Placeholder
    {
      assert IsLive(p, o);
      GoneMember(p, del, c, o);
    }
  }

  /** What is left at the offset of a member that does not survive there. */
  lemma GoneMember<D>(p: Items<D>, del: set<nat>, c: seq<nat>, o: nat)
    requires |c| > 0 && NoDup(c) && AllLive(p, c) && PlanInPage(p, ChainPlan(p, del, c)) && o in c && InPage(p, o)
    ensures o == c[0] && Keep(del, c) == [] ==> After(p, ChainPlan(p, del, c), o) == Dead
    ensures o != c[0] && Leaves(del, c, o) ==> After(p, ChainPlan(p, del, c), o) == Placeholder
  {
    MemberRoles(p, del, c);
    MoveRoles(p, del, c);
    KeepOrder(del, c);
  }

  ghost predicate PlanInPage<D>(p: Items<D>, plan: Plan) { forall m | m in plan.moves :: InPage(p, m.src) }
}
