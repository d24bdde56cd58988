/** The vacuum of a leaf page from scan to log record, and the replay of that record. */
module VacuumRun {
  import opened LeafPage
  import opened Lists
  import opened LeafChains
  import opened VacuumPlan
  import opened VacuumPage
  import opened VacuumCounts
  import opened VacuumLeaf
  import opened LeafBuffer

  // ---- carrying out a plan on a buffer ----

  method SwapLinePointers<D>(b: Buffer<D>, moves: seq<Move>)
    requires MovesInPage(b.items, moves)
    modifies b`items
    ensures b.items == SwapAll(old(b.items), moves)
  {
    var i := 0;
    while i < |moves|
      invariant 0 <= i <= |moves| && |b.items| == |old(b.items)|
      invariant MovesInPage(old(b.items), moves[..i]) && b.items == SwapAll(old(b.items), moves[..i])
    {
      var m := moves[i];
      assert moves[..i + 1][..i] == moves[..i] && moves[..i + 1][i] == m;
      var idSrc, idDest := At(b.items, m.src), At(b.items, m.dest);
      b.items := Put(Put(b.items, m.src, idDest), m.dest, idSrc);
      i := i + 1;
    }
    assert moves[..i] == moves;
  }

  method SetLinks<D>(b: Buffer<D>, links: seq<Link>)
    requires LinksInPage(b.items, links)
    modifies b`items
    ensures b.items == Relinked(old(b.items), links)
  {
    var i := 0;
    while i < |links|
      invariant 0 <= i <= |links| && |b.items| == |old(b.items)|
      invariant LinksInPage(old(b.items), links[..i]) && b.items == Relinked(old(b.items), links[..i])
    {
      var l := links[i];
      assert links[..i + 1][..i] == links[..i] && links[..i + 1][i] == l;
      var lt := At(b.items, l.src);
      if lt.Live? {
        b.items := Put(b.items, l.src, lt.(next := l.dest));
      }
      i := i + 1;
    }
    assert links[..i] == links;
  }

  lemma {:induction false} OnceIsNoDup(s: seq<nat>)
    requires forall o: nat :: multiset(s)[o] <= 1
    ensures NoDup(s)
  {
    forall j, k | 0 <= j < k < |s| ensures s[j] != s[k] {
      assert s == s[..j] + [s[j]] + s[j + 1..k] + [s[k]] + s[k + 1..];
      var m: multiset<nat> := multiset(s);
      assert m == multiset(s[..j]) + multiset{s[j]} + multiset(s[j + 1..k]) + multiset{s[k]} + multiset(s[k + 1..]);
      assert m[s[j]] <= 1;
    }
  }

  lemma PlanListsNoDup(plan: Plan)
    requires UsedOnce(plan)
    ensures NoDup(plan.dead) && NoDup(plan.placeholder) && NoDup(Srcs(plan.moves))
  {
    forall o: nat ensures multiset(plan.dead)[o] <= 1 && multiset(plan.placeholder)[o] <= 1 && multiset(Srcs(plan.moves))[o] <= 1 {
      assert Uses(plan)[o] <= 1;
    }
    OnceIsNoDup(plan.dead);
    OnceIsNoDup(plan.placeholder);
    OnceIsNoDup(Srcs(plan.moves));
  }

  /** Replacing all listed tuples by DEAD ones, or all by placeholders. */
  lemma UniformReplacement<D>(p: Items<D>, nos: seq<nat>)
    requires NoDup(nos)
    ensures Replaced(p, nos, Replacement(nos, Tuple<D>.Dead, Dead)) == Replaced(p, nos, _ => Dead)
    ensures Replaced(p, nos, Replacement(nos, Tuple<D>.Placeholder, Placeholder)) == Replaced(p, nos, _ => Placeholder)
    ensures |PlaceholdersIn(nos, Replacement(nos, Tuple<D>.Dead, Dead))| == 0
    ensures |RedirectsIn(nos, Replacement(nos, Tuple<D>.Dead, Dead))| == 0
    ensures |PlaceholdersIn(nos, Replacement(nos, Tuple<D>.Placeholder, Placeholder))| == |nos|
    ensures |RedirectsIn(nos, Replacement(nos, Tuple<D>.Placeholder, Placeholder))| == 0
  {
    assert PlaceholdersIn(nos, Replacement(nos, Tuple<D>.Dead, Dead)) == {};
    assert RedirectsIn(nos, Replacement(nos, Tuple<D>.Dead, Dead)) == {};
    assert RedirectsIn(nos, Replacement(nos, Tuple<D>.Placeholder, Placeholder)) == {};
    assert PlaceholdersIn(nos, Replacement(nos, Tuple<D>.Placeholder, Placeholder)) == Members(nos);
    NoDupCount(nos);
  }

  method MakeDead<D>(b: Buffer<D>, nos: seq<nat>)
    requires NoDup(nos) && forall o | o in nos :: InPage(b.items, o)
    modifies b
    ensures b.State() == old(b.State()).(items := Replaced(old(b.items), nos, _ => Dead))
  {
    UniformReplacement(b.items, nos);
    b.MultiDeleteInPlace(nos, Dead, Dead);
  }

  method MakePlaceholders<D>(b: Buffer<D>, nos: seq<nat>)
    requires NoDup(nos) && forall o | o in nos :: InPage(b.items, o)
    modifies b
    ensures b.State() == old(b.State()).(items := Replaced(old(b.items), nos, _ => Placeholder),
                                         nPlaceholder := old(b.nPlaceholder) + |nos|)
  {
    UniformReplacement(b.items, nos);
    b.MultiDeleteInPlace(nos, Placeholder, Placeholder);
  }

  /** The changes of a vacuum, ending with the new log position. */
  method CarryOut<D>(b: Buffer<D>, plan: Plan, recptr: nat)
    requires PlanFits(b.items, plan) && UsedOnce(plan)
    modifies b
    ensures b.State() == AfterVacuum(old(b.State()), plan, recptr)
  {
    PlanListsNoDup(plan);
    MakeDead(b, plan.dead);
    MakePlaceholders(b, plan.placeholder);
    SwapLinePointers(b, plan.moves);
    MakePlaceholders(b, Srcs(plan.moves));
    SetLinks(b, plan.links);
    b.lsn := recptr;
  }

  // ---- the vacuum ----

  /** Exactly when the vacuum refuses a page, and what it plans otherwise. */
  ghost predicate OutcomeOk<D>(p: Items<D>, callback: Callback, outcome: Outcome) {
    var del := Deletable(p, callback);
    && (outcome.BadLinks? <==> !LinksOk(p))
    && (outcome.NothingToDo? <==> LinksOk(p) && del == {})
    && (outcome.BadState? <==> LinksOk(p) && del != {} && !LinksAlive(p))
    && (outcome.BadCounts? <==> LinksOk(p) && del != {} && LinksAlive(p) && exists o :: o in del && !OnChain(p, o))
    && (outcome.Done? ==> HeadsDone(p, |p|) && outcome.plan == PlanBelow(p, del, |p|) && UsedOnce(outcome.plan)
                          && PlanFits(p, outcome.plan) && Removed(outcome.plan) == |del|)
  }

  method MakePlan<D>(p: Items<D>, callback: Callback) returns (outcome: Outcome)
    ensures OutcomeOk(p, callback, outcome)
  {
    var ok, predecessor, deletable, nDeletable := ScanPage(p, callback);
    if !ok {
      return BadLinks;
    }
    ghost var del := Deletable(p, callback);
    AllScanned(p, callback);
    if nDeletable == 0 {
      return NothingToDo;
    }
    var plan;
    ok, plan := PlanPage(p, predecessor, deletable, del);
    if !ok {
      return BadState;
    }
    CountsAgree(p, del);
    if nDeletable != |plan.dead| + |plan.placeholder| + |plan.moves| {
      return BadCounts;
    }
    PlanIsSound(p, del);
    return Done(plan);
  }

  lemma PlanIsSound<D>(p: Items<D>, del: set<nat>)
    requires HeadsDone(p, |p|)
    ensures PlanFits(p, PlanBelow(p, del, |p|)) && UsedOnce(PlanBelow(p, del, |p|))
  {
    var plan := PlanBelow(p, del, |p|);
    BelowFits(p, del, |p|, plan);
    forall o ensures Uses(plan)[o] <= 1 { BelowUses(p, del, |p|, o, plan); }
  }

  /** The whole operation. A page that is refused, or has nothing to delete, is left as
      it was; otherwise every chain keeps its surviving tuples, in order, behind its old
      head, and every other tuple its offset. */
  method VacuumLeafPage<D>(b: Buffer<D>, callback: Callback, recptr: nat) returns (outcome: Outcome)
    modifies b
    ensures OutcomeOk(old(b.items), callback, outcome)
    ensures !outcome.Done? ==> b.State() == old(b.State())
    ensures outcome.Done? ==> b.State() == AfterVacuum(old(b.State()), outcome.plan, recptr) && b.lsn == recptr
    ensures outcome.Done? ==> Vacuumed(old(b.items), Deletable(old(b.items), callback), b.items)
  {
    outcome := MakePlan(b.items, callback);
    if outcome.Done? {
      PlanVacuums(b.items, Deletable(b.items, callback));
      CarryOut(b, outcome.plan, recptr);
    }
  }

  /** The replay's own loops over the record's arrays. */
  method RedoMoves<D>(b: Buffer<D>, moves: seq<Move>)
    requires MovesInPage(b.items, moves)
    modifies b`items
    ensures b.items == SwapAll(old(b.items), moves)
  {
    var i := 0;
    while i < |moves|
      invariant 0 <= i <= |moves| && |b.items| == |old(b.items)|
      invariant MovesInPage(old(b.items), moves[..i]) && b.items == SwapAll(old(b.items), moves[..i])
    {
      var src, dest := moves[i].src, moves[i].dest;
      assert moves[..i + 1][..i] == moves[..i] && moves[..i + 1][i] == moves[i];
      var tmp := At(b.items, src);
      b.items := Put(b.items, src, At(b.items, dest));
      b.items := Put(b.items, dest, tmp);
      i := i + 1;
    }
    assert moves[..i] == moves;
  }

  method RedoLinks<D>(b: Buffer<D>, links: seq<Link>)
    requires LinksInPage(b.items, links)
    modifies b`items
    ensures b.items == Relinked(old(b.items), links)
  {
    var i := 0;
    while i < |links|
      invariant 0 <= i <= |links| && |b.items| == |old(b.items)|
      invariant LinksInPage(old(b.items), links[..i]) && b.items == Relinked(old(b.items), links[..i])
    {
      assert links[..i + 1][..i] == links[..i] && links[..i + 1][i] == links[i];
      var lt := At(b.items, links[i].src);
      if lt.Live? {
        b.items := Put(b.items, links[i].src, lt.(next := links[i].dest));
      }
      i := i + 1;
    }
    assert links[..i] == links;
  }

  /** Replay of the record, on a page that may already contain the change. */
  method RedoVacuumLeaf<D>(b: Buffer<D>, plan: Plan, recptr: nat)
    requires b.lsn < recptr ==> PlanFits(b.items, plan) && UsedOnce(plan)
    modifies b
    ensures b.State() == if old(b.lsn) < recptr then AfterVacuum(old(b.State()), plan, recptr) else old(b.State())
  {
    if b.lsn < recptr {
      PlanListsNoDup(plan);
      MakeDead(b, plan.dead);
      MakePlaceholders(b, plan.placeholder);
      RedoMoves(b, plan.moves);
      MakePlaceholders(b, Srcs(plan.moves));
      RedoLinks(b, plan.links);
      b.lsn := recptr;
    }
  }

  /** Replay restores the vacuumed page from the old page and from the new one alike. */
  method ReplayAgrees<D>(b: Buffer<D>, replica: Buffer<D>, callback: Callback, recptr: nat) returns (outcome: Outcome)
    requires b != replica && b.lsn < recptr && b.State() == replica.State()
    modifies b, replica
    ensures b.State() == replica.State()
  {
    outcome := VacuumLeafPage(b, callback, recptr);
    if outcome.Done? {
      RedoVacuumLeaf(replica, outcome.plan, recptr);
      RedoVacuumLeaf(b, outcome.plan, recptr);
    }
  }
}
