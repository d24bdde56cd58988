/** A leaf page in a buffer: its tuples, its counters of placeholders and redirects,
    and the position of the last log record applied to it. */
module LeafBuffer {
  import opened LeafPage
  import opened Lists
  import opened VacuumPlan
  import opened VacuumPage

  ghost function Placeholders<D>(p: Items<D>): set<nat> { set o: nat | 1 <= o <= |p| && At(p, o).Placeholder? }

  ghost function Redirects<D>(p: Items<D>): set<nat> { set o: nat | 1 <= o <= |p| && At(p, o).Redirect? }

  /** The tuple that replaces the one at `o` when the tuples `nos` are deleted in place. */
  function Replacement<D>(nos: seq<nat>, first: Tuple<D>, rest: Tuple<D>): nat -> Tuple<D> {
    (o: nat) => if nos != [] && o == nos[0] then first else rest
  }

  /** Everything a page holds that recovery has to restore. */
  datatype PageState<D> = PageState(items: Items<D>, nPlaceholder: nat, nRedirection: nat, lsn: nat)

  /** The page after vacuuming it with `plan`, logged at `recptr`. */
  function AfterVacuum<D>(s: PageState<D>, plan: Plan, recptr: nat): PageState<D>
    requires PlanFits(s.items, plan)
  {
    PageState(ApplyPlan(s.items, plan), s.nPlaceholder + |plan.placeholder| + |plan.moves|, s.nRedirection, recptr)
  }

  ghost predicate Accurate<D>(s: PageState<D>) {
    s.nPlaceholder == |Placeholders(s.items)| && s.nRedirection == |Redirects(s.items)|
  }

  class Buffer<D> {
    var items: Items<D>
    var nPlaceholder: nat
    var nRedirection: nat
    var lsn: nat

    constructor (items: Items<D>, nPlaceholder: nat, nRedirection: nat, lsn: nat)
      ensures State() == PageState(items, nPlaceholder, nRedirection, lsn)
    {
      this.items, this.nPlaceholder, this.nRedirection, this.lsn := items, nPlaceholder, nRedirection, lsn;
    }

    function State(): PageState<D>
      reads this
    {
      PageState(items, nPlaceholder, nRedirection, lsn)
    }

    /** Replaces the listed tuples, wherever they are in the list, by dead tuples at the
        same offsets: `first` for the first of the list, `rest` for the others. */
    method MultiDeleteInPlace(itemnos: seq<nat>, first: Tuple<D>, rest: Tuple<D>)
      requires NoDup(itemnos) && forall o | o in itemnos :: InPage(items, o)
      modifies this
      ensures items == Replaced(old(items), itemnos, Replacement(itemnos, first, rest))
      ensures nPlaceholder == old(nPlaceholder) + |PlaceholdersIn(itemnos, Replacement(itemnos, first, rest))|
      ensures nRedirection == old(nRedirection) + |RedirectsIn(itemnos, Replacement(itemnos, first, rest))|
      ensures lsn == old(lsn)
    {
      ghost var tuple := Replacement(itemnos, first, rest);
      if itemnos == [] {
        assert items == Replaced(items, itemnos, tuple);
        return;
      }
      var sorted := Sorted(itemnos, |items|);
      SortedLength(itemnos, |items|);
      DeleteThenInsert(items, sorted, tuple);
      SameMembers(items, sorted, itemnos, tuple);
      items := MultiDelete(items, sorted);
      Reinsert(sorted, itemnos[0], first, rest, tuple);
    }

    method InsertDead(itemno: nat, t: Tuple<D>)
      requires 1 <= itemno <= |items| + 1
      modifies this
      ensures items == Insert(old(items), itemno, t) && lsn == old(lsn)
      ensures nPlaceholder == old(nPlaceholder) + if t.Placeholder? then 1 else 0
      ensures nRedirection == old(nRedirection) + if t.Redirect? then 1 else 0
    {
      items := Insert(items, itemno, t);
      if t.Redirect? {
        nRedirection := nRedirection + 1;
      } else if t.Placeholder? {
        nPlaceholder := nPlaceholder + 1;
      }
    }

    method ReinsertOne(sorted: seq<nat>, i: nat, t: Tuple<D>, ghost start: PageState<D>, ghost tuple: nat -> Tuple<D>)
      requires i < |sorted| && Ascending(sorted, |start.items| + |sorted|) && t == tuple(sorted[i])
      requires Reinserted(start, State(), sorted, i, tuple)
      modifies this
      ensures Reinserted(start, State(), sorted, i + 1, tuple)
    {
      ReinsertStep(start, State(), sorted, i, tuple);
      InsertDead(sorted[i], t);
    }

    method Reinsert(sorted: seq<nat>, firstItem: nat, first: Tuple<D>, rest: Tuple<D>, ghost tuple: nat -> Tuple<D>)
      requires Ascending(sorted, |items| + |sorted|)
      requires forall o :: tuple(o) == if o == firstItem then first else rest
      modifies this
      ensures items == MultiInsert(old(items), sorted, tuple)
      ensures nPlaceholder == old(nPlaceholder) + |PlaceholdersIn(sorted, tuple)|
      ensures nRedirection == old(nRedirection) + |RedirectsIn(sorted, tuple)|
      ensures lsn == old(lsn)
    {
      ghost var start := State();
      PrefixAscending(sorted, |items|, 0);
      var i := 0;
      while i < |sorted|
        invariant 0 <= i <= |sorted|
        invariant Reinserted(start, State(), sorted, i, tuple)
      {
        ReinsertOne(sorted, i, if sorted[i] == firstItem then first else rest, start, tuple);
        i := i + 1;
      }
      assert sorted[..i] == sorted;
    }
  }

  /** The page when the first `i` dead tuples have been put back. */
  ghost predicate Reinserted<D>(s0: PageState<D>, s: PageState<D>, sorted: seq<nat>, i: nat, t: nat -> Tuple<D>)
    requires i <= |sorted|
  {
    && Ascending(sorted[..i], |s0.items| + i)
    && s == PageState(MultiInsert(s0.items, sorted[..i], t),
                      s0.nPlaceholder + |PlaceholdersIn(sorted[..i], t)|,
                      s0.nRedirection + |RedirectsIn(sorted[..i], t)|, s0.lsn)
  }

  lemma ReinsertStep<D>(s0: PageState<D>, s: PageState<D>, sorted: seq<nat>, i: nat, t: nat -> Tuple<D>)
    requires i < |sorted| && Ascending(sorted, |s0.items| + |sorted|)
    requires Reinserted(s0, s, sorted, i, t)
    ensures var o, x := sorted[i], t(sorted[i]);
      && 1 <= o <= |s.items| + 1
      && Reinserted(s0, PageState(Insert(s.items, o, x), s.nPlaceholder + (if x.Placeholder? then 1 else 0),
                                  s.nRedirection + (if x.Redirect? then 1 else 0), s.lsn), sorted, i + 1, t)
  {
    PrefixAscending(sorted, |s0.items|, i + 1);
    NextInsert(s0.items, sorted, i, t);
    OneMoreTurned(sorted, |s0.items| + |sorted|, i, t);
  }

  lemma PrefixAscending(sorted: seq<nat>, n: nat, i: nat)
    requires i <= |sorted| && Ascending(sorted, n + |sorted|)
    ensures Ascending(sorted[..i], n + i)
  {
    forall k | 0 <= k < i ensures sorted[k] <= n + i {
      SpaceAbove(sorted, n + |sorted|, k);
    }
  }

  lemma NextInsert<D>(deleted: Items<D>, sorted: seq<nat>, i: nat, t: nat -> Tuple<D>)
    requires i < |sorted| && Ascending(sorted[..i], |deleted| + i) && Ascending(sorted[..i + 1], |deleted| + i + 1)
    ensures 1 <= sorted[i] <= |deleted| + i + 1
    ensures MultiInsert(deleted, sorted[..i + 1], t) == Insert(MultiInsert(deleted, sorted[..i], t), sorted[i], t(sorted[i]))
  {
    var s := sorted[..i + 1];
    assert s[..i] == sorted[..i] && s[i] == sorted[i];
  }

  ghost function PlaceholdersIn<D>(nos: seq<nat>, t: nat -> Tuple<D>): set<nat> { set o | o in nos && t(o).Placeholder? }

  ghost function RedirectsIn<D>(nos: seq<nat>, t: nat -> Tuple<D>): set<nat> { set o | o in nos && t(o).Redirect? }

  lemma OneMoreTurned<D>(sorted: seq<nat>, n: nat, i: nat, t: nat -> Tuple<D>)
    requires i < |sorted| && Ascending(sorted, n)
    ensures |PlaceholdersIn(sorted[..i + 1], t)| == |PlaceholdersIn(sorted[..i], t)| + if t(sorted[i]).Placeholder? then 1 else 0
    ensures |RedirectsIn(sorted[..i + 1], t)| == |RedirectsIn(sorted[..i], t)| + if t(sorted[i]).Redirect? then 1 else 0
  {
    assert sorted[..i + 1] == sorted[..i] + [sorted[i]];
    assert sorted[i] !in sorted[..i];
    NextTurned(sorted[..i], sorted[i], t);
  }

  lemma NextTurned<D>(nos: seq<nat>, o: nat, t: nat -> Tuple<D>)
    requires o !in nos
    ensures |PlaceholdersIn(nos + [o], t)| == |PlaceholdersIn(nos, t)| + if t(o).Placeholder? then 1 else 0
    ensures |RedirectsIn(nos + [o], t)| == |RedirectsIn(nos, t)| + if t(o).Redirect? then 1 else 0
  {
    NextPlaceholders(nos, o, t);
    NextRedirects(nos, o, t);
  }

  lemma NextPlaceholders<D>(nos: seq<nat>, o: nat, t: nat -> Tuple<D>)
    requires o !in nos
    ensures |PlaceholdersIn(nos + [o], t)| == |PlaceholdersIn(nos, t)| + if t(o).Placeholder? then 1 else 0
  {
    assert forall x :: x in nos + [o] <==> x in nos || x == o;
    assert PlaceholdersIn(nos + [o], t) == PlaceholdersIn(nos, t) + if t(o).Placeholder? then {o} else {};
  }

  lemma NextRedirects<D>(nos: seq<nat>, o: nat, t: nat -> Tuple<D>)
    requires o !in nos
    ensures |RedirectsIn(nos + [o], t)| == |RedirectsIn(nos, t)| + if t(o).Redirect? then 1 else 0
  {
    assert forall x :: x in nos + [o] <==> x in nos || x == o;
    assert RedirectsIn(nos + [o], t) == RedirectsIn(nos, t) + if t(o).Redirect? then {o} else {};
  }

  lemma SameMembers<D>(p: Items<D>, a: seq<nat>, b: seq<nat>, t: nat -> Tuple<D>)
    requires forall o :: o in a <==> o in b
    ensures Replaced(p, a, t) == Replaced(p, b, t)
    ensures PlaceholdersIn(a, t) == PlaceholdersIn(b, t) && RedirectsIn(a, t) == RedirectsIn(b, t)
  {
  }
}
