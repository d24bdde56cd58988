/** The index entries of a multirange: its ranges, with neighbours merged when there are
    more than allowed; and what an operator that holds of a multirange says of its entries. */
module MultirangeEntries {
  import opened RangeBounds

  /** The smallest range around two. */
  function SuperUnion(a: Range, b: Range): Range {
    Range(if Le(a.lower, b.lower) then a.lower else b.lower, if Le(b.upper, a.upper) then a.upper else b.upper)
  }

  /** Entry `k` stands for the ranges from `cuts[k]` to before `cuts[k + 1]`. */
  ghost predicate Entries(mr: seq<Range>, cuts: seq<nat>, entries: seq<Range>) {
    && |cuts| == |entries| + 1 && cuts[0] == 0 && cuts[|entries|] <= |mr|
    && (forall i, j | 0 <= i < j < |cuts| :: cuts[i] < cuts[j])
    && forall k, m | 0 <= k < |entries| && m == k + 1 ::
         cuts[m] <= |mr| && entries[k] == Range(mr[cuts[k]].lower, mr[cuts[m] - 1].upper)
  }

  lemma MergedRun(mr: seq<Range>, i: nat, j: nat)
    requires Normalized(mr) && i < j <= |mr|
    ensures RangeOk(Range(mr[i].lower, mr[j - 1].upper))
    ensures SuperUnion(mr[i], mr[j - 1]) == Range(mr[i].lower, mr[j - 1].upper)
  {
    InOrder(mr, i, j - 1);
    if i < j - 1 {
      Through(mr[i].upper, mr[j - 1].lower, mr[j - 1].upper);
      EitherWay(mr[j - 1].upper, mr[i].upper);
    }
  }

  lemma OneMoreEntry(mr: seq<Range>, cuts: seq<nat>, entries: seq<Range>, j: nat)
    requires Entries(mr, cuts, entries) && cuts[|entries|] < j <= |mr|
    ensures Entries(mr, cuts + [j], entries + [Range(mr[cuts[|entries|]].lower, mr[j - 1].upper)])
  {
    var cuts', entries' := cuts + [j], entries + [Range(mr[cuts[|entries|]].lower, mr[j - 1].upper)];
    forall a, b | 0 <= a < b < |cuts'| ensures cuts'[a] < cuts'[b] {
      if b == |cuts| { assert cuts[a] <= cuts[|entries|]; }
    }
    forall k, m | 0 <= k < |entries'| && m == k + 1
      ensures cuts'[m] <= |mr| && entries'[k] == Range(mr[cuts'[k]].lower, mr[cuts'[m] - 1].upper)
    {
      if k < |entries| { assert cuts[k] < cuts[m]; }
    }
  }

  /** Every range on its own. */
  lemma OwnEntries(mr: seq<Range>)
    ensures Entries(mr, seq(|mr| + 1, i requires 0 <= i <= |mr| => i), mr)
  {
  }

  /** After `k` output ranges, the first of which take one input range more. */
  function Taken(size: nat, remainder: nat, k: nat): nat {
    k * size + if k < remainder then k else remainder
  }

  lemma TakenStep(size: nat, remainder: nat, k: nat)
    ensures Taken(size, remainder, k + 1) == Taken(size, remainder, k) + size + if k < remainder then 1 else 0
  {
    assert (k + 1) * size == k * size + size;
  }

  lemma {:induction false} TakenGrows(size: nat, remainder: nat, k: nat, m: nat)
    requires k <= m
    ensures Taken(size, remainder, k) <= Taken(size, remainder, m)
    decreases m
  {
    if k < m {
      TakenGrows(size, remainder, k, m - 1);
      TakenStep(size, remainder, m - 1);
    }
  }

  lemma TakenAll(n: nat, max: nat)
    requires 0 < max < n
    ensures n / max > 0 && Taken(n / max, n % max, max) == n
  {
    var q := n / max;
    assert n == q * max + n % max;
    assert q == 0 ==> q * max == 0;
  }

  ghost predicate CutsAt(size: nat, remainder: nat, cuts: seq<nat>) {
    forall k | 0 <= k < |cuts| :: cuts[k] == Taken(size, remainder, k)
  }

  /** The runs have the same length, but for one more range in each of the first ones. */
  ghost predicate EvenCuts(size: nat, remainder: nat, cuts: seq<nat>) {
    forall k, m | 0 <= k < |cuts| - 1 && m == k + 1 :: cuts[m] == cuts[k] + size + if k < remainder then 1 else 0
  }

  lemma CutsAreEven(size: nat, remainder: nat, cuts: seq<nat>)
    requires CutsAt(size, remainder, cuts)
    ensures EvenCuts(size, remainder, cuts)
  {
    forall k, m | 0 <= k < |cuts| - 1 && m == k + 1 ensures cuts[m] == cuts[k] + size + if k < remainder then 1 else 0 {
      TakenStep(size, remainder, k);
    }
  }

  /** At most `maxRanges` ranges, none if the multirange is empty; no limit if that is less
      than one. */
  method MultirangeRanges(mr: seq<Range>, maxRanges: int) returns (entries: seq<Range>, ghost cuts: seq<nat>)
    requires mr == [] || Normalized(mr)
    ensures mr == [] ==> entries == []
    ensures Entries(mr, cuts, entries) && cuts[|entries|] == |mr|
    ensures |entries| == if maxRanges < 1 || |mr| <= maxRanges then |mr| else maxRanges
    ensures if maxRanges < 1 || |mr| <= maxRanges then entries == mr else EvenCuts(|mr| / maxRanges, |mr| % maxRanges, cuts)
  {
    if maxRanges < 1 || |mr| <= maxRanges {
      OwnEntries(mr);
      return mr, seq(|mr| + 1, i requires 0 <= i <= |mr| => i);
    }
    var size, remainder := |mr| / maxRanges, |mr| % maxRanges;
    TakenAll(|mr|, maxRanges);
    entries, cuts := MergeRuns(mr, maxRanges, size, remainder);
    CutsAreEven(size, remainder, cuts);
  }

  /** One entry for each run. */
  method MergeRuns(mr: seq<Range>, maxRanges: nat, size: nat, remainder: nat) returns (entries: seq<Range>, ghost cuts: seq<nat>)
    requires Normalized(mr) && size > 0 && Taken(size, remainder, maxRanges) == |mr|
    ensures Entries(mr, cuts, entries) && cuts[|entries|] == |mr| && |entries| == maxRanges && CutsAt(size, remainder, cuts)
  {
    entries, cuts := [], [0];
    var i, k := 0, 0;
    while k < maxRanges
      invariant 0 <= k == |entries| <= maxRanges && Entries(mr, cuts, entries)
      invariant i == cuts[k] == Taken(size, remainder, k)
      invariant CutsAt(size, remainder, cuts)
    {
      var j := i + size;
      if k < remainder {
        j := j + 1;
      }
      TakenStep(size, remainder, k);
      TakenGrows(size, remainder, k + 1, maxRanges);
      MergedRun(mr, i, j);
      OneMoreEntry(mr, cuts, entries, j);
      entries := entries + [if i < j - 1 then SuperUnion(mr[i], mr[j - 1]) else mr[i]];
      cuts := cuts + [j];
      i, k := j, k + 1;
    }
  }

  // ---- operators ----

  datatype Op = Before | Overleft | OverlapsOp | Overright | After | AdjacentOp | Contains | ContainedBy

  /** A query is a range or a multirange. */
  datatype Query = Query(op: Op, ranges: seq<Range>, multi: bool)

  predicate QueryOk(q: Query) { Normalized(q.ranges) && (q.multi || |q.ranges| == 1) }

  function First(q: Query): Range
    requires q.ranges != []
  {
    q.ranges[0]
  }

  function Last(q: Query): Range
    requires q.ranges != []
  {
    q.ranges[|q.ranges| - 1]
  }

  ghost predicate Holds(mr: seq<Range>, q: Query)
    requires mr != [] && q.ranges != []
  {
    var first, last := mr[0], mr[|mr| - 1];
    match q.op
    case Before => Lt(last.upper, First(q).lower)
    case Overleft => Le(last.upper, Last(q).upper)
    case OverlapsOp => exists i, j :: 0 <= i < |mr| && 0 <= j < |q.ranges| && Overlaps(mr[i], q.ranges[j])
    case Overright => Le(First(q).lower, first.lower)
    case After => Lt(Last(q).upper, first.lower)
    case AdjacentOp => BoundsAdjacent(last.upper, First(q).lower) || BoundsAdjacent(Last(q).upper, first.lower)
    case Contains => forall j | 0 <= j < |q.ranges| :: exists i :: 0 <= i < |mr| && Within(q.ranges[j], mr[i])
    case ContainedBy => forall i | 0 <= i < |mr| :: exists j :: 0 <= j < |q.ranges| && Within(mr[i], q.ranges[j])
  }

  predicate OverlapsSome(r: Range, ranges: seq<Range>) { exists j :: 0 <= j < |ranges| && Overlaps(r, ranges[j]) }

  /** The test of an index entry on a leaf: exact for one range, but for containment only
      that the ranges overlap. */
  predicate LeafTest(r: Range, q: Query)
    requires q.ranges != []
  {
    match q.op
    case Before => Lt(r.upper, First(q).lower)
    case Overleft => Le(r.upper, Last(q).upper)
    case Overright => Le(First(q).lower, r.lower)
    case After => Lt(Last(q).upper, r.lower)
    case AdjacentOp => BoundsAdjacent(r.upper, First(q).lower) || BoundsAdjacent(Last(q).upper, r.lower)
    case _ => OverlapsSome(r, q.ranges)
  }

  /** For a multirange of one range the leaf test is the operator; for containment it is
      implied by it, as an overlap is all that it asks. */
  lemma LeafTestIsOperator(r: Range, q: Query)
    requires RangeOk(r) && QueryOk(q)
    ensures q.op != Contains && q.op != ContainedBy ==> (LeafTest(r, q) <==> Holds([r], q))
    ensures q.op == Contains || q.op == ContainedBy ==> (LeafTest(r, q) <==> OverlapsSome(r, q.ranges))
    ensures Holds([r], q) ==> LeafTest(r, q)
  {
    assert [r][0] == r;
    match q.op
    case Contains =>
      if Holds([r], q) {
        var i :| 0 <= i < 1 && Within(q.ranges[0], [r][i]);
        WithinOverlaps(q.ranges[0], r);
      }
    case ContainedBy =>
      if Holds([r], q) {
        var j :| 0 <= j < |q.ranges| && Within([r][0], q.ranges[j]);
        WithinOverlaps(r, q.ranges[j]);
      }
    case OverlapsOp =>
      if Holds([r], q) {
        var i, j :| 0 <= i < 1 && 0 <= j < |q.ranges| && Overlaps([r][i], q.ranges[j]);
      }
      if LeafTest(r, q) {
        var j :| 0 <= j < |q.ranges| && Overlaps(r, q.ranges[j]);
        assert Overlaps([r][0], q.ranges[j]);
      }
    case _ =>
  }

  /** What the inner nodes look for in an entry: a condition on its two bounds. */
  predicate Sought(r: Range, q: Query)
    requires q.ranges != []
  {
    var lower, upper := First(q).lower, Last(q).upper;
    match q.op
    case Before => Lt(r.upper, lower)
    case Overleft => Le(r.upper, upper)
    case OverlapsOp => Le(r.lower, upper) && Le(lower, r.upper)
    case Overright => Le(lower, r.lower)
    case After => Lt(upper, r.lower)
    case AdjacentOp => BoundsAdjacent(r.upper, lower) || BoundsAdjacent(upper, r.lower)
    case Contains => if q.multi then Le(r.lower, upper) && Le(lower, r.upper) else Le(r.lower, lower) && Le(upper, r.upper)
    case ContainedBy => Le(lower, r.lower) && Le(r.upper, upper)
  }

  /** The entry that takes in range `i`. */
  lemma {:induction false} EntryOf(mr: seq<Range>, cuts: seq<nat>, entries: seq<Range>, i: nat, n: nat) returns (k: nat)
    requires Normalized(mr) && Entries(mr, cuts, entries) && n <= |entries| && i < cuts[n]
    ensures k < |entries| && RangeOk(entries[k]) && Within(mr[i], entries[k])
    decreases n
  {
    assert n > 0 ==> cuts[n - 1] < cuts[n];
    if i < cuts[n - 1] {
      k := EntryOf(mr, cuts, entries, i, n - 1);
    } else {
      k := n - 1;
      assert entries[k] == Range(mr[cuts[k]].lower, mr[cuts[n] - 1].upper);
      InOrder(mr, cuts[k], i);
      InOrder(mr, i, cuts[n] - 1);
      InOrder(mr, cuts[k], cuts[n] - 1);
    }
  }

  /** Entries lie within the extent of the multirange; the outer ones reach its ends. */
  lemma EntryExtent(mr: seq<Range>, cuts: seq<nat>, entries: seq<Range>, k: nat)
    requires Normalized(mr) && Entries(mr, cuts, entries) && cuts[|entries|] == |mr| && k < |entries|
    ensures RangeOk(entries[k]) && Le(mr[0].lower, entries[k].lower) && Le(entries[k].upper, mr[|mr| - 1].upper)
    ensures k == 0 ==> entries[k].lower == mr[0].lower
    ensures k == |entries| - 1 ==> entries[k].upper == mr[|mr| - 1].upper
  {
    var m := k + 1;
    assert cuts[k] < cuts[m] <= |mr|;
    assert entries[k] == Range(mr[cuts[k]].lower, mr[cuts[m] - 1].upper);
    InOrder(mr, 0, cuts[k]);
    InOrder(mr, cuts[m] - 1, |mr| - 1);
    InOrder(mr, cuts[k], cuts[m] - 1);
  }

  lemma OverlapMeansSought(r: Range, q: Query, j: nat)
    requires RangeOk(r) && QueryOk(q) && j < |q.ranges| && Overlaps(r, q.ranges[j])
    ensures Le(r.lower, Last(q).upper) && Le(First(q).lower, r.upper) && OverlapsSome(r, q.ranges)
  {
    InOrder(q.ranges, 0, j);
    InOrder(q.ranges, j, |q.ranges| - 1);
    Through(r.lower, q.ranges[j].upper, Last(q).upper);
    Through(First(q).lower, q.ranges[j].lower, r.upper);
  }

  lemma OverlapsLarger(a: Range, b: Range, c: Range)
    requires Overlaps(a, c) && Within(a, b)
    ensures Overlaps(b, c)
  {
    Through(b.lower, a.lower, c.upper);
    Through(c.lower, a.upper, b.upper);
  }

  lemma WithinOverlaps(a: Range, b: Range)
    requires RangeOk(a) && Within(a, b)
    ensures Overlaps(a, b) && Overlaps(b, a)
  {
    Through(a.lower, a.upper, b.upper);
    Through(b.lower, a.lower, a.upper);
  }

  ghost predicate Finds(entries: seq<Range>, q: Query, k: nat)
    requires q.ranges != []
  {
    k < |entries| && RangeOk(entries[k]) && Sought(entries[k], q) && LeafTest(entries[k], q)
  }

  /** If the operator holds, some entry is looked for and passes the leaf test. */
  lemma SomeEntryFits(mr: seq<Range>, cuts: seq<nat>, entries: seq<Range>, q: Query) returns (k: nat)
    requires Normalized(mr) && Entries(mr, cuts, entries) && cuts[|entries|] == |mr| && QueryOk(q) && Holds(mr, q)
    ensures Finds(entries, q, k)
  {
    match q.op
    case OverlapsOp => k := OverlapFits(mr, cuts, entries, q);
    case Contains => k := ContainsFits(mr, cuts, entries, q);
    case ContainedBy => k := ContainedFits(mr, cuts, entries, q);
    case _ => k := OuterFits(mr, cuts, entries, q);
  }

  lemma OverlapFits(mr: seq<Range>, cuts: seq<nat>, entries: seq<Range>, q: Query) returns (k: nat)
    requires Normalized(mr) && Entries(mr, cuts, entries) && cuts[|entries|] == |mr| && QueryOk(q) && Holds(mr, q)
    requires q.op == OverlapsOp
    ensures Finds(entries, q, k)
  {
    var i, j :| 0 <= i < |mr| && 0 <= j < |q.ranges| && Overlaps(mr[i], q.ranges[j]);
    k := EntryOf(mr, cuts, entries, i, |entries|);
    OverlapsLarger(mr[i], entries[k], q.ranges[j]);
    OverlapMeansSought(entries[k], q, j);
  }

  lemma ContainsFits(mr: seq<Range>, cuts: seq<nat>, entries: seq<Range>, q: Query) returns (k: nat)
    requires Normalized(mr) && Entries(mr, cuts, entries) && cuts[|entries|] == |mr| && QueryOk(q) && Holds(mr, q)
    requires q.op == Contains
    ensures Finds(entries, q, k)
  {
    var i :| 0 <= i < |mr| && Within(q.ranges[0], mr[i]);
    k := EntryOf(mr, cuts, entries, i, |entries|);
    WithinBoth(q.ranges[0], mr[i], entries[k]);
    FirstContained(entries[k], q);
  }

  /** An entry that contains the first range of the query is looked for. */
  lemma FirstContained(entry: Range, q: Query)
    requires RangeOk(entry) && QueryOk(q) && q.op == Contains && Within(q.ranges[0], entry)
    ensures Sought(entry, q) && LeafTest(entry, q)
  {
    WithinOverlaps(q.ranges[0], entry);
    OverlapMeansSought(entry, q, 0);
  }

  lemma WithinBoth(a: Range, b: Range, c: Range)
    requires Within(a, b) && Within(b, c)
    ensures Within(a, c)
  {
    Through(c.lower, b.lower, a.lower);
    Through(a.upper, b.upper, c.upper);
  }

  lemma ContainedFits(mr: seq<Range>, cuts: seq<nat>, entries: seq<Range>, q: Query) returns (k: nat)
    requires Normalized(mr) && Entries(mr, cuts, entries) && cuts[|entries|] == |mr| && QueryOk(q) && Holds(mr, q)
    requires q.op == ContainedBy
    ensures Finds(entries, q, k)
  {
    k := EntryOf(mr, cuts, entries, 0, |entries|);
    EntryExtent(mr, cuts, entries, k);
    ContainedExtent(mr, q);
    Through(First(q).lower, mr[0].lower, entries[k].lower);
    Through(entries[k].upper, mr[|mr| - 1].upper, Last(q).upper);
    EntryOverlaps(mr[0], entries[k], q);
  }

  /** What lies in the query range by range lies in it as a whole. */
  lemma ContainedExtent(mr: seq<Range>, q: Query)
    requires Normalized(mr) && QueryOk(q) && q.op == ContainedBy && Holds(mr, q)
    ensures Le(First(q).lower, mr[0].lower) && Le(mr[|mr| - 1].upper, Last(q).upper)
    ensures exists j :: 0 <= j < |q.ranges| && Within(mr[0], q.ranges[j])
  {
    var j :| 0 <= j < |q.ranges| && Within(mr[0], q.ranges[j]);
    var m :| 0 <= m < |q.ranges| && Within(mr[|mr| - 1], q.ranges[m]);
    WithinExtent(mr[0], q, j);
    WithinExtent(mr[|mr| - 1], q, m);
  }

  lemma WithinExtent(r: Range, q: Query, j: nat)
    requires QueryOk(q) && j < |q.ranges| && Within(r, q.ranges[j])
    ensures Le(First(q).lower, r.lower) && Le(r.upper, Last(q).upper)
  {
    InOrder(q.ranges, 0, j);
    InOrder(q.ranges, j, |q.ranges| - 1);
    Through(First(q).lower, q.ranges[j].lower, r.lower);
    Through(r.upper, q.ranges[j].upper, Last(q).upper);
  }

  lemma EntryOverlaps(r: Range, entry: Range, q: Query)
    requires RangeOk(r) && RangeOk(entry) && Within(r, entry) && q.ranges != []
    requires exists j :: 0 <= j < |q.ranges| && Within(r, q.ranges[j])
    ensures OverlapsSome(entry, q.ranges)
  {
    var j :| 0 <= j < |q.ranges| && Within(r, q.ranges[j]);
    WithinOverlaps(r, q.ranges[j]);
    OverlapsLarger(r, entry, q.ranges[j]);
  }

  /** The operators that look at the ends of the multirange only. */
  lemma OuterFits(mr: seq<Range>, cuts: seq<nat>, entries: seq<Range>, q: Query) returns (k: nat)
    requires Normalized(mr) && Entries(mr, cuts, entries) && cuts[|entries|] == |mr| && QueryOk(q) && Holds(mr, q)
    requires q.op != OverlapsOp && q.op != Contains && q.op != ContainedBy
    ensures Finds(entries, q, k)
  {
    assert entries != [];
    k := if q.op == Before || q.op == Overleft
            || (q.op == AdjacentOp && BoundsAdjacent(mr[|mr| - 1].upper, First(q).lower)) then |entries| - 1 else 0;
    EntryExtent(mr, cuts, entries, k);
  }
}
