/** Splitting a tuple vector until every part fits on a page, and when that never ends. */
module PageSplit {
  import opened ColumnDivision
  import opened Positions
  import opened SplitByKey

  function TotalSize(itup: seq<Tuple>): nat {
    if itup == [] then 0 else TotalSize(itup[..|itup| - 1]) + itup[|itup| - 1].size
  }

  predicate Fits(itup: seq<Tuple>, pageSize: nat) { TotalSize(itup) <= pageSize }

  /** The pages, or the tuple that no page can hold, or the calls got nested too deeply. */
  datatype Layout = Pages(pages: seq<seq<Tuple>>) | TooLarge(tuple: Tuple) | TooDeep

  function Flatten(pages: seq<seq<Tuple>>): seq<Tuple> {
    if pages == [] then [] else Flatten(pages[..|pages| - 1]) + pages[|pages| - 1]
  }

  lemma {:induction false} FlattenJoin(a: seq<seq<Tuple>>, b: seq<seq<Tuple>>)
    ensures Flatten(a + b) == Flatten(a) + Flatten(b)
    decreases |b|
  {
    if b == [] {
      assert a + b == a;
    } else {
      assert (a + b)[..|a + b| - 1] == a + b[..|b| - 1];
      FlattenJoin(a, b[..|b| - 1]);
    }
  }

  lemma {:induction false} TupleInTotal(itup: seq<Tuple>, i: nat)
    requires i < |itup|
    ensures itup[i].size <= TotalSize(itup)
    decreases |itup|
  {
    if i < |itup| - 1 { TupleInTotal(itup[..|itup| - 1], i); }
  }

  ghost predicate HasTooLarge(itup: seq<Tuple>, pageSize: nat) { exists t :: t in itup && t.size > pageSize }

  lemma FitMeansNoneTooLarge(itup: seq<Tuple>, pageSize: nat)
    requires Fits(itup, pageSize)
    ensures !HasTooLarge(itup, pageSize)
  {
    forall t | t in itup ensures t.size <= pageSize {
      var i :| 0 <= i < |itup| && itup[i] == t;
      TupleInTotal(itup, i);
    }
  }

  lemma SideHasTooLarge(itup: seq<Tuple>, a: seq<Tuple>, b: seq<Tuple>, pageSize: nat)
    requires multiset(a) + multiset(b) == multiset(itup)
    ensures HasTooLarge(itup, pageSize) <==> HasTooLarge(a, pageSize) || HasTooLarge(b, pageSize)
  {
    assert forall t :: t in multiset(itup) <==> t in multiset(a) || t in multiset(b);
    assert forall t :: t in itup <==> t in multiset(itup);
    assert forall t :: t in a <==> t in multiset(a);
    assert forall t :: t in b <==> t in multiset(b);
  }

  /** Every page fits; together the pages hold each tuple once. */
  ghost predicate LayoutOk(itup: seq<Tuple>, r: Layout, pageSize: nat) {
    match r
    case Pages(pages) =>
      && (forall k | 0 <= k < |pages| :: Fits(pages[k], pageSize))
      && multiset(Flatten(pages)) == multiset(itup) && !HasTooLarge(itup, pageSize)
    case TooLarge(t) => t in itup && t.size > pageSize
    case TooDeep => true
  }

  ghost predicate NoEmptyPage(pages: seq<seq<Tuple>>) { forall k | 0 <= k < |pages| :: pages[k] != [] }

  /** Two or three tuples that overflow a page and that no column can divide. */
  predicate Stuck(op: OpClass, s: seq<Tuple>, natts: nat, pageSize: nat) {
    2 <= |s| < 4 && !Fits(s, pageSize) && Halves(op, Nothing, s, 0, natts)
  }

  /** No two or three of the tuples are stuck. */
  ghost predicate NoneStuck(op: OpClass, itup: seq<Tuple>, natts: nat, pageSize: nat) {
    forall s: seq<Tuple> {:trigger Stuck(op, s, natts, pageSize)} | multiset(s) <= multiset(itup) :: !Stuck(op, s, natts, pageSize)
  }

  /** In particular none are stuck if every two or three tuples with the same columns null,
      the last one among them, fit on a page. */
  ghost predicate FewNullsFit(itup: seq<Tuple>, natts: nat, pageSize: nat) {
    natts > 0 && forall s: seq<Tuple> {:trigger Fits(s, pageSize)} |
      multiset(s) <= multiset(itup) && 2 <= |s| < 4 && AllNull(s, natts - 1)
      && (forall a | 0 <= a < natts :: AllNull(s, a) || NoneNull(s, a)) :: Fits(s, pageSize)
  }

  lemma StuckIsUniform(op: OpClass, s: seq<Tuple>, natts: nat, pageSize: nat)
    requires Stuck(op, s, natts, pageSize)
    ensures natts > 0 && AllNull(s, natts - 1) && forall a | 0 <= a < natts :: AllNull(s, a) || NoneNull(s, a)
  {
    forall a | 0 <= a < natts ensures AllNull(s, a) || NoneNull(s, a) {
      assert a < natts - 1 ==> Useless(op, Nothing, s, a);
    }
  }

  lemma FewNullsNeverStuck(op: OpClass, itup: seq<Tuple>, natts: nat, pageSize: nat)
    requires FewNullsFit(itup, natts, pageSize)
    ensures NoneStuck(op, itup, natts, pageSize)
  {
    forall s: seq<Tuple> | multiset(s) <= multiset(itup) ensures !Stuck(op, s, natts, pageSize) {
      if Stuck(op, s, natts, pageSize) { StuckIsUniform(op, s, natts, pageSize); }
    }
  }

  /** Tuples without any key cannot be divided. */
  lemma NoKeysHalve(op: OpClass, itup: seq<Tuple>, natts: nat)
    requires natts > 0 && NoKeys(itup, 0, natts)
    ensures Halves(op, Nothing, itup, 0, natts)
  {
  }

  lemma SideNoneStuck(op: OpClass, itup: seq<Tuple>, a: seq<Tuple>, b: seq<Tuple>, natts: nat, pageSize: nat)
    requires multiset(a) + multiset(b) == multiset(itup) && NoneStuck(op, itup, natts, pageSize)
    ensures NoneStuck(op, a, natts, pageSize) && NoneStuck(op, b, natts, pageSize)
  {
    assert multiset(a) <= multiset(itup) && multiset(b) <= multiset(itup);
  }

  lemma SideFails(itup: seq<Tuple>, a: seq<Tuple>, b: seq<Tuple>, r: Layout, pageSize: nat)
    requires multiset(a) + multiset(b) == multiset(itup) && LayoutOk(a, r, pageSize) && !r.Pages?
    ensures LayoutOk(itup, r, pageSize)
  {
    if r.TooLarge? {
      assert r.tuple in multiset(a);
      assert r.tuple in multiset(itup);
    }
  }

  lemma JoinLayouts(itup: seq<Tuple>, a: seq<Tuple>, b: seq<Tuple>, pa: seq<seq<Tuple>>, pb: seq<seq<Tuple>>, pageSize: nat)
    requires multiset(a) + multiset(b) == multiset(itup)
    requires LayoutOk(a, Pages(pa), pageSize) && LayoutOk(b, Pages(pb), pageSize)
    ensures LayoutOk(itup, Pages(pa + pb), pageSize)
  {
    SideHasTooLarge(itup, a, b, pageSize);
    FlattenJoin(pa, pb);
    assert multiset(Flatten(pa) + Flatten(pb)) == multiset(a) + multiset(b);
  }

  lemma OnePage(itup: seq<Tuple>, pageSize: nat)
    requires Fits(itup, pageSize)
    ensures LayoutOk(itup, Pages([itup]), pageSize)
  {
    FitMeansNoneTooLarge(itup, pageSize);
    assert [itup][..0] == [];
    assert Flatten([itup]) == itup;
  }

  /** The pages come from dividing the tuples by their columns, and the tuples of each side
      again as long as they do not fit on a page. */
  ghost predicate Laid(op: OpClass, itup: seq<Tuple>, natts: nat, pageSize: nat, pages: seq<seq<Tuple>>, depth: nat)
    requires natts > 0
    decreases depth
  {
    if Fits(itup, pageSize) then pages == [itup] else
      depth > 0 && exists left: seq<nat>, right: seq<nat>, m: nat {:trigger SplitsPages(op, itup, natts, left, right, pages, m)} ::
        && SplitsPages(op, itup, natts, left, right, pages, m)
        && Laid(op, Pick(itup, left), natts, pageSize, pages[..m], depth - 1)
        && Laid(op, Pick(itup, right), natts, pageSize, pages[m..], depth - 1)
  }

  ghost predicate SplitsPages(op: OpClass, itup: seq<Tuple>, natts: nat, left: seq<nat>, right: seq<nat>, pages: seq<seq<Tuple>>,
                              m: nat)
    requires natts > 0
  {
    && InRange(left, |itup|) && InRange(right, |itup|) && m <= |pages|
    && Splits(left, right, |itup|) && DividedBy(op, Nothing, itup, 0, natts, left, right)
  }

  lemma LaidSides(op: OpClass, itup: seq<Tuple>, natts: nat, pageSize: nat, left: seq<nat>, right: seq<nat>,
                  pa: seq<seq<Tuple>>, pb: seq<seq<Tuple>>, depth: nat)
    requires natts > 0 && depth > 0 && !Fits(itup, pageSize) && InRange(left, |itup|) && InRange(right, |itup|)
    requires Splits(left, right, |itup|) && DividedBy(op, Nothing, itup, 0, natts, left, right)
    requires Laid(op, Pick(itup, left), natts, pageSize, pa, depth - 1)
    requires Laid(op, Pick(itup, right), natts, pageSize, pb, depth - 1)
    ensures Laid(op, itup, natts, pageSize, pa + pb, depth)
  {
    assert (pa + pb)[..|pa|] == pa && (pa + pb)[|pa|..] == pb;
    assert SplitsPages(op, itup, natts, left, right, pa + pb, |pa|);
  }

  /** One side of a split: a page, or split again. */
  method PageOrSplit(itup: seq<Tuple>, natts: nat, pageSize: nat, op: OpClass, depth: nat) returns (r: Layout)
    requires natts > 0 && Columns(itup, natts)
    ensures LayoutOk(itup, r, pageSize)
    ensures NoneStuck(op, itup, natts, pageSize) && |itup| <= depth ==> !r.TooDeep?
    ensures itup != [] && NoneStuck(op, itup, natts, pageSize) && r.Pages? ==> NoEmptyPage(r.pages)
    ensures Stuck(op, itup, natts, pageSize) ==> r.TooDeep?
    ensures natts == 1 && |itup| <= depth ==> OneColumn(itup, r, pageSize)
    ensures r.Pages? ==> Laid(op, itup, natts, pageSize, r.pages, depth)
    decreases depth, 1
  {
    if !Fits(itup, pageSize) {
      r := GistSplit(itup, natts, pageSize, op, depth);
    } else {
      OnePage(itup, pageSize);
      FittingColumn(itup, pageSize);
      r := Pages([itup]);
    }
  }

  /** Both sides of a split, the right one first. */
  method SplitSides(ghost itup: seq<Tuple>, lvectup: seq<Tuple>, rvectup: seq<Tuple>, natts: nat, pageSize: nat, op: OpClass,
                    depth: nat)
    returns (r: Layout, ghost right: Layout, ghost left: Layout)
    requires natts > 0 && Columns(lvectup, natts) && Columns(rvectup, natts)
    requires multiset(lvectup) + multiset(rvectup) == multiset(itup)
    ensures SidesResult(op, itup, lvectup, rvectup, natts, pageSize, depth, r, right, left)
    decreases depth, 2
  {
    if NoneStuck(op, itup, natts, pageSize) { SideNoneStuck(op, itup, lvectup, rvectup, natts, pageSize); }
    var r0 := PageOrSplit(rvectup, natts, pageSize, op, depth);
    right, left := r0, r0;
    if !r0.Pages? {
      SideFails(itup, rvectup, lvectup, r0, pageSize);
      return r0, right, left;
    }
    var l0 := PageOrSplit(lvectup, natts, pageSize, op, depth);
    left := l0;
    if !l0.Pages? {
      SideFails(itup, lvectup, rvectup, l0, pageSize);
      return l0, right, left;
    }
    JoinLayouts(itup, lvectup, rvectup, l0.pages, r0.pages, pageSize);
    r := Pages(l0.pages + r0.pages);
  }

  /** The first failure of the two sides, or the pages of both. */
  ghost predicate Combined(right: Layout, left: Layout, r: Layout) {
    if !right.Pages? then r == right else if !left.Pages? then r == left else r.Pages?
  }

  /** The tuples of both sides of a split. */
  method FormVectors(itup: seq<Tuple>, natts: nat, op: OpClass)
    returns (lvectup: seq<Tuple>, rvectup: seq<Tuple>, ghost left: seq<nat>, ghost right: seq<nat>)
    requires |itup| >= 2 && natts > 0 && Columns(itup, natts)
    ensures multiset(lvectup) + multiset(rvectup) == multiset(itup) && |lvectup| + |rvectup| == |itup|
    ensures Columns(lvectup, natts) && Columns(rvectup, natts) && Formed(op, itup, natts, left, right, lvectup, rvectup)
  {
    var v := new SplitVector();
    var halved := v.SplitByKey(itup, 0, natts, op, Nothing);
    left, right := v.left, v.right;
    BothSides(itup, left, right);
    if halved { AllToTheLeft(itup, left, right); }
    lvectup, rvectup := Pick(itup, v.left), Pick(itup, v.right);
    if natts == 1 { SidesOfColumn(itup, left, right, lvectup, rvectup); }
  }

  /** Splits tuples that do not fit on one page, with room on the stack for `depth` nested
      calls. Stuck tuples use up any stack; if none are stuck, the number of tuples is depth
      enough. */
  method GistSplit(itup: seq<Tuple>, natts: nat, pageSize: nat, op: OpClass, depth: nat) returns (r: Layout)
    requires itup != [] && natts > 0 && Columns(itup, natts) && !Fits(itup, pageSize)
    ensures LayoutOk(itup, r, pageSize)
    ensures !r.TooDeep? ==> (r.TooLarge? <==> HasTooLarge(itup, pageSize))
    ensures NoneStuck(op, itup, natts, pageSize) && |itup| <= depth ==> !r.TooDeep?
    ensures NoneStuck(op, itup, natts, pageSize) && r.Pages? ==> NoEmptyPage(r.pages)
    ensures Stuck(op, itup, natts, pageSize) ==> r.TooDeep?
    ensures natts == 1 && |itup| <= depth ==> OneColumn(itup, r, pageSize)
    ensures r.Pages? ==> Laid(op, itup, natts, pageSize, r.pages, depth)
    decreases depth, 0
  {
    if depth == 0 {
      return TooDeep;
    }
    if |itup| == 1 {
      SingleSize(itup);
      SingleColumn(itup, pageSize);
      return TooLarge(itup[0]);
    }
    r := DivideAndSplit(itup, natts, pageSize, op, depth - 1);
  }

  /** What the split of some tuples leaves with room for `depth` nested calls. */
  ghost predicate SplitResult(op: OpClass, itup: seq<Tuple>, natts: nat, pageSize: nat, r: Layout, depth: nat)
    requires natts > 0
  {
    && LayoutOk(itup, r, pageSize)
    && (NoneStuck(op, itup, natts, pageSize) && |itup| <= depth ==> !r.TooDeep?)
    && (NoneStuck(op, itup, natts, pageSize) && r.Pages? ==> NoEmptyPage(r.pages))
    && (Stuck(op, itup, natts, pageSize) ==> r.TooDeep?)
    && (natts == 1 && |itup| <= depth ==> OneColumn(itup, r, pageSize))
    && (r.Pages? ==> Laid(op, itup, natts, pageSize, r.pages, depth))
  }

  /** Divides two or more tuples, and the sides again where they do not fit. */
  method DivideAndSplit(itup: seq<Tuple>, natts: nat, pageSize: nat, op: OpClass, depth: nat) returns (r: Layout)
    requires |itup| >= 2 && natts > 0 && Columns(itup, natts) && !Fits(itup, pageSize)
    ensures SplitResult(op, itup, natts, pageSize, r, depth + 1)
    decreases depth, 3
  {
    var lvectup, rvectup, l, r' := FormVectors(itup, natts, op);
    ghost var right, left;
    r, right, left := SplitSides(itup, lvectup, rvectup, natts, pageSize, op, depth);
    SidesGive(op, itup, natts, pageSize, l, r', lvectup, rvectup, right, left, r, depth);
  }

  /** What FormVectors gives. */
  ghost predicate Formed(op: OpClass, itup: seq<Tuple>, natts: nat, left: seq<nat>, right: seq<nat>, lvectup: seq<Tuple>,
                         rvectup: seq<Tuple>)
    requires natts > 0
  {
    && lvectup != [] && (rvectup == [] <==> |itup| < 4 && Halves(op, Nothing, itup, 0, natts))
    && (rvectup == [] ==> lvectup == itup) && (natts == 1 ==> ColumnSides(itup, lvectup, rvectup))
    && InRange(left, |itup|) && InRange(right, |itup|) && lvectup == Pick(itup, left) && rvectup == Pick(itup, right)
    && Splits(left, right, |itup|) && DividedBy(op, Nothing, itup, 0, natts, left, right)
  }

  /** What the split of both sides gives. */
  ghost predicate SidesResult(op: OpClass, itup: seq<Tuple>, lvectup: seq<Tuple>, rvectup: seq<Tuple>, natts: nat, pageSize: nat,
                              depth: nat, r: Layout, right: Layout, left: Layout)
    requires natts > 0
  {
    && LayoutOk(itup, r, pageSize) && Combined(right, left, r)
    && (NoneStuck(op, itup, natts, pageSize) && |lvectup| <= depth && |rvectup| <= depth ==> !r.TooDeep?)
    && (NoneStuck(op, itup, natts, pageSize) && lvectup != [] && rvectup != [] && r.Pages? ==> NoEmptyPage(r.pages))
    && (rvectup == [] && Stuck(op, lvectup, natts, pageSize) ==> r.TooDeep?)
    && (natts == 1 && |lvectup| <= depth && |rvectup| <= depth ==>
          OneColumn(rvectup, right, pageSize) && (right.Pages? ==> OneColumn(lvectup, left, pageSize)))
    && (r.Pages? ==> right.Pages? && left.Pages? && r.pages == left.pages + right.pages)
    && (r.Pages? ==> Laid(op, lvectup, natts, pageSize, left.pages, depth))
    && (r.Pages? ==> Laid(op, rvectup, natts, pageSize, right.pages, depth))
  }

  lemma SidesGive(op: OpClass, itup: seq<Tuple>, natts: nat, pageSize: nat, l: seq<nat>, r': seq<nat>, lvectup: seq<Tuple>,
                  rvectup: seq<Tuple>, right: Layout, left: Layout, r: Layout, depth: nat)
    requires |itup| >= 2 && natts > 0 && !Fits(itup, pageSize) && |lvectup| + |rvectup| == |itup|
    requires Formed(op, itup, natts, l, r', lvectup, rvectup)
    requires SidesResult(op, itup, lvectup, rvectup, natts, pageSize, depth, r, right, left)
    ensures SplitResult(op, itup, natts, pageSize, r, depth + 1)
  {
    if r.Pages? { LaidSides(op, itup, natts, pageSize, l, r', left.pages, right.pages, depth + 1); }
    SidesColumn(op, itup, natts, pageSize, l, r', lvectup, rvectup, right, left, r, depth);
    Never(op, itup, natts, pageSize);
  }

  lemma SidesColumn(op: OpClass, itup: seq<Tuple>, natts: nat, pageSize: nat, l: seq<nat>, r': seq<nat>, lvectup: seq<Tuple>,
                    rvectup: seq<Tuple>, right: Layout, left: Layout, r: Layout, depth: nat)
    requires |itup| >= 2 && natts > 0 && !Fits(itup, pageSize) && |lvectup| + |rvectup| == |itup|
    requires Formed(op, itup, natts, l, r', lvectup, rvectup)
    requires SidesResult(op, itup, lvectup, rvectup, natts, pageSize, depth, r, right, left)
    ensures natts == 1 && |itup| <= depth + 1 ==> OneColumn(itup, r, pageSize)
  {
    if natts == 1 && |itup| <= depth + 1 { OneColumnSplit(op, itup, lvectup, rvectup, right, left, r, pageSize); }
  }

  lemma Never(op: OpClass, itup: seq<Tuple>, natts: nat, pageSize: nat)
    ensures NoneStuck(op, itup, natts, pageSize) ==> !Stuck(op, itup, natts, pageSize)
  {
    if NoneStuck(op, itup, natts, pageSize) { assert !Stuck(op, itup, natts, pageSize); }
  }

  lemma OneColumnSplit(op: OpClass, itup: seq<Tuple>, lvectup: seq<Tuple>, rvectup: seq<Tuple>, right: Layout, left: Layout,
                       r: Layout, pageSize: nat)
    requires |itup| >= 2 && !Fits(itup, pageSize) && ColumnSides(itup, lvectup, rvectup) && Combined(right, left, r)
    requires rvectup == [] <==> |itup| < 4 && Halves(op, Nothing, itup, 0, 1)
    requires rvectup == [] ==> lvectup == itup && r.TooDeep?
    requires rvectup != [] ==> OneColumn(rvectup, right, pageSize) && (right.Pages? ==> OneColumn(lvectup, left, pageSize))
    ensures OneColumn(itup, r, pageSize)
  {
    if rvectup == [] {
      StuckColumn(op, itup, pageSize, r);
    } else {
      CombinedColumn(itup, lvectup, rvectup, right, left, r, pageSize);
    }
  }

  lemma AllToTheLeft(itup: seq<Tuple>, left: seq<nat>, right: seq<nat>)
    requires Divided(right, left, HalfRight(|itup|), |itup|) && InRange(left, |itup|)
    ensures |itup| < 4 ==> Pick(itup, left) == itup && right == []
  {
    if |itup| < 4 {
      PickInterval(itup, 0, |itup|);
      assert itup[..|itup|] == itup;
    }
  }

  lemma {:induction false} PickInterval(itup: seq<Tuple>, m: nat, n: nat)
    requires m + n <= |itup|
    ensures InRange(Interval(m + 1, n), |itup|) && Pick(itup, Interval(m + 1, n)) == itup[m..m + n]
    decreases n
  {
    if n > 0 {
      PickInterval(itup, m, n - 1);
      PickLast(itup, Interval(m + 1, n - 1), m + n);
      assert itup[m..m + n] == itup[m..m + n - 1] + [itup[m + n - 1]];
    }
  }

  lemma PickLast(itup: seq<Tuple>, pos: seq<nat>, x: nat)
    requires InRange(pos, |itup|) && 1 <= x <= |itup|
    ensures InRange(pos + [x], |itup|) && Pick(itup, pos + [x]) == Pick(itup, pos) + [itup[x - 1]]
  {
  }

  // ---- a single column ----

  /** The tuples without a key, in order. */
  function Nulls(itup: seq<Tuple>): seq<Tuple> {
    if itup == [] then [] else
      Nulls(itup[..|itup| - 1]) + if IsNull(itup[|itup| - 1], 0) then [itup[|itup| - 1]] else []
  }

  /** Tuples halved again and again, down to fewer than four at a time: how many there are in
      the first of these groups that does not fit on a page, 0 if all do. */
  function Misfit(s: seq<Tuple>, pageSize: nat): nat
    decreases |s|
  {
    if |s| < 4 then (if Fits(s, pageSize) then 0 else |s|) else
      HalfFacts(|s|);
      var m := HalfRight(|s|);
      if Misfit(s[..m], pageSize) != 0 then Misfit(s[..m], pageSize) else Misfit(s[m..], pageSize)
  }

  /** With a single column, the nulls alone decide whether the stack is used up, and which
      error comes first. */
  ghost predicate OneColumn(itup: seq<Tuple>, r: Layout, pageSize: nat) {
    var misfit := Misfit(Nulls(itup), pageSize);
    && (r.TooDeep? <==> misfit >= 2)
    && (misfit == 1 ==> r.TooLarge?)
    && (misfit == 0 && AllNull(itup, 0) ==> r.Pages?)
  }

  ghost predicate ColumnSides(itup: seq<Tuple>, lvectup: seq<Tuple>, rvectup: seq<Tuple>) {
    if AllNull(itup, 0) then
      rvectup == itup[..if HalfRight(|itup|) <= |itup| then HalfRight(|itup|) else 0] && itup == rvectup + lvectup
    else
      Nulls(lvectup) == [] && Nulls(rvectup) == Nulls(itup)
  }

  lemma {:induction false} AllAreNulls(itup: seq<Tuple>)
    requires AllNull(itup, 0)
    ensures Nulls(itup) == itup
  {
    if itup != [] { AllAreNulls(itup[..|itup| - 1]); }
  }

  lemma {:induction false} NoneAreNulls(itup: seq<Tuple>)
    requires NoneNull(itup, 0)
    ensures Nulls(itup) == []
  {
    if itup != [] { NoneAreNulls(itup[..|itup| - 1]); }
  }

  lemma {:induction false} PickNulls(itup: seq<Tuple>, n: nat)
    requires n <= |itup|
    ensures var pos := NullPositions(itup, 0, true, n);
            InRange(pos, |itup|) && Pick(itup, pos) == Nulls(itup[..n]) && AllNull(Pick(itup, pos), 0)
    decreases n
  {
    if n > 0 {
      PickNulls(itup, n - 1);
      assert itup[..n][..n - 1] == itup[..n - 1] && itup[..n][n - 1] == itup[n - 1];
      PickLast(itup, NullPositions(itup, 0, true, n - 1), n);
    }
  }

  lemma {:induction false} PickOthers(itup: seq<Tuple>, n: nat)
    requires n <= |itup|
    ensures var pos := NullPositions(itup, 0, false, n); InRange(pos, |itup|) && NoneNull(Pick(itup, pos), 0)
    decreases n
  {
    if n > 0 {
      PickOthers(itup, n - 1);
      var pos := NullPositions(itup, 0, false, n - 1);
      PickLast(itup, pos, n);
      assert NullPositions(itup, 0, false, n) == if IsNull(itup[n - 1], 0) then pos else pos + [n];
    }
  }

  lemma SidesOfColumn(itup: seq<Tuple>, left: seq<nat>, right: seq<nat>, lvectup: seq<Tuple>, rvectup: seq<Tuple>)
    requires |itup| >= 2 && InRange(left, |itup|) && InRange(right, |itup|)
    requires lvectup == Pick(itup, left) && rvectup == Pick(itup, right)
    requires AllNull(itup, 0) ==> Divided(right, left, HalfRight(|itup|), |itup|)
    requires Mixed(itup, 0) ==> left == NullPositions(itup, 0, false, |itup|) && right == NullPositions(itup, 0, true, |itup|)
    ensures ColumnSides(itup, lvectup, rvectup)
  {
    if AllNull(itup, 0) {
      HalvedSides(itup, left, right, HalfRight(|itup|));
    } else if NoneNull(itup, 0) {
      NoneAreNulls(itup);
      NoneAreNulls(lvectup);
      NoneAreNulls(rvectup);
    } else {
      MixedSides(itup, lvectup, rvectup);
    }
  }

  lemma HalvedSides(itup: seq<Tuple>, left: seq<nat>, right: seq<nat>, m: nat)
    requires |itup| >= 2 && InRange(left, |itup|) && InRange(right, |itup|)
    requires m == HalfRight(|itup|) && Divided(right, left, m, |itup|)
    ensures m <= |itup| && Pick(itup, right) == itup[..m] && itup == Pick(itup, right) + Pick(itup, left)
  {
    HalfFacts(|itup|);
    PickInterval(itup, 0, m);
    PickInterval(itup, m, |itup| - m);
  }

  lemma MixedSides(itup: seq<Tuple>, lvectup: seq<Tuple>, rvectup: seq<Tuple>)
    requires InRange(NullPositions(itup, 0, false, |itup|), |itup|) && InRange(NullPositions(itup, 0, true, |itup|), |itup|)
    requires lvectup == Pick(itup, NullPositions(itup, 0, false, |itup|))
    requires rvectup == Pick(itup, NullPositions(itup, 0, true, |itup|))
    ensures Nulls(lvectup) == [] && Nulls(rvectup) == Nulls(itup)
  {
    PickNulls(itup, |itup|);
    PickOthers(itup, |itup|);
    assert itup[..|itup|] == itup;
    AllAreNulls(rvectup);
    NoneAreNulls(lvectup);
  }

  lemma {:induction false} SizesJoin(a: seq<Tuple>, b: seq<Tuple>)
    ensures TotalSize(a + b) == TotalSize(a) + TotalSize(b)
    decreases |b|
  {
    if b == [] {
      assert a + b == a;
    } else {
      assert (a + b)[..|a + b| - 1] == a + b[..|b| - 1];
      SizesJoin(a, b[..|b| - 1]);
    }
  }

  lemma {:induction false} NullsAreSmaller(itup: seq<Tuple>)
    ensures TotalSize(Nulls(itup)) <= TotalSize(itup)
  {
    if itup != [] {
      var r, t := itup[..|itup| - 1], itup[|itup| - 1];
      NullsAreSmaller(r);
      SizesJoin(Nulls(r), [t]);
      assert [t][..0] == [] && TotalSize([t]) == t.size;
      assert Nulls(r) + [] == Nulls(r);
    }
  }

  lemma {:induction false} FittingHasNoMisfit(s: seq<Tuple>, pageSize: nat)
    requires Fits(s, pageSize)
    ensures Misfit(s, pageSize) == 0
    decreases |s|
  {
    if |s| >= 4 {
      HalfFacts(|s|);
      var m := HalfRight(|s|);
      SizesJoin(s[..m], s[m..]);
      assert s == s[..m] + s[m..];
      FittingHasNoMisfit(s[..m], pageSize);
      FittingHasNoMisfit(s[m..], pageSize);
    }
  }

  lemma FittingColumn(itup: seq<Tuple>, pageSize: nat)
    requires Fits(itup, pageSize)
    ensures OneColumn(itup, Pages([itup]), pageSize)
  {
    NullsAreSmaller(itup);
    FittingHasNoMisfit(Nulls(itup), pageSize);
  }

  lemma SingleColumn(itup: seq<Tuple>, pageSize: nat)
    requires |itup| == 1 && !Fits(itup, pageSize)
    ensures OneColumn(itup, TooLarge(itup[0]), pageSize)
  {
    if IsNull(itup[0], 0) {
      AllAreNulls(itup);
    } else {
      NoneAreNulls(itup);
      assert TotalSize([]) == 0;
    }
  }

  lemma StuckColumn(op: OpClass, itup: seq<Tuple>, pageSize: nat, r: Layout)
    requires 2 <= |itup| < 4 && !Fits(itup, pageSize) && Halves(op, Nothing, itup, 0, 1) && r.TooDeep?
    ensures OneColumn(itup, r, pageSize)
  {
    AllAreNulls(itup);
  }

  lemma CombinedColumn(itup: seq<Tuple>, lvectup: seq<Tuple>, rvectup: seq<Tuple>, right: Layout, left: Layout, r: Layout, pageSize: nat)
    requires ColumnSides(itup, lvectup, rvectup) && Combined(right, left, r)
    requires rvectup == [] ==> !AllNull(itup, 0)
    requires OneColumn(rvectup, right, pageSize) && (right.Pages? ==> OneColumn(lvectup, left, pageSize))
    requires AllNull(itup, 0) ==> |itup| >= 4
    ensures OneColumn(itup, r, pageSize)
  {
    if AllNull(itup, 0) {
      var m := HalfRight(|itup|);
      HalfFacts(|itup|);
      assert lvectup == itup[m..];
      AllAreNulls(itup);
      AllAreNulls(lvectup);
      AllAreNulls(rvectup);
    } else {
      NothingMisfits(pageSize);
    }
  }

  lemma NothingMisfits(pageSize: nat)
    ensures Misfit([], pageSize) == 0
  {
    assert TotalSize([]) == 0;
  }

  lemma SingleSize(itup: seq<Tuple>)
    requires |itup| == 1
    ensures TotalSize(itup) == itup[0].size && itup[0] in itup
  {
    assert itup[..0] == [];
    assert TotalSize([]) == 0;
  }

  lemma BothSides(itup: seq<Tuple>, left: seq<nat>, right: seq<nat>)
    requires Splits(left, right, |itup|)
    ensures InRange(left, |itup|) && InRange(right, |itup|) && |left| + |right| == |itup|
    ensures multiset(Pick(itup, left)) + multiset(Pick(itup, right)) == multiset(itup)
  {
    AllPositions(left + right, |itup|);
    SidesInRange(left, right, |itup|);
    PickJoin(itup, left, right);
    PickAll(itup, left + right, |itup|);
    assert itup[..|itup|] == itup;
  }
}
