/** The multi-column page split: each column divides what the columns before it left
    undecided; and the recursive split of a tuple vector into pages that fit. */
module SplitByKey {
  import opened ColumnDivision
  import opened Positions

  /** Left and right together are all positions, each once. */
  ghost predicate Splits(left: seq<nat>, right: seq<nat>, n: nat) { multiset(left + right) == Upto(n) }

  lemma Swapped(left: seq<nat>, right: seq<nat>, n: nat)
    requires Splits(left, right, n)
    ensures Splits(right, left, n)
  {
    assert multiset(left + right) == multiset(left) + multiset(right) == multiset(right + left);
  }

  lemma NextRight(left: seq<nat>, right: seq<nat>, n: nat)
    requires Splits(left, right, n)
    ensures Splits(left, right + [n + 1], n + 1) && Splits(left + [n + 1], right, n + 1)
  {
    assert multiset(left + (right + [n + 1])) == multiset(left + right) + multiset{n + 1};
    assert multiset((left + [n + 1]) + right) == multiset(left + right) + multiset{n + 1};
  }

  /** Sends the next position to one side. */
  method Assign(left: seq<nat>, right: seq<nat>, n: nat, toLeft: bool) returns (left': seq<nat>, right': seq<nat>)
    requires Splits(left, right, n)
    ensures Splits(left', right', n + 1)
    ensures left' == left + (if toLeft then [n + 1] else []) && right' == right + if toLeft then [] else [n + 1]
  {
    left' := if toLeft then left + [n + 1] else left;
    right' := if toLeft then right else right + [n + 1];
    OneMore(left, right, n + 1, toLeft, left', right');
  }

  lemma OneMore(left: seq<nat>, right: seq<nat>, n: nat, toLeft: bool, left': seq<nat>, right': seq<nat>)
    requires n > 0 && Splits(left, right, n - 1)
    requires left' == left + (if toLeft then [n] else []) && right' == right + if toLeft then [] else [n]
    ensures Splits(left', right', n)
  {
    NextRight(left, right, n - 1);
    assert left + [] == left && right + [] == right;
  }

  lemma {:induction false} PickedSplits(op: OpClass, ctx: Context, itup: seq<Tuple>, attno: nat, n: nat, left: seq<nat>, right: seq<nat>)
    requires left == Picked(op, ctx, itup, attno, true, n) && right == Picked(op, ctx, itup, attno, false, n)
    ensures Splits(left, right, n)
    decreases n
  {
    if n > 0 {
      var l, r := Picked(op, ctx, itup, attno, true, n - 1), Picked(op, ctx, itup, attno, false, n - 1);
      PickedSplits(op, ctx, itup, attno, n - 1, l, r);
      var c := op.toLeft(ctx, itup, attno, n);
      assert left == l + if c then [n] else [];
      assert right == r + if c then [] else [n];
      OneMore(l, r, n, c, left, right);
    }
  }

  /** The choice of the operator class: any division of the tuples, even a one-sided one. */
  method UserPickSplit(op: OpClass, ctx: Context, itup: seq<Tuple>, attno: nat) returns (left: seq<nat>, right: seq<nat>)
    ensures Splits(left, right, |itup|)
    ensures left == Picked(op, ctx, itup, attno, true, |itup|) && right == Picked(op, ctx, itup, attno, false, |itup|)
  {
    left, right := PickSides(op, ctx, itup, attno);
    PickedSplits(op, ctx, itup, attno, |itup|, left, right);
  }

  method PickSides(op: OpClass, ctx: Context, itup: seq<Tuple>, attno: nat) returns (left: seq<nat>, right: seq<nat>)
    ensures left == Picked(op, ctx, itup, attno, true, |itup|) && right == Picked(op, ctx, itup, attno, false, |itup|)
  {
    left, right := [], [];
    var i: nat := 0;
    while i < |itup|
      invariant i <= |itup|
      invariant left == Picked(op, ctx, itup, attno, true, i) && right == Picked(op, ctx, itup, attno, false, i)
    {
      if op.toLeft(ctx, itup, attno, i + 1) {
        left := left + [i + 1];
      } else {
        right := right + [i + 1];
      }
      i := i + 1;
    }
  }

  /** Of the first `i` positions those up to `m` are low and the others high. */
  ghost predicate Divided(low: seq<nat>, high: seq<nat>, m: nat, i: nat) {
    low == Interval(1, if i < m then i else m) && high == Interval(m + 1, if i < m then 0 else i - m)
  }

  lemma DividedStep(low: seq<nat>, high: seq<nat>, m: nat, i: nat)
    requires Divided(low, high, m, i)
    ensures i < m ==> Divided(low + [i + 1], high, m, i + 1)
    ensures i >= m ==> Divided(low, high + [i + 1], m, i + 1)
  {
  }

  lemma DividedSizes(low: seq<nat>, high: seq<nat>, m: nat, i: nat)
    requires Divided(low, high, m, i)
    ensures |low| == (if i < m then i else m) && |high| == if i < m then 0 else i - m
  {
    IntervalSize(1, if i < m then i else m);
    IntervalSize(m + 1, if i < m then 0 else i - m);
  }

  /** The fallback when the operator class puts all tuples on one side. */
  method GenericPickSplit(n: nat) returns (left: seq<nat>, right: seq<nat>)
    requires n >= 2
    ensures Splits(left, right, n) && left != [] && right != []
    ensures Divided(left, right, n / 2, n)
  {
    left, right := DivideUpto(n, n / 2);
    DividedSizes(left, right, n / 2, n);
  }

  /** The positions up to `half` go to the left. */
  method DivideUpto(n: nat, half: nat) returns (left: seq<nat>, right: seq<nat>)
    ensures Splits(left, right, n) && Divided(left, right, half, n)
  {
    left, right := [], [];
    var i := 0;
    while i < n
      invariant 0 <= i <= n && Splits(left, right, i) && Divided(left, right, half, i)
    {
      left, right := DivideNext(left, right, i, i + 1 <= half, half);
      i := i + 1;
    }
  }

  method DivideNext(left: seq<nat>, right: seq<nat>, i: nat, toLeft: bool, ghost m: nat)
    returns (left': seq<nat>, right': seq<nat>)
    requires Splits(left, right, i) && Divided(left, right, m, i) && (toLeft <==> i < m)
    ensures Splits(left', right', i + 1) && Divided(left', right', m, i + 1)
  {
    DividedStep(left, right, m, i);
    left', right' := Assign(left, right, i, toLeft);
    assert left' == left + (if toLeft then [i + 1] else []);
    assert right' == right + (if toLeft then [] else [i + 1]);
  }

  /** The last resort when every remaining column is null: fewer than four tuples all go to
      the left. */
  method SplitHalf(n: nat) returns (left: seq<nat>, right: seq<nat>)
    ensures Splits(left, right, n) && (n > 0 ==> left != [])
    ensures right == [] <==> n < 4
    ensures Divided(right, left, HalfRight(n), n)
  {
    HalfFacts(n);
    left, right := DivideBefore(n, n / 2, HalfRight(n));
    DividedSizes(right, left, HalfRight(n), n);
  }

  /** The positions before `half` go to the right. */
  method DivideBefore(n: nat, half: nat, ghost m: nat) returns (left: seq<nat>, right: seq<nat>)
    requires m == if half > 0 then half - 1 else 0
    ensures Splits(left, right, n) && Divided(right, left, m, n)
  {
    left, right := [], [];
    var i := 0;
    while i < n
      invariant 0 <= i <= n && Splits(left, right, i) && Divided(right, left, m, i)
    {
      left, right := HalfStep(left, right, i, i + 1 >= half, m);
      i := i + 1;
    }
  }

  method HalfStep(left: seq<nat>, right: seq<nat>, i: nat, toLeft: bool, ghost m: nat)
    returns (left': seq<nat>, right': seq<nat>)
    requires Splits(left, right, i) && Divided(right, left, m, i) && (toLeft <==> i >= m)
    ensures Splits(left', right', i + 1) && Divided(right', left', m, i + 1)
  {
    DividedStep(right, left, m, i);
    left', right' := Assign(left, right, i, toLeft);
    assert left' == left + (if toLeft then [i + 1] else []);
    assert right' == right + (if toLeft then [] else [i + 1]);
  }

  /** Only the positions before `n / 2` go to the right. */
  function HalfRight(n: nat): nat { if n < 4 then 0 else n / 2 - 1 }

  lemma HalfFacts(n: nat)
    ensures HalfRight(n) == if n / 2 > 0 then n / 2 - 1 else 0
    ensures HalfRight(n) == 0 <==> n < 4
    ensures n > 0 ==> HalfRight(n) < n
  {
  }

  // ---- nulls ----

  /** The positions of the first `n` tuples with a null, or without. */
  function NullPositions(itup: seq<Tuple>, attno: nat, null_: bool, n: nat): seq<nat>
    requires n <= |itup|
  {
    if n == 0 then [] else
      NullPositions(itup, attno, null_, n - 1) + if IsNull(itup[n - 1], attno) == null_ then [n] else []
  }

  method NullTuples(itup: seq<Tuple>, attno: nat) returns (nulls: seq<nat>, others: seq<nat>)
    ensures Splits(others, nulls, |itup|)
    ensures nulls == NullPositions(itup, attno, true, |itup|) && others == NullPositions(itup, attno, false, |itup|)
  {
    nulls, others := [], [];
    var i := 0;
    while i < |itup|
      invariant 0 <= i <= |itup| && Splits(others, nulls, i)
      invariant nulls == NullPositions(itup, attno, true, i) && others == NullPositions(itup, attno, false, i)
    {
      others, nulls := Assign(others, nulls, i, !IsNull(itup[i], attno));
      i := i + 1;
    }
  }

  lemma {:induction false} NullCounts(itup: seq<Tuple>, attno: nat, n: nat)
    requires n <= |itup|
    ensures |NullPositions(itup, attno, true, n)| + |NullPositions(itup, attno, false, n)| == n
    ensures |NullPositions(itup, attno, true, n)| == 0 <==> forall k | 0 <= k < n :: !IsNull(itup[k], attno)
    ensures |NullPositions(itup, attno, false, n)| == 0 <==> forall k | 0 <= k < n :: IsNull(itup[k], attno)
    decreases n
  {
    if n > 0 { NullCounts(itup, attno, n - 1); }
  }

  lemma NullCases(itup: seq<Tuple>, attno: nat)
    ensures |NullPositions(itup, attno, true, |itup|)| == |itup| <==> AllNull(itup, attno)
    ensures |NullPositions(itup, attno, true, |itup|)| == 0 <==> NoneNull(itup, attno)
    ensures |NullPositions(itup, attno, false, |itup|)| == 0 <==> AllNull(itup, attno)
  {
    NullCounts(itup, attno, |itup|);
  }

  // ---- don't-cares ----

  lemma SideCounts(left: seq<nat>, right: seq<nat>, marks: seq<bool>, n: nat)
    requires Splits(left, right, n)
    ensures multiset(Kept(left, marks) + Kept(right, marks)) + multiset(MarkedUpto(marks, n)) == Upto(n)
  {
    KeptAndMarked(left + right, marks, n);
    KeptJoin(left, right, marks);
  }

  /** Exactly the tuples that could go to the other side for nothing are marked. */
  ghost predicate FreeMarked(op: OpClass, ctx: Context, itup: seq<Tuple>, attno: nat, pos: seq<nat>, marks: seq<bool>) {
    forall k | 0 <= k < |pos| :: Marked(marks, pos[k]) == op.free(ctx, itup, attno, pos[k])
  }

  /** Marks the tuples that could go to the other side for nothing, and counts them. */
  method FindDontCares(op: OpClass, ctx: Context, itup: seq<Tuple>, attno: nat, pos: seq<nat>) returns (marks: seq<bool>, count: nat)
    requires multiset(pos) == Upto(|itup|)
    ensures |marks| == |itup| + 1 && count == |MarkedUpto(marks, |itup|)| && FreeMarked(op, ctx, itup, attno, pos, marks)
  {
    var n := |itup|;
    marks, count := seq(n + 1, _ => false), 0;
    NoneMarked(marks, n);
    AllPositions(pos, n);
    var i := 0;
    while i < |pos|
      invariant 0 <= i <= |pos| && |marks| == n + 1 && count == |MarkedUpto(marks, n)|
      invariant Marking(op, ctx, itup, attno, pos, marks, i)
    {
      MarkingStep(op, ctx, itup, attno, pos, marks, i);
      if op.free(ctx, itup, attno, pos[i]) {
        MarkOne(marks, n, pos[i]);
        marks := marks[pos[i] := true];
        count := count + 1;
      }
      i := i + 1;
    }
  }

  /** The first `i` of the positions are marked as they should be, the others not yet. */
  ghost predicate Marking(op: OpClass, ctx: Context, itup: seq<Tuple>, attno: nat, pos: seq<nat>, marks: seq<bool>, i: nat) {
    && (forall k | 0 <= k < |pos| :: pos[k] < |marks|)
    && forall k | 0 <= k < |pos| :: marks[pos[k]] == (k < i && op.free(ctx, itup, attno, pos[k]))
  }

  lemma MarkingStep(op: OpClass, ctx: Context, itup: seq<Tuple>, attno: nat, pos: seq<nat>, marks: seq<bool>, i: nat)
    requires multiset(pos) == Upto(|itup|) && i < |pos| && Marking(op, ctx, itup, attno, pos, marks, i)
    ensures !marks[pos[i]]
    ensures op.free(ctx, itup, attno, pos[i]) ==> Marking(op, ctx, itup, attno, pos, marks[pos[i] := true], i + 1)
    ensures !op.free(ctx, itup, attno, pos[i]) ==> Marking(op, ctx, itup, attno, pos, marks, i + 1)
  {
    forall k | 0 <= k < |pos| && k != i ensures pos[k] != pos[i] {
      if k < i { OnceEach(pos, |itup|, k, i); } else { OnceEach(pos, |itup|, i, k); }
    }
  }

  lemma {:induction false} KeptNone(pos: seq<nat>, marks: seq<bool>)
    ensures Kept(pos, marks) == [] <==> forall k | 0 <= k < |pos| :: Marked(marks, pos[k])
  {
    if pos != [] { KeptNone(pos[..|pos| - 1], marks); }
  }

  /** Removes the marked positions, in place in the original. */
  method RemoveDontCares(pos: seq<nat>, marks: seq<bool>) returns (kept: seq<nat>)
    ensures kept == Kept(pos, marks)
  {
    kept := [];
    var i := 0;
    while i < |pos|
      invariant 0 <= i <= |pos| && kept == Kept(pos[..i], marks)
    {
      assert pos[..i + 1][..i] == pos[..i] && pos[..i + 1][i] == pos[i];
      if !Marked(marks, pos[i]) {
        kept := kept + [pos[i]];
      }
      i := i + 1;
    }
    assert pos[..i] == pos;
  }

  /** Positions of the don't-cares in the whole vector. */
  method DontCareMap(marks: seq<bool>, n: nat) returns (positions: seq<nat>)
    ensures positions == MarkedUpto(marks, n)
  {
    positions := [];
    var i := 0;
    while i < n
      invariant 0 <= i <= n && positions == MarkedUpto(marks, i)
    {
      if Marked(marks, i + 1) {
        positions := positions + [i + 1];
      }
      i := i + 1;
    }
  }

  lemma {:induction false} MarkedInRange(marks: seq<bool>, n: nat)
    ensures InRange(MarkedUpto(marks, n), n)
  {
    forall k | 0 <= k < |MarkedUpto(marks, n)| ensures 1 <= MarkedUpto(marks, n)[k] <= n {
      var m := MarkedUpto(marks, n);
      assert m[k] in multiset(m);
      MarkedCount(marks, n, m[k]);
    }
  }

  /** What the split on one column leaves: the work is done; or the column is of no use; or
      the marked tuples are to be divided by the columns that follow. */
  datatype Verdict = Complete | Degenerate | DontCares(marks: seq<bool>)

  /** Both sides have some tuples, and at least two others are marked. */
  ghost predicate SetApart(left: seq<nat>, right: seq<nat>, marks: seq<bool>, n: nat) {
    && left != [] && right != [] && |MarkedUpto(marks, n)| >= 2
    && multiset(left + right) + multiset(MarkedUpto(marks, n)) == Upto(n)
  }

  lemma HalvesAreSides(op: OpClass, ctx: Context, itup: seq<Tuple>, attno: nat, left: seq<nat>, right: seq<nat>, half: nat)
    requires Picked(op, ctx, itup, attno, true, |itup|) == [] || Picked(op, ctx, itup, attno, false, |itup|) == []
    requires half == |itup| / 2 && Divided(left, right, half, |itup|)
    ensures left == Side(op, ctx, itup, attno, true) && right == Side(op, ctx, itup, attno, false)
  {
  }

  /** The division by a column; a one-sided one is replaced. */
  method ColumnSides(op: OpClass, ctx: Context, itup: seq<Tuple>, attno: nat) returns (left: seq<nat>, right: seq<nat>)
    requires |itup| >= 2
    ensures Splits(left, right, |itup|) && left != [] && right != []
    ensures left == Side(op, ctx, itup, attno, true) && right == Side(op, ctx, itup, attno, false)
  {
    left, right := UserPickSplit(op, ctx, itup, attno);
    if left == [] || right == [] {
      left, right := GenericPickSplit(|itup|);
      HalvesAreSides(op, ctx, itup, attno, left, right, |itup| / 2);
    }
  }

  class SplitVector {
    var left: seq<nat>
    var right: seq<nat>

    constructor ()
      ensures left == [] && right == []
    {
      left, right := [], [];
    }

    /** Divides by one column that has no nulls. */
    method UserPicksplit(itup: seq<Tuple>, attno: nat, natts: nat, op: OpClass, ctx: Context) returns (r: Verdict)
      requires |itup| >= 2 && attno < natts
      modifies this
      ensures r.Complete? ==> Splits(left, right, |itup|) && left != [] && right != []
      ensures r.Complete? ==> DividedAlone(op, ctx, itup, attno, natts, left, right) && FewFree(op, ctx, itup, attno, natts)
      ensures r.Degenerate? <==> attno + 1 < natts && Degenerates(op, ctx, itup, attno)
      ensures r.DontCares? ==> attno + 1 < natts && SetApart(left, right, r.marks, |itup|)
      ensures r.DontCares? ==> MarksFree(op, ctx, itup, attno, r.marks) && OnlySettled(op, ctx, itup, attno, left, right)
    {
      FormSides(itup, attno, op, ctx);
      if attno + 1 < natts {
        // equal union keys: the split is certainly degenerate
        if op.equal(ctx, itup, attno) {
          return Degenerate;
        }
        r := SetAside(itup, attno, natts, op, ctx);
        return;
      }
      NoneOpen(op, ctx, itup, attno, natts, left, right);
      r := Complete;
    }

    method FormSides(itup: seq<Tuple>, attno: nat, op: OpClass, ctx: Context)
      requires |itup| >= 2
      modifies this
      ensures Splits(left, right, |itup|) && left != [] && right != []
      ensures left == ColumnSide(op, ctx, itup, attno, true) && right == ColumnSide(op, ctx, itup, attno, false)
    {
      left, right := ColumnSides(op, ctx, itup, attno);
      // a secondary split may exchange the sides
      if ctx.Sides? && op.exchange(ctx, itup, attno) {
        Swapped(left, right, |itup|);
        left, right := right, left;
      }
    }

    method SetAside(itup: seq<Tuple>, attno: nat, natts: nat, op: OpClass, ctx: Context) returns (r: Verdict)
      requires Splits(left, right, |itup|) && left != [] && right != [] && attno + 1 < natts && !op.equal(ctx, itup, attno)
      requires left == ColumnSide(op, ctx, itup, attno, true) && right == ColumnSide(op, ctx, itup, attno, false)
      modifies this
      ensures r.Complete? ==> Splits(left, right, |itup|) && left != [] && right != []
      ensures r.Complete? ==> DividedAlone(op, ctx, itup, attno, natts, left, right) && FewFree(op, ctx, itup, attno, natts)
      ensures r.Degenerate? <==> AllFree(op, ctx, itup, attno, old(left)) || AllFree(op, ctx, itup, attno, old(right))
      ensures r.DontCares? ==> SetApart(left, right, r.marks, |itup|)
      ensures r.DontCares? ==> MarksFree(op, ctx, itup, attno, r.marks) && OnlySettled(op, ctx, itup, attno, left, right)
    {
      var marks, count := FindDontCares(op, ctx, itup, attno, left + right);
      MarksAgree(op, ctx, itup, attno, left + right, marks);
      FreeSides(op, ctx, itup, attno, left, right, marks);
      if count == 0 {
        NotFree(op, ctx, itup, attno, left, right, marks);
        NoneOpen(op, ctx, itup, attno, natts, left, right);
        return Complete;
      }
      KeptIsSettled(op, ctx, itup, attno, left, right, marks);
      r := TakeOut(itup, attno, natts, op, ctx, marks, count);
    }

    /** Takes the don't-cares off both sides; a single one is put back. */
    method TakeOut(itup: seq<Tuple>, attno: nat, natts: nat, op: OpClass, ghost ctx: Context, marks: seq<bool>, count: nat)
      returns (r: Verdict)
      requires Splits(left, right, |itup|) && attno + 1 < natts && count == |MarkedUpto(marks, |itup|)| > 0
      requires MarksFree(op, ctx, itup, attno, marks)
      requires OnlySettled(op, ctx, itup, attno, Kept(left, marks), Kept(right, marks))
      modifies this
      ensures r.Complete? ==> Splits(left, right, |itup|) && left != [] && right != [] && count == 1
      ensures r.Complete? ==> DividedAlone(op, ctx, itup, attno, natts, left, right)
      ensures r.Degenerate? <==> Kept(old(left), marks) == [] || Kept(old(right), marks) == []
      ensures r.DontCares? ==> r.marks == marks && SetApart(left, right, marks, |itup|)
      ensures r.DontCares? ==> OnlySettled(op, ctx, itup, attno, left, right)
    {
      SideCounts(left, right, marks, |itup|);
      left := RemoveDontCares(left, marks);
      right := RemoveDontCares(right, marks);
      if left == [] || right == [] {
        return Degenerate;
      }
      if count > 1 {
        return DontCares(marks);
      }
      PlaceOne(itup, marks, attno, natts, op, ctx);
      r := Complete;
    }

    /** A single don't-care goes to the cheaper side. */
    method PlaceOne(itup: seq<Tuple>, marks: seq<bool>, attno: nat, natts: nat, op: OpClass, ghost ctx: Context)
      requires left != [] && right != [] && |MarkedUpto(marks, |itup|)| == 1 && attno + 1 < natts
      requires multiset(left + right) + multiset(MarkedUpto(marks, |itup|)) == Upto(|itup|)
      requires MarksFree(op, ctx, itup, attno, marks) && OnlySettled(op, ctx, itup, attno, left, right)
      modifies this
      ensures Splits(left, right, |itup|) && left != [] && right != []
      ensures DividedAlone(op, ctx, itup, attno, natts, left, right)
    {
      left, right := WithOneLeft(itup, left, right, marks, attno, natts, op, ctx);
    }

    /** Puts the divided don't-cares to the tuples that were set first. */
    method Merge(backupLeft: seq<nat>, backupRight: seq<nat>, positions: seq<nat>, n: nat)
      requires Splits(left, right, |positions|) && InRange(positions, n)
      requires multiset(backupLeft + backupRight) + multiset(positions) == Upto(n)
      modifies this
      ensures Splits(left, right, n)
      ensures InRange(old(left), |positions|) && InRange(old(right), |positions|)
      ensures left == backupLeft + Pick(positions, old(left)) && right == backupRight + Pick(positions, old(right))
    {
      AllPositions(left + right, |positions|);
      SidesInRange(left, right, |positions|);
      MergedSplit(positions, left, right, backupLeft, backupRight, n);
      left, right := backupLeft + Pick(positions, left), backupRight + Pick(positions, right);
    }

    /** Divides the tuples by column `attno` and those after it. Both sides get some, unless
        the last resort had to divide fewer than four tuples. Nulls are never mixed with
        other keys of the column. */
    method SplitByKey(itup: seq<Tuple>, attno: nat, natts: nat, op: OpClass, ctx: Context) returns (halved: bool)
      requires |itup| >= 2 && attno < natts && Columns(itup, natts)
      modifies this
      ensures Splits(left, right, |itup|) && left != []
      ensures DividedBy(op, ctx, itup, attno, natts, left, right)
      ensures right == [] <==> halved && |itup| < 4
      ensures halved <==> Halves(op, ctx, itup, attno, natts)
      ensures halved ==> Divided(right, left, HalfRight(|itup|), |itup|)
      ensures Mixed(itup, attno) ==>
                left == NullPositions(itup, attno, false, |itup|) && right == NullPositions(itup, attno, true, |itup|)
      decreases natts - attno, 2
    {
      halved := false;
      var nulls, others := NullTuples(itup, attno);
      NullCases(itup, attno);
      if attno + 1 < natts { HalvesNext(op, ctx, itup, attno, natts); }
      if |nulls| == |itup| {
        if attno + 1 < natts {
          halved := SplitByKey(itup, attno + 1, natts, op, ctx);
          DividedNext(op, ctx, itup, attno, natts, left, right);
        } else {
          left, right := SplitHalf(|itup|);
          HalvedBy(op, ctx, itup, attno, natts, left, right);
          halved := true;
        }
      } else if |nulls| > 0 {
        left, right := others, nulls;
        NullsBy(op, ctx, itup, attno, natts, left, right);
      } else {
        halved := SplitKeys(itup, attno, natts, op, ctx);
      }
    }

    /** The same for a column without nulls. */
    method SplitKeys(itup: seq<Tuple>, attno: nat, natts: nat, op: OpClass, ctx: Context) returns (halved: bool)
      requires |itup| >= 2 && attno < natts && Columns(itup, natts) && NoneNull(itup, attno)
      modifies this
      ensures Splits(left, right, |itup|) && left != []
      ensures DividedBy(op, ctx, itup, attno, natts, left, right)
      ensures right == [] <==> halved && |itup| < 4
      ensures halved <==> Halves(op, ctx, itup, attno, natts)
      ensures halved ==> Divided(right, left, HalfRight(|itup|), |itup|)
      decreases natts - attno, 1
    {
      halved := false;
      KeysNotNull(itup, attno);
      if attno + 1 < natts { HalvesNext(op, ctx, itup, attno, natts); }
      var r := UserPicksplit(itup, attno, natts, op, ctx);
      match r {
        case Complete => DividedHere(op, ctx, itup, attno, natts, left, right);
        case Degenerate =>
          halved := SplitByKey(itup, attno + 1, natts, op, ctx);
          DividedNext(op, ctx, itup, attno, natts, left, right);
        case DontCares(marks) => Secondary(itup, attno, natts, op, ctx, marks);
      }
    }

    /** Divides the don't-cares by the next columns and merges the result. The sides set
        first are known to the operator class then. */
    method Secondary(itup: seq<Tuple>, attno: nat, natts: nat, op: OpClass, ghost ctx: Context, marks: seq<bool>)
      requires attno + 1 < natts && Columns(itup, natts) && SetApart(left, right, marks, |itup|)
      requires MarksFree(op, ctx, itup, attno, marks) && OnlySettled(op, ctx, itup, attno, left, right)
      requires NoneNull(itup, attno) && !AllNull(itup, attno) && !Degenerates(op, ctx, itup, attno)
      modifies this
      ensures Splits(left, right, |itup|) && left != [] && right != []
      ensures DividedBy(op, ctx, itup, attno, natts, left, right)
      decreases natts - attno, 0
    {
      var positions, newitup, sides := TakeFree(itup, left, right, marks, natts, op, ctx, attno);
      var backupLeft, backupRight := left, right;
      DivideFree(newitup, attno + 1, natts, op, sides);
      ghost var subLeft, subRight := left, right;
      Merge(backupLeft, backupRight, positions, |itup|);
      MergedBy(op, ctx, itup, attno, natts, positions, newitup, sides, subLeft, subRight, left, right);
    }

    /** Divides the don't-cares; which of the last resorts was needed is of no interest. */
    method DivideFree(newitup: seq<Tuple>, attno: nat, natts: nat, op: OpClass, sides: Context)
      requires |newitup| >= 2 && attno < natts && Columns(newitup, natts)
      modifies this
      ensures Splits(left, right, |newitup|) && DividedBy(op, sides, newitup, attno, natts, left, right)
      decreases natts - attno, 3
    {
      var halved := SplitByKey(newitup, attno, natts, op, sides);
    }
  }

  /** Adds the single don't-care to the side with the smaller penalties. */
  method WithOneLeft(itup: seq<Tuple>, left: seq<nat>, right: seq<nat>, marks: seq<bool>, attno: nat, natts: nat, op: OpClass,
                     ghost ctx: Context)
    returns (left': seq<nat>, right': seq<nat>)
    requires left != [] && right != [] && |MarkedUpto(marks, |itup|)| == 1 && attno + 1 < natts
    requires multiset(left + right) + multiset(MarkedUpto(marks, |itup|)) == Upto(|itup|)
    requires MarksFree(op, ctx, itup, attno, marks) && OnlySettled(op, ctx, itup, attno, left, right)
    ensures Splits(left', right', |itup|) && left' != [] && right' != []
    ensures DividedAlone(op, ctx, itup, attno, natts, left', right')
  {
    var toMove := TheDontCare(marks, |itup|);
    var toLeft := ComparePenalties(op, Pick(itup, left), Pick(itup, right), itup[toMove - 1], attno + 1, natts);
    left', right' := AddTo(left, right, toMove, |itup|, toLeft);
    OneOpen(op, ctx, itup, attno, natts, left, right, toMove, left', right');
  }

  method TheDontCare(marks: seq<bool>, n: nat) returns (toMove: nat)
    requires |MarkedUpto(marks, n)| == 1
    ensures MarkedUpto(marks, n) == [toMove] && 1 <= toMove <= n
  {
    var positions := DontCareMap(marks, n);
    MarkedInRange(marks, n);
    toMove := positions[0];
  }

  method AddTo(left: seq<nat>, right: seq<nat>, p: nat, n: nat, toLeft: bool) returns (left': seq<nat>, right': seq<nat>)
    requires multiset(left + right) + multiset([p]) == Upto(n)
    ensures Splits(left', right', n)
    ensures left' == left + (if toLeft then [p] else []) && right' == right + if toLeft then [] else [p]
  {
    OneLeftOver(left, right, [p], n);
    left' := if toLeft then left + [p] else left;
    right' := if toLeft then right else right + [p];
  }

  /** The don't-cares and their positions, and what is decided for the others. */
  method TakeFree(itup: seq<Tuple>, left: seq<nat>, right: seq<nat>, marks: seq<bool>, ghost natts: nat, ghost op: OpClass,
                  ghost ctx: Context, ghost attno: nat)
    returns (positions: seq<nat>, newitup: seq<Tuple>, sides: Context)
    requires Columns(itup, natts) && SetApart(left, right, marks, |itup|)
    requires MarksFree(op, ctx, itup, attno, marks) && OnlySettled(op, ctx, itup, attno, left, right)
    ensures positions == Free(op, ctx, itup, attno, |itup|) && InRange(positions, |itup|) && |positions| >= 2
    ensures newitup == FreeTuples(op, ctx, itup, attno) && Columns(newitup, natts)
    ensures sides == Decided(op, ctx, itup, attno)
    ensures multiset(left + right) + multiset(positions) == Upto(|itup|)
  {
    positions := DontCareMap(marks, |itup|);
    MarkedInRange(marks, |itup|);
    newitup := Pick(itup, positions);
    sides := Sides(Pick(itup, left), Pick(itup, right));
  }

  /** Compares the penalties of both sides column by column, up to the first difference. */
  method ComparePenalties(op: OpClass, left: seq<Tuple>, right: seq<Tuple>, t: Tuple, attno: nat, natts: nat) returns (toLeft: bool)
    ensures toLeft <==> LeftIsCheaper(op, left, right, t, attno, natts)
  {
    var a := attno;
    while a < natts
      invariant attno <= a && SamePenalties(op, left, right, t, attno, a)
    {
      var lpenalty, rpenalty := op.penalty(left, t, a), op.penalty(right, t, a);
      if lpenalty != rpenalty {
        return lpenalty <= rpenalty;
      }
      a := a + 1;
    }
    toLeft := true;
  }

  /** Exactly the free tuples are marked. */
  ghost predicate MarksFree(op: OpClass, ctx: Context, itup: seq<Tuple>, attno: nat, marks: seq<bool>) {
    && (forall k | 1 <= k <= |itup| :: Marked(marks, k) == op.free(ctx, itup, attno, k))
    && MarkedUpto(marks, |itup|) == Free(op, ctx, itup, attno, |itup|)
  }

  lemma {:induction false} MarkedAreFree(op: OpClass, ctx: Context, itup: seq<Tuple>, attno: nat, marks: seq<bool>, n: nat)
    requires forall k | 1 <= k <= n :: Marked(marks, k) == op.free(ctx, itup, attno, k)
    ensures MarkedUpto(marks, n) == Free(op, ctx, itup, attno, n)
  {
    if n > 0 { MarkedAreFree(op, ctx, itup, attno, marks, n - 1); }
  }

  lemma MarksAgree(op: OpClass, ctx: Context, itup: seq<Tuple>, attno: nat, pos: seq<nat>, marks: seq<bool>)
    requires multiset(pos) == Upto(|itup|) && FreeMarked(op, ctx, itup, attno, pos, marks)
    ensures MarksFree(op, ctx, itup, attno, marks)
  {
    forall k | 1 <= k <= |itup| ensures Marked(marks, k) == op.free(ctx, itup, attno, k) {
      UptoCount(|itup|, k);
      assert k in multiset(pos);
      var i :| 0 <= i < |pos| && pos[i] == k;
    }
    MarkedAreFree(op, ctx, itup, attno, marks, |itup|);
  }

  /** A column that others follow leaves at most one tuple open. */
  ghost predicate FewFree(op: OpClass, ctx: Context, itup: seq<Tuple>, attno: nat, natts: nat) {
    attno + 1 < natts ==> |Free(op, ctx, itup, attno, |itup|)| <= 1
  }

  lemma NoneOpen(op: OpClass, ctx: Context, itup: seq<Tuple>, attno: nat, natts: nat, left: seq<nat>, right: seq<nat>)
    requires left == ColumnSide(op, ctx, itup, attno, true) && right == ColumnSide(op, ctx, itup, attno, false)
    requires attno + 1 < natts ==> Free(op, ctx, itup, attno, |itup|) == []
    ensures DividedAlone(op, ctx, itup, attno, natts, left, right)
  {
    forall k | 1 <= k <= |itup|
      ensures k in left <==> AloneGoesLeft(op, ctx, itup, attno, natts, k)
      ensures k in right <==> !AloneGoesLeft(op, ctx, itup, attno, natts, k)
    {
      InColumnSide(op, ctx, itup, attno, true, k);
      InColumnSide(op, ctx, itup, attno, false, k);
      if attno + 1 < natts && op.free(ctx, itup, attno, k) { FreeRank(op, ctx, itup, attno, |itup|, k); }
    }
  }

  lemma {:induction false} KeptAreSettled(op: OpClass, ctx: Context, itup: seq<Tuple>, attno: nat, pos: seq<nat>, marks: seq<bool>)
    requires MarksFree(op, ctx, itup, attno, marks) && InRange(pos, |itup|)
    ensures Kept(pos, marks) == Settled(op, ctx, itup, attno, pos)
  {
    if pos != [] { KeptAreSettled(op, ctx, itup, attno, pos[..|pos| - 1], marks); }
  }

  lemma KeptIsSettled(op: OpClass, ctx: Context, itup: seq<Tuple>, attno: nat, left: seq<nat>, right: seq<nat>, marks: seq<bool>)
    requires MarksFree(op, ctx, itup, attno, marks) && Splits(left, right, |itup|)
    ensures Kept(left, marks) == Settled(op, ctx, itup, attno, left) && Kept(right, marks) == Settled(op, ctx, itup, attno, right)
  {
    AllPositions(left + right, |itup|);
    SidesInRange(left, right, |itup|);
    KeptAreSettled(op, ctx, itup, attno, left, marks);
    KeptAreSettled(op, ctx, itup, attno, right, marks);
  }

  lemma OneOpen(op: OpClass, ctx: Context, itup: seq<Tuple>, attno: nat, natts: nat, l: seq<nat>, r: seq<nat>, p: nat,
                left: seq<nat>, right: seq<nat>)
    requires OnlySettled(op, ctx, itup, attno, l, r) && attno + 1 < natts
    requires Free(op, ctx, itup, attno, |itup|) == [p] && 1 <= p <= |itup|
    requires if LeftIsCheaper(op, SideTuples(op, ctx, itup, attno, true), SideTuples(op, ctx, itup, attno, false), itup[p - 1],
                              attno + 1, natts)
             then left == l + [p] && right == r
             else left == l && right == r + [p]
    ensures DividedAlone(op, ctx, itup, attno, natts, left, right)
  {
    forall k | 1 <= k <= |itup|
      ensures k in left <==> AloneGoesLeft(op, ctx, itup, attno, natts, k)
      ensures k in right <==> !AloneGoesLeft(op, ctx, itup, attno, natts, k)
    {
      InSettledSide(op, ctx, itup, attno, true, k);
      InSettledSide(op, ctx, itup, attno, false, k);
      OnlyOne(op, ctx, itup, attno, p, k);
    }
  }

  lemma OnlyOne(op: OpClass, ctx: Context, itup: seq<Tuple>, attno: nat, p: nat, k: nat)
    requires Free(op, ctx, itup, attno, |itup|) == [p] && 1 <= k <= |itup|
    ensures op.free(ctx, itup, attno, k) <==> k == p
  {
    RankedIsFree(op, ctx, itup, attno, |itup|, 0);
    if op.free(ctx, itup, attno, k) { FreeRank(op, ctx, itup, attno, |itup|, k); }
  }

  lemma KeysNotNull(itup: seq<Tuple>, attno: nat)
    requires itup != [] && NoneNull(itup, attno)
    ensures !AllNull(itup, attno)
  {
    assert !IsNull(itup[0], attno);
  }

  lemma DividedNext(op: OpClass, ctx: Context, itup: seq<Tuple>, attno: nat, natts: nat, left: seq<nat>, right: seq<nat>)
    requires attno + 1 < natts && Useless(op, ctx, itup, attno) && DividedBy(op, ctx, itup, attno + 1, natts, left, right)
    ensures DividedBy(op, ctx, itup, attno, natts, left, right)
  {
  }

  lemma HalvedBy(op: OpClass, ctx: Context, itup: seq<Tuple>, attno: nat, natts: nat, left: seq<nat>, right: seq<nat>)
    requires attno + 1 == natts && AllNull(itup, attno) && Divided(right, left, HalfRight(|itup|), |itup|)
    ensures DividedBy(op, ctx, itup, attno, natts, left, right)
  {
    HalfFacts(|itup|);
    forall k | 1 <= k <= |itup| ensures (k in left <==> k >= |itup| / 2) && (k in right <==> k < |itup| / 2) {
      InInterval(1, HalfRight(|itup|), k);
      InInterval(HalfRight(|itup|) + 1, |itup| - HalfRight(|itup|), k);
    }
  }

  lemma {:induction false} InNullPositions(itup: seq<Tuple>, attno: nat, null_: bool, n: nat, k: nat)
    requires n <= |itup|
    ensures k in NullPositions(itup, attno, null_, n) <==> 1 <= k <= n && IsNull(itup[k - 1], attno) == null_
    decreases n
  {
    if n > 0 { InNullPositions(itup, attno, null_, n - 1, k); }
  }

  lemma NullsBy(op: OpClass, ctx: Context, itup: seq<Tuple>, attno: nat, natts: nat, left: seq<nat>, right: seq<nat>)
    requires attno < natts && Mixed(itup, attno)
    requires left == NullPositions(itup, attno, false, |itup|) && right == NullPositions(itup, attno, true, |itup|)
    ensures DividedBy(op, ctx, itup, attno, natts, left, right)
  {
    forall k | 1 <= k <= |itup|
      ensures k in left <==> GoesLeft(op, ctx, itup, attno, natts, k)
      ensures k in right <==> !GoesLeft(op, ctx, itup, attno, natts, k)
    {
      InNullPositions(itup, attno, false, |itup|, k);
      InNullPositions(itup, attno, true, |itup|, k);
    }
  }

  lemma DividedHere(op: OpClass, ctx: Context, itup: seq<Tuple>, attno: nat, natts: nat, left: seq<nat>, right: seq<nat>)
    requires attno < natts && NoneNull(itup, attno) && !AllNull(itup, attno) && FewFree(op, ctx, itup, attno, natts)
    requires attno + 1 < natts ==> !Degenerates(op, ctx, itup, attno)
    requires DividedAlone(op, ctx, itup, attno, natts, left, right)
    ensures DividedBy(op, ctx, itup, attno, natts, left, right)
  {
  }

  /** Where a free position is after merging: where its rank was. */
  lemma MergedFree(op: OpClass, ctx: Context, itup: seq<Tuple>, attno: nat, free: seq<nat>, sub: seq<nat>, k: nat)
    requires free == Free(op, ctx, itup, attno, |itup|) && InRange(sub, |free|)
    requires 1 <= k <= |itup| && op.free(ctx, itup, attno, k)
    ensures k in Pick(free, sub) <==> |Free(op, ctx, itup, attno, k)| in sub
  {
    var rank := |Free(op, ctx, itup, attno, k)|;
    FreeRank(op, ctx, itup, attno, |itup|, k);
    var picked := Pick(free, sub);
    if k in picked {
      var i :| 0 <= i < |picked| && picked[i] == k;
      RankedIsFree(op, ctx, itup, attno, |itup|, sub[i] - 1);
      assert sub[i] == rank;
    }
    if rank in sub {
      var i :| 0 <= i < |sub| && sub[i] == rank;
      assert picked[i] == k;
    }
  }

  lemma MergedSettled(op: OpClass, ctx: Context, itup: seq<Tuple>, attno: nat, free: seq<nat>, sub: seq<nat>, k: nat)
    requires free == Free(op, ctx, itup, attno, |itup|) && InRange(sub, |free|) && !op.free(ctx, itup, attno, k)
    ensures k !in Pick(free, sub)
  {
    forall i | 0 <= i < |sub| ensures Pick(free, sub)[i] != k {
      RankedIsFree(op, ctx, itup, attno, |itup|, sub[i] - 1);
    }
  }

  lemma MergedOne(op: OpClass, ctx: Context, itup: seq<Tuple>, attno: nat, free: seq<nat>, toLeft: bool, sub: seq<nat>,
                  side: seq<nat>, k: nat)
    requires free == Free(op, ctx, itup, attno, |itup|) && InRange(sub, |free|) && 1 <= k <= |itup|
    requires side == SettledSide(op, ctx, itup, attno, toLeft) + Pick(free, sub)
    ensures op.free(ctx, itup, attno, k) ==> (k in side <==> |Free(op, ctx, itup, attno, k)| in sub)
    ensures !op.free(ctx, itup, attno, k) ==> (k in side <==> ByColumn(op, ctx, itup, attno, k) == toLeft)
  {
    InSettledSide(op, ctx, itup, attno, toLeft, k);
    if op.free(ctx, itup, attno, k) {
      MergedFree(op, ctx, itup, attno, free, sub, k);
    } else {
      MergedSettled(op, ctx, itup, attno, free, sub, k);
    }
  }

  lemma MergedBy(op: OpClass, ctx: Context, itup: seq<Tuple>, attno: nat, natts: nat, free: seq<nat>, newitup: seq<Tuple>,
                 sides: Context, subLeft: seq<nat>, subRight: seq<nat>, left: seq<nat>, right: seq<nat>)
    requires newitup == FreeTuples(op, ctx, itup, attno) && sides == Decided(op, ctx, itup, attno)
    requires attno + 1 < natts && NoneNull(itup, attno) && !AllNull(itup, attno) && !Degenerates(op, ctx, itup, attno)
    requires free == Free(op, ctx, itup, attno, |itup|) && |free| >= 2 && InRange(subLeft, |free|) && InRange(subRight, |free|)
    requires DividedBy(op, sides, newitup, attno + 1, natts, subLeft, subRight)
    requires left == SettledSide(op, ctx, itup, attno, true) + Pick(free, subLeft)
    requires right == SettledSide(op, ctx, itup, attno, false) + Pick(free, subRight)
    ensures DividedBy(op, ctx, itup, attno, natts, left, right)
  {
    forall k | 1 <= k <= |itup|
      ensures k in left <==> GoesLeft(op, ctx, itup, attno, natts, k)
      ensures k in right <==> !GoesLeft(op, ctx, itup, attno, natts, k)
    {
      MergedOne(op, ctx, itup, attno, free, true, subLeft, left, k);
      MergedOne(op, ctx, itup, attno, free, false, subRight, right, k);
      if op.free(ctx, itup, attno, k) { FreeRank(op, ctx, itup, attno, |itup|, k); }
    }
  }

  lemma FreeSides(op: OpClass, ctx: Context, itup: seq<Tuple>, attno: nat, left: seq<nat>, right: seq<nat>, marks: seq<bool>)
    requires FreeMarked(op, ctx, itup, attno, left + right, marks)
    ensures Kept(left, marks) == [] <==> AllFree(op, ctx, itup, attno, left)
    ensures Kept(right, marks) == [] <==> AllFree(op, ctx, itup, attno, right)
  {
    var pos := left + right;
    KeptNone(left, marks);
    KeptNone(right, marks);
    forall k | 0 <= k < |left| ensures Marked(marks, left[k]) == op.free(ctx, itup, attno, left[k]) { assert pos[k] == left[k]; }
    forall k | 0 <= k < |right| ensures Marked(marks, right[k]) == op.free(ctx, itup, attno, right[k]) {
      assert pos[|left| + k] == right[k];
    }
  }

  lemma NotFree(op: OpClass, ctx: Context, itup: seq<Tuple>, attno: nat, left: seq<nat>, right: seq<nat>, marks: seq<bool>)
    requires FreeMarked(op, ctx, itup, attno, left + right, marks) && Splits(left, right, |itup|)
    requires left != [] && right != [] && |MarkedUpto(marks, |itup|)| == 0
    ensures !AllFree(op, ctx, itup, attno, left) && !AllFree(op, ctx, itup, attno, right)
  {
    var pos := left + right;
    AllPositions(pos, |itup|);
    MarkedCount(marks, |itup|, pos[0]);
    MarkedCount(marks, |itup|, pos[|left|]);
    assert pos[0] == left[0] && pos[|left|] == right[0];
  }

  lemma OneLeftOver(left: seq<nat>, right: seq<nat>, positions: seq<nat>, n: nat)
    requires multiset(left + right) + multiset(positions) == Upto(n) && |positions| == 1
    ensures Splits(left + positions, right, n) && Splits(left, right + positions, n)
    ensures left + positions == left + [positions[0]] && right + positions == right + [positions[0]]
  {
    assert multiset((left + positions) + right) == multiset(left + right) + multiset(positions);
    assert multiset(left + (right + positions)) == multiset(left + right) + multiset(positions);
  }

  lemma SidesInRange(left: seq<nat>, right: seq<nat>, n: nat)
    requires InRange(left + right, n)
    ensures InRange(left, n) && InRange(right, n)
  {
    forall k | 0 <= k < |left| ensures 1 <= left[k] <= n { assert (left + right)[k] == left[k]; }
    forall k | 0 <= k < |right| ensures 1 <= right[k] <= n { assert (left + right)[|left| + k] == right[k]; }
  }

  lemma MergedSplit(positions: seq<nat>, left: seq<nat>, right: seq<nat>, backupLeft: seq<nat>, backupRight: seq<nat>, n: nat)
    requires InRange(left, |positions|) && InRange(right, |positions|) && Splits(left, right, |positions|)
    requires multiset(backupLeft + backupRight) + multiset(positions) == Upto(n)
    ensures Splits(backupLeft + Pick(positions, left), backupRight + Pick(positions, right), n)
  {
    var l, r := Pick(positions, left), Pick(positions, right);
    PickJoin(positions, left, right);
    PickAll(positions, left + right, |positions|);
    assert positions[..|positions|] == positions;
    assert multiset(l) + multiset(r) == multiset(positions);
    Regroup(backupLeft, l, backupRight, r);
  }

  lemma Regroup(a: seq<nat>, b: seq<nat>, c: seq<nat>, d: seq<nat>)
    ensures multiset((a + b) + (c + d)) == multiset(a + c) + (multiset(b) + multiset(d))
  {
  }
}
