/** Where the columns of a multi-column index send each tuple when a page is divided. */
module ColumnDivision {
  import opened Positions

  /** An index tuple: which of its columns are null, and its size with its line pointer. */
  datatype Tuple = Tuple(id: nat, nulls: seq<bool>, size: nat)

  predicate Columns(itup: seq<Tuple>, natts: nat) { forall i | 0 <= i < |itup| :: |itup[i].nulls| == natts }

  predicate IsNull(t: Tuple, attno: nat) { attno < |t.nulls| && t.nulls[attno] }

  predicate AllNull(itup: seq<Tuple>, attno: nat) { forall i | 0 <= i < |itup| :: IsNull(itup[i], attno) }

  predicate NoneNull(itup: seq<Tuple>, attno: nat) { forall i | 0 <= i < |itup| :: !IsNull(itup[i], attno) }

  /** The columns from `attno` on hold nothing but nulls. */
  predicate NoKeys(itup: seq<Tuple>, attno: nat, natts: nat) { forall a | attno <= a < natts :: AllNull(itup, a) }

  /** What is already decided for the page: nothing, or the tuples of both sides. */
  datatype Context = Nothing | Sides(left: seq<Tuple>, right: seq<Tuple>)

  /** What the operator class answers for a vector of tuples and a column: where its division
      sends a tuple; whether the keys of both sides are equal; which tuples could go to the
      other side for nothing; whether the sides fit better to those already decided when they
      are exchanged; and the penalty for adding a tuple to a side. */
  datatype OpClass = OpClass(toLeft: (Context, seq<Tuple>, nat, nat) -> bool, equal: (Context, seq<Tuple>, nat) -> bool,
                             free: (Context, seq<Tuple>, nat, nat) -> bool, exchange: (Context, seq<Tuple>, nat) -> bool,
                             penalty: (seq<Tuple>, Tuple, nat) -> real)

  /** The positions among the first `n` that the operator class sends to one side. */
  function Picked(op: OpClass, ctx: Context, itup: seq<Tuple>, attno: nat, toLeft: bool, n: nat): seq<nat> {
    if n == 0 then [] else
      Picked(op, ctx, itup, attno, toLeft, n - 1) + if op.toLeft(ctx, itup, attno, n) == toLeft then [n] else []
  }

  /** `n` positions from `from` on. */
  function Interval(from: nat, n: nat): seq<nat> { if n == 0 then [] else Interval(from, n - 1) + [from + n - 1] }

  lemma {:induction false} IntervalSize(from: nat, n: nat)
    ensures |Interval(from, n)| == n
  {
    if n > 0 { IntervalSize(from, n - 1); }
  }

  /** The tuples at these positions could go to the other side for nothing. */
  predicate AllFree(op: OpClass, ctx: Context, itup: seq<Tuple>, attno: nat, pos: seq<nat>) {
    forall k | 0 <= k < |pos| :: op.free(ctx, itup, attno, pos[k])
  }

  /** One side of the division by a column: the operator class's, or half of the tuples. */
  function Side(op: OpClass, ctx: Context, itup: seq<Tuple>, attno: nat, toLeft: bool): seq<nat> {
    var n := |itup|;
    if Picked(op, ctx, itup, attno, true, n) != [] && Picked(op, ctx, itup, attno, false, n) != [] then
      Picked(op, ctx, itup, attno, toLeft, n)
    else if toLeft then Interval(1, n / 2)
    else Interval(n / 2 + 1, n - n / 2)
  }

  /** The division by a column is of no use: equal keys on both sides, or a whole side that
      could as well be on the other. */
  predicate Degenerates(op: OpClass, ctx: Context, itup: seq<Tuple>, attno: nat) {
    || op.equal(ctx, itup, attno)
    || AllFree(op, ctx, itup, attno, Side(op, ctx, itup, attno, true))
    || AllFree(op, ctx, itup, attno, Side(op, ctx, itup, attno, false))
  }

  /** A column that cannot divide the tuples. */
  predicate Useless(op: OpClass, ctx: Context, itup: seq<Tuple>, a: nat) {
    AllNull(itup, a) || (NoneNull(itup, a) && Degenerates(op, ctx, itup, a))
  }

  /** The last resort is reached: the last column is all null and those before cannot divide
      the tuples. */
  predicate Halves(op: OpClass, ctx: Context, itup: seq<Tuple>, attno: nat, natts: nat) {
    natts > 0 && AllNull(itup, natts - 1) && forall a | attno <= a < natts - 1 :: Useless(op, ctx, itup, a)
  }

  lemma HalvesNext(op: OpClass, ctx: Context, itup: seq<Tuple>, attno: nat, natts: nat)
    requires attno + 1 < natts
    ensures Halves(op, ctx, itup, attno, natts) <==> Useless(op, ctx, itup, attno) && Halves(op, ctx, itup, attno + 1, natts)
  {
  }

  /** A column with some nulls and some keys. */
  predicate Mixed(itup: seq<Tuple>, attno: nat) { !AllNull(itup, attno) && !NoneNull(itup, attno) }

  /** The sides may be exchanged when something is already decided for the page. */
  predicate Exchanged(op: OpClass, ctx: Context, itup: seq<Tuple>, attno: nat) { ctx.Sides? && op.exchange(ctx, itup, attno) }

  /** One side of the division as the column leaves it. */
  function ColumnSide(op: OpClass, ctx: Context, itup: seq<Tuple>, attno: nat, toLeft: bool): seq<nat> {
    Side(op, ctx, itup, attno, toLeft != Exchanged(op, ctx, itup, attno))
  }

  // ---- where each position goes ----

  /** The operator class sends tuples to both sides. */
  ghost predicate Divides(op: OpClass, ctx: Context, itup: seq<Tuple>, attno: nat) {
    && (exists k {:trigger op.toLeft(ctx, itup, attno, k)} | 1 <= k <= |itup| :: op.toLeft(ctx, itup, attno, k))
    && (exists k {:trigger op.toLeft(ctx, itup, attno, k)} | 1 <= k <= |itup| :: !op.toLeft(ctx, itup, attno, k))
  }

  /** The column sends the tuple to the left: by the answer of the operator class, or the first
      half if that puts all tuples on one side. */
  ghost predicate ByColumn(op: OpClass, ctx: Context, itup: seq<Tuple>, attno: nat, k: nat) {
    (if Divides(op, ctx, itup, attno) then op.toLeft(ctx, itup, attno, k) else k <= |itup| / 2)
    != Exchanged(op, ctx, itup, attno)
  }

  lemma {:induction false} InPicked(op: OpClass, ctx: Context, itup: seq<Tuple>, attno: nat, toLeft: bool, n: nat, k: nat)
    ensures k in Picked(op, ctx, itup, attno, toLeft, n) <==> 1 <= k <= n && op.toLeft(ctx, itup, attno, k) == toLeft
  {
    if n > 0 { InPicked(op, ctx, itup, attno, toLeft, n - 1, k); }
  }

  lemma {:induction false} InInterval(from: nat, n: nat, k: nat)
    ensures k in Interval(from, n) <==> from <= k < from + n
  {
    if n > 0 { InInterval(from, n - 1, k); }
  }

  lemma PickedSome(op: OpClass, ctx: Context, itup: seq<Tuple>, attno: nat, toLeft: bool)
    ensures Picked(op, ctx, itup, attno, toLeft, |itup|) != [] <==>
            exists k {:trigger op.toLeft(ctx, itup, attno, k)} | 1 <= k <= |itup| :: op.toLeft(ctx, itup, attno, k) == toLeft
  {
    var s := Picked(op, ctx, itup, attno, toLeft, |itup|);
    if s != [] {
      InPicked(op, ctx, itup, attno, toLeft, |itup|, s[0]);
      assert s[0] in s;
    }
    forall k | 1 <= k <= |itup| && op.toLeft(ctx, itup, attno, k) == toLeft ensures s != [] {
      InPicked(op, ctx, itup, attno, toLeft, |itup|, k);
    }
  }

  /** The sides hold exactly the positions that the column sends there. */
  lemma InColumnSide(op: OpClass, ctx: Context, itup: seq<Tuple>, attno: nat, toLeft: bool, k: nat)
    ensures k in ColumnSide(op, ctx, itup, attno, toLeft) <==> 1 <= k <= |itup| && ByColumn(op, ctx, itup, attno, k) == toLeft
  {
    var n, side := |itup|, toLeft != Exchanged(op, ctx, itup, attno);
    PickedSome(op, ctx, itup, attno, true);
    PickedSome(op, ctx, itup, attno, false);
    InPicked(op, ctx, itup, attno, side, n, k);
    InInterval(1, n / 2, k);
    InInterval(n / 2 + 1, n - n / 2, k);
  }

  /** The tuples among the first `n` that could go to the other side for nothing. */
  ghost function Free(op: OpClass, ctx: Context, itup: seq<Tuple>, attno: nat, n: nat): seq<nat> {
    if n == 0 then [] else Free(op, ctx, itup, attno, n - 1) + if op.free(ctx, itup, attno, n) then [n] else []
  }

  lemma {:induction false} FreeInRange(op: OpClass, ctx: Context, itup: seq<Tuple>, attno: nat, n: nat)
    ensures InRange(Free(op, ctx, itup, attno, n), n) && |Free(op, ctx, itup, attno, n)| <= n
  {
    if n > 0 { FreeInRange(op, ctx, itup, attno, n - 1); }
  }

  /** A free tuple stands among the free ones where their number up to it says. */
  lemma {:induction false} FreeRank(op: OpClass, ctx: Context, itup: seq<Tuple>, attno: nat, n: nat, k: nat)
    requires 1 <= k <= n && op.free(ctx, itup, attno, k)
    ensures 1 <= |Free(op, ctx, itup, attno, k)| <= |Free(op, ctx, itup, attno, n)|
    ensures Free(op, ctx, itup, attno, n)[|Free(op, ctx, itup, attno, k)| - 1] == k
    decreases n
  {
    if k < n { FreeRank(op, ctx, itup, attno, n - 1, k); }
  }

  lemma {:induction false} RankedIsFree(op: OpClass, ctx: Context, itup: seq<Tuple>, attno: nat, n: nat, i: nat)
    requires i < |Free(op, ctx, itup, attno, n)|
    ensures var k := Free(op, ctx, itup, attno, n)[i];
            1 <= k <= n && op.free(ctx, itup, attno, k) && |Free(op, ctx, itup, attno, k)| == i + 1
    decreases n
  {
    if i < |Free(op, ctx, itup, attno, n - 1)| { RankedIsFree(op, ctx, itup, attno, n - 1, i); }
  }

  /** Those of the positions that are not free. */
  ghost function Settled(op: OpClass, ctx: Context, itup: seq<Tuple>, attno: nat, pos: seq<nat>): seq<nat> {
    if pos == [] then [] else
      var p := pos[|pos| - 1];
      Settled(op, ctx, itup, attno, pos[..|pos| - 1]) + if op.free(ctx, itup, attno, p) then [] else [p]
  }

  lemma {:induction false} InSettled(op: OpClass, ctx: Context, itup: seq<Tuple>, attno: nat, pos: seq<nat>, k: nat)
    ensures k in Settled(op, ctx, itup, attno, pos) <==> k in pos && !op.free(ctx, itup, attno, k)
  {
    if pos != [] {
      InSettled(op, ctx, itup, attno, pos[..|pos| - 1], k);
      assert pos == pos[..|pos| - 1] + [pos[|pos| - 1]];
    }
  }

  lemma InRangeOf(pos: seq<nat>, n: nat)
    requires forall k | k in pos :: 1 <= k <= n
    ensures InRange(pos, n)
  {
    forall i | 0 <= i < |pos| ensures 1 <= pos[i] <= n { assert pos[i] in pos; }
  }

  /** The positions that a column settles on one side. */
  ghost function SettledSide(op: OpClass, ctx: Context, itup: seq<Tuple>, attno: nat, toLeft: bool): (r: seq<nat>)
    ensures InRange(r, |itup|)
  {
    SettledInRange(op, ctx, itup, attno, toLeft);
    Settled(op, ctx, itup, attno, ColumnSide(op, ctx, itup, attno, toLeft))
  }

  lemma SettledInRange(op: OpClass, ctx: Context, itup: seq<Tuple>, attno: nat, toLeft: bool)
    ensures InRange(Settled(op, ctx, itup, attno, ColumnSide(op, ctx, itup, attno, toLeft)), |itup|)
  {
    var s := ColumnSide(op, ctx, itup, attno, toLeft);
    forall k | k in Settled(op, ctx, itup, attno, s) ensures 1 <= k <= |itup| {
      InSettled(op, ctx, itup, attno, s, k);
      InColumnSide(op, ctx, itup, attno, toLeft, k);
    }
    InRangeOf(Settled(op, ctx, itup, attno, s), |itup|);
  }

  lemma InSettledSide(op: OpClass, ctx: Context, itup: seq<Tuple>, attno: nat, toLeft: bool, k: nat)
    ensures k in SettledSide(op, ctx, itup, attno, toLeft) <==>
            1 <= k <= |itup| && ByColumn(op, ctx, itup, attno, k) == toLeft && !op.free(ctx, itup, attno, k)
  {
    InSettled(op, ctx, itup, attno, ColumnSide(op, ctx, itup, attno, toLeft), k);
    InColumnSide(op, ctx, itup, attno, toLeft, k);
  }

  /** The tuples there: the keys of the side are made of these. */
  ghost function SideTuples(op: OpClass, ctx: Context, itup: seq<Tuple>, attno: nat, toLeft: bool): seq<Tuple> {
    Pick(itup, SettledSide(op, ctx, itup, attno, toLeft))
  }

  /** The free tuples. */
  ghost function FreeTuples(op: OpClass, ctx: Context, itup: seq<Tuple>, attno: nat): (r: seq<Tuple>)
    ensures |r| == |Free(op, ctx, itup, attno, |itup|)|
  {
    FreeInRange(op, ctx, itup, attno, |itup|);
    Pick(itup, Free(op, ctx, itup, attno, |itup|))
  }

  /** In the first column from `attno` on where the penalties differ, the left side has the
      smaller one. */
  ghost predicate LeftIsCheaper(op: OpClass, left: seq<Tuple>, right: seq<Tuple>, t: Tuple, attno: nat, natts: nat) {
    forall a | attno <= a < natts && SamePenalties(op, left, right, t, attno, a) ::
      op.penalty(left, t, a) <= op.penalty(right, t, a)
  }

  ghost predicate SamePenalties(op: OpClass, left: seq<Tuple>, right: seq<Tuple>, t: Tuple, attno: nat, a: nat) {
    forall b | attno <= b < a :: op.penalty(left, t, b) == op.penalty(right, t, b)
  }

  /** Where a column alone sends a position: what it leaves open goes to the cheaper side. */
  ghost predicate AloneGoesLeft(op: OpClass, ctx: Context, itup: seq<Tuple>, attno: nat, natts: nat, k: nat)
    requires 1 <= k <= |itup|
  {
    if attno + 1 < natts && op.free(ctx, itup, attno, k) then
      LeftIsCheaper(op, SideTuples(op, ctx, itup, attno, true), SideTuples(op, ctx, itup, attno, false), itup[k - 1],
                    attno + 1, natts)
    else ByColumn(op, ctx, itup, attno, k)
  }

  /** A position goes to the left. A column without keys or of no use leaves that to the next;
      nulls go to the right of other keys; two or more tuples that a column leaves open are
      divided by the columns that follow. */
  ghost predicate GoesLeft(op: OpClass, ctx: Context, itup: seq<Tuple>, attno: nat, natts: nat, k: nat)
    requires attno < natts && 1 <= k <= |itup|
    decreases natts - attno
  {
    if attno + 1 < natts && Useless(op, ctx, itup, attno) then GoesLeft(op, ctx, itup, attno + 1, natts, k)
    else if AllNull(itup, attno) then k >= |itup| / 2
    else if !NoneNull(itup, attno) then !IsNull(itup[k - 1], attno)
    else if attno + 1 < natts && op.free(ctx, itup, attno, k) && |FreeTuples(op, ctx, itup, attno)| >= 2 then
      FreeRank(op, ctx, itup, attno, |itup|, k);
      GoesLeft(op, Decided(op, ctx, itup, attno), FreeTuples(op, ctx, itup, attno), attno + 1, natts,
               |Free(op, ctx, itup, attno, k)|)
    else AloneGoesLeft(op, ctx, itup, attno, natts, k)
  }

  ghost function Decided(op: OpClass, ctx: Context, itup: seq<Tuple>, attno: nat): Context {
    Sides(SideTuples(op, ctx, itup, attno, true), SideTuples(op, ctx, itup, attno, false))
  }

  /** Each position is on the side where it goes. */
  ghost predicate DividedBy(op: OpClass, ctx: Context, itup: seq<Tuple>, attno: nat, natts: nat, left: seq<nat>, right: seq<nat>)
    requires attno < natts
  {
    forall k | 1 <= k <= |itup| ::
      (k in left <==> GoesLeft(op, ctx, itup, attno, natts, k)) && (k in right <==> !GoesLeft(op, ctx, itup, attno, natts, k))
  }

  /** The same for one column alone. */
  ghost predicate DividedAlone(op: OpClass, ctx: Context, itup: seq<Tuple>, attno: nat, natts: nat, left: seq<nat>, right: seq<nat>) {
    forall k | 1 <= k <= |itup| ::
      && (k in left <==> AloneGoesLeft(op, ctx, itup, attno, natts, k))
      && (k in right <==> !AloneGoesLeft(op, ctx, itup, attno, natts, k))
  }

  /** The sides hold what the column settles. */
  ghost predicate OnlySettled(op: OpClass, ctx: Context, itup: seq<Tuple>, attno: nat, left: seq<nat>, right: seq<nat>) {
    left == SettledSide(op, ctx, itup, attno, true) && right == SettledSide(op, ctx, itup, attno, false)
  }

  /** A single column without nulls is divided as the operator class says. */
  lemma SingleColumnFollows(op: OpClass, itup: seq<Tuple>, left: seq<nat>, right: seq<nat>, k: nat)
    requires DividedBy(op, Nothing, itup, 0, 1, left, right) && NoneNull(itup, 0) && Divides(op, Nothing, itup, 0)
    requires 1 <= k <= |itup|
    ensures k in left <==> op.toLeft(Nothing, itup, 0, k)
    ensures k in right <==> !op.toLeft(Nothing, itup, 0, k)
  {
    assert !AllNull(itup, 0) by { assert !IsNull(itup[k - 1], 0); }
    assert GoesLeft(op, Nothing, itup, 0, 1, k) == ByColumn(op, Nothing, itup, 0, k);
  }

  /** What the first useful column settles stays on its side whatever the columns after it. */
  lemma SettledStays(op: OpClass, itup: seq<Tuple>, natts: nat, left: seq<nat>, right: seq<nat>, k: nat)
    requires natts > 0 && DividedBy(op, Nothing, itup, 0, natts, left, right) && NoneNull(itup, 0)
    requires !Degenerates(op, Nothing, itup, 0) && Divides(op, Nothing, itup, 0)
    requires 1 <= k <= |itup| && !op.free(Nothing, itup, 0, k)
    ensures k in left <==> op.toLeft(Nothing, itup, 0, k)
    ensures k in right <==> !op.toLeft(Nothing, itup, 0, k)
  {
    assert !AllNull(itup, 0) by { assert !IsNull(itup[k - 1], 0); }
    assert GoesLeft(op, Nothing, itup, 0, natts, k) == ByColumn(op, Nothing, itup, 0, k);
  }
}
