/** Choosing the downlink to insert under: the one with the least penalties, the first
    column counting most. */
module PenaltyChoice {

  /** A penalty; infinite when a null would be mixed with other keys. */
  datatype Penalty = Finite(v: real) | Infinite

  predicate PenaltyOk(p: Penalty) { p.Finite? ==> p.v >= 0.0 }

  predicate Below(a: Penalty, b: Penalty) { a.Finite? && (b.Infinite? || a.v < b.v) }

  /** Lexicographic order of penalty vectors. */
  ghost predicate NoWorse(a: seq<Penalty>, b: seq<Penalty>)
    requires |a| == |b|
  {
    a == [] || Below(a[0], b[0]) || (a[0] == b[0] && NoWorse(a[1..], b[1..]))
  }

  lemma {:induction false} NoWorseThan(a: seq<Penalty>, b: seq<Penalty>, c: seq<Penalty>)
    requires |a| == |b| == |c| && NoWorse(a, b) && NoWorse(b, c)
    ensures NoWorse(a, c)
  {
    if a != [] && a[0] == b[0] == c[0] { NoWorseThan(a[1..], b[1..], c[1..]); }
  }

  lemma {:induction false} NoWorseSelf(a: seq<Penalty>)
    ensures NoWorse(a, a)
  {
    if a != [] { NoWorseSelf(a[1..]); }
  }

  /** The first column where two vectors differ decides. */
  lemma {:induction false} FirstDifference(a: seq<Penalty>, b: seq<Penalty>, j: nat)
    requires |a| == |b| && j < |a| && a[..j] == b[..j] && Below(a[j], b[j])
    ensures NoWorse(a, b) && !NoWorse(b, a)
    decreases j
  {
    if j > 0 {
      assert a[..j][0] == a[0] && b[..j][0] == b[0];
      assert a[1..][..j - 1] == a[..j][1..] && b[1..][..j - 1] == b[..j][1..];
      FirstDifference(a[1..], b[1..], j - 1);
    }
  }

  const ZERO: Penalty := Finite(0.0)

  lemma {:induction false} ZeroIsLeast(a: seq<Penalty>, b: seq<Penalty>)
    requires |a| == |b| && (forall k | 0 <= k < |a| :: a[k] == ZERO) && forall k | 0 <= k < |b| :: PenaltyOk(b[k])
    ensures NoWorse(a, b)
  {
    if a != [] { ZeroIsLeast(a[1..], b[1..]); }
  }

  /** The best penalty seen in a column, or none yet. Columns to the right of the first
      unknown one mean nothing. */
  datatype Best = Unknown | Known(p: Penalty)

  /** The first `j` columns hold the penalties of a vector. */
  ghost predicate Holds(best: seq<Best>, v: seq<Penalty>, j: nat) {
    j <= |best| == |v| && forall k | 0 <= k < j :: best[k] == Known(v[k])
  }

  ghost predicate Least(rows: seq<seq<Penalty>>, n: nat, result: nat, i: nat)
    requires i <= |rows| && forall k | 0 <= k < |rows| :: |rows[k]| == n
  {
    result < i && forall k | 0 <= k < i :: NoWorse(rows[result], rows[k])
  }

  predicate RowsOk(rows: seq<seq<Penalty>>, n: nat) {
    forall k | 0 <= k < |rows| :: |rows[k]| == n && forall j | 0 <= j < n :: PenaltyOk(rows[k][j])
  }

  /** How a row compares with the best so far: worse, equal, or better and adopted. */
  datatype Outcome = Worse | Equal | Adopted

  /** While the columns of a row are compared: nothing adopted yet and all equal so far, or
      adopted with the next column unknown. */
  ghost predicate Comparing(best: seq<Best>, was: seq<Best>, row: seq<Penalty>, j: nat, adopted: bool) {
    && j <= |best| == |row| == |was|
    && if adopted then Holds(best, row, j) && (j < |best| ==> best[j] == Unknown)
       else best == was && Holds(was, row, j)
  }

  /** Compares a row with the best penalties column by column, and adopts it where it is
      better. */
  method CompareRow(row: seq<Penalty>, best: array<Best>, ghost known: seq<Penalty>, first: bool) returns (outcome: Outcome, zero: bool)
    requires |row| == best.Length == |known| > 0 && forall j | 0 <= j < |row| :: PenaltyOk(row[j])
    requires if first then best[0] == Unknown else Holds(best[..], known, |known|)
    modifies best
    ensures first ==> outcome == Adopted
    ensures outcome == Adopted ==> Holds(best[..], row, |row|) && (first || (NoWorse(row, known) && !NoWorse(known, row)))
    ensures outcome == Equal ==> row == known && best[..] == old(best[..])
    ensures outcome == Worse ==> NoWorse(known, row) && best[..] == old(best[..]) && !zero
    ensures outcome != Worse ==> (zero <==> forall j | 0 <= j < |row| :: row[j] == ZERO)
  {
    zero := true;
    var adopted := false;
    var j := 0;
    while j < |row|
      invariant 0 <= j <= |row| && Comparing(best[..], old(best[..]), row, j, adopted)
      invariant adopted && !first ==> NoWorse(row, known) && !NoWorse(known, row)
      invariant first && j > 0 ==> adopted
      invariant zero <==> forall k | 0 <= k < j :: row[k] == ZERO
    {
      var usize := row[j];
      if usize != ZERO {
        zero := false;
      }
      if best[j].Unknown? || Below(usize, best[j].p) {
        if !adopted && !first { FirstBetter(old(best[..]), row, known, j); }
        Adopt(best, j, usize);
        adopted := true;
      } else if best[j].p != usize {
        FirstWorse(old(best[..]), row, known, j);
        return Worse, false;
      }
      j := j + 1;
    }
    if !adopted && !first { AllEqual(old(best[..]), row, known); }
    outcome := if adopted then Adopted else Equal;
  }

  /** Records a column's penalty and forgets the next column's. */
  method Adopt(best: array<Best>, j: nat, p: Penalty)
    requires j < best.Length
    modifies best
    ensures best[..j] == old(best[..j]) && best[j] == Known(p) && (j + 1 < best.Length ==> best[j + 1] == Unknown)
  {
    best[j] := Known(p);
    if j < best.Length - 1 {
      best[j + 1] := Unknown;
    }
  }

  lemma SameStart(best: seq<Best>, row: seq<Penalty>, known: seq<Penalty>, j: nat)
    requires |row| == |known| && j <= |row| && Holds(best, known, |known|) && Holds(best, row, j)
    ensures row[..j] == known[..j]
  {
    forall k | 0 <= k < j ensures row[k] == known[k] {
      assert best[k] == Known(row[k]) && best[k] == Known(known[k]);
    }
  }

  lemma FirstBetter(best: seq<Best>, row: seq<Penalty>, known: seq<Penalty>, j: nat)
    requires |row| == |known| && j < |row| && Holds(best, known, |known|) && Holds(best, row, j) && Below(row[j], best[j].p)
    ensures NoWorse(row, known) && !NoWorse(known, row)
  {
    SameStart(best, row, known, j);
    FirstDifference(row, known, j);
  }

  lemma FirstWorse(best: seq<Best>, row: seq<Penalty>, known: seq<Penalty>, j: nat)
    requires |row| == |known| && j < |row| && Holds(best, known, |known|) && Holds(best, row, j)
    requires !Below(row[j], best[j].p) && best[j].p != row[j]
    ensures NoWorse(known, row) && !NoWorse(row, known)
  {
    SameStart(best, row, known, j);
    FirstDifference(known, row, j);
  }

  lemma AllEqual(best: seq<Best>, row: seq<Penalty>, known: seq<Penalty>)
    requires |row| == |known| && Holds(best, known, |known|) && Holds(best, row, |row|)
    ensures row == known
  {
    SameStart(best, row, known, |row|);
    assert row[..|row|] == row && known[..|row|] == known;
  }

  lemma LeastStep(rows: seq<seq<Penalty>>, n: nat, result: nat, i: nat, outcome: Outcome)
    requires RowsOk(rows, n) && i < |rows| && (i > 0 ==> Least(rows, n, result, i))
    requires i == 0 ==> outcome == Adopted
    requires i > 0 && outcome == Adopted ==> NoWorse(rows[i], rows[result])
    requires i > 0 && outcome != Adopted ==> NoWorse(rows[result], rows[i])
    ensures Least(rows, n, if outcome == Adopted then i else result, i + 1)
  {
    NoWorseSelf(rows[i]);
    if i > 0 && outcome == Adopted {
      forall k | 0 <= k < i ensures NoWorse(rows[i], rows[k]) { NoWorseThan(rows[i], rows[result], rows[k]); }
    }
  }

  /** An equally good row is as good a choice. */
  lemma LeastOfEqual(rows: seq<seq<Penalty>>, n: nat, a: nat, b: nat, i: nat)
    requires RowsOk(rows, n) && i <= |rows| && Least(rows, n, a, i) && b < i && rows[b] == rows[a]
    ensures Least(rows, n, b, i)
  {
  }

  lemma ZeroRowIsLeast(rows: seq<seq<Penalty>>, n: nat, result: nat)
    requires RowsOk(rows, n) && result < |rows| && forall j | 0 <= j < n :: rows[result][j] == ZERO
    ensures Least(rows, n, result, |rows|)
  {
    forall k | 0 <= k < |rows| ensures NoWorse(rows[result], rows[k]) { ZeroIsLeast(rows[result], rows[k]); }
  }

  /** Whether to keep the old best among equally good rows is decided once by chance and
      then kept to. */
  datatype KeepBest = Undecided | Keep | Replace

  method Decide(keep: KeepBest) returns (decided: KeepBest)
    ensures keep != Undecided ==> decided == keep
    ensures decided != Undecided
  {
    decided := keep;
    if keep == Undecided {
      if * {
        decided := Keep;
      } else {
        decided := Replace;
      }
    }
  }

  /** Whatever the random choices, the row chosen has the least penalties of all. */
  method Choose(rows: seq<seq<Penalty>>, n: nat) returns (result: nat)
    requires rows != [] && n > 0 && RowsOk(rows, n)
    ensures Least(rows, n, result, |rows|)
  {
    result := 0;
    var best := new Best[n](_ => Unknown);
    var keep := Undecided;
    var i := 0;
    while i < |rows|
      invariant 0 <= i <= |rows| && (if i == 0 then result == 0 && best[0] == Unknown else Least(rows, n, result, i))
      invariant i > 0 ==> Holds(best[..], rows[result], n)
    {
      var outcome, zero := CompareRow(rows[i], best, rows[result], i == 0);
      if outcome == Equal { NoWorseSelf(rows[i]); }
      LeastStep(rows, n, result, i, outcome);
      if outcome == Adopted {
        result, keep := i, Undecided;
      } else if outcome == Equal {
        keep := Decide(keep);
        if keep == Replace {
          LeastOfEqual(rows, n, result, i, i + 1);
          result, keep := i, Undecided;
        }
      }
      if zero {
        keep := Decide(keep);
        if keep == Keep {
          ZeroRowIsLeast(rows, n, result);
          return;
        }
      }
      i := i + 1;
    }
  }
}
