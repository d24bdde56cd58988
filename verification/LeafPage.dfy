/** SP-GiST leaf pages: tuples at stable offsets, and the page operations that
    delete, replace and add tuples without moving the others. */
module LeafPage {
  import opened Lists

  datatype Tid = Tid(block: nat, offset: nat)

  /** `next` is the offset of the next tuple of the chain on the same page, or 0. */
  datatype Tuple<Datum> =
    | Live(heapPtr: Tid, datum: Datum, next: nat)
    | Redirect(target: Tid, xid: nat)
    | Dead
    | Placeholder

  /** Offsets start at 1. */
  type Items<Datum> = seq<Tuple<Datum>>

  predicate InPage<D>(p: Items<D>, o: nat) { 1 <= o <= |p| }

  function At<D>(p: Items<D>, o: nat): Tuple<D>
    requires InPage(p, o)
  {
    p[o - 1]
  }

  function Put<D>(p: Items<D>, o: nat, t: Tuple<D>): Items<D>
    requires InPage(p, o)
  {
    p[o - 1 := t]
  }

  // ---- the page primitives: deleting shifts the later offsets down, inserting shifts them up ----

  function Delete<D>(p: Items<D>, o: nat): Items<D>
    requires InPage(p, o)
  {
    p[..o - 1] + p[o..]
  }

  function Insert<D>(p: Items<D>, o: nat, t: Tuple<D>): Items<D>
    requires 1 <= o <= |p| + 1
  {
    p[..o - 1] + [t] + p[o - 1..]
  }

  /** Offsets from 1 to `n`, strictly increasing. */
  predicate Ascending(nos: seq<nat>, n: nat) {
    && (forall k | 0 <= k < |nos| :: 1 <= nos[k] <= n)
    && forall j, k | 0 <= j < k < |nos| :: nos[j] < nos[k]
  }

  lemma AscendingRest(nos: seq<nat>, n: nat)
    requires Ascending(nos, n) && nos != []
    ensures Ascending(nos[..|nos| - 1], nos[|nos| - 1] - 1)
    ensures nos == nos[..|nos| - 1] + [nos[|nos| - 1]]
  {
  }

  /** All listed tuples are deleted at once. */
  function MultiDelete<D>(p: Items<D>, nos: seq<nat>): (r: Items<D>)
    requires Ascending(nos, |p|)
    ensures |r| == |p| - |nos|
    decreases |nos|
  {
    if nos == [] then p else
      var last := nos[|nos| - 1];
      MultiDelete(Delete(p, last), nos[..|nos| - 1])
  }

  /** One tuple after the other is put in at its listed offset. */
  function MultiInsert<D>(p: Items<D>, nos: seq<nat>, t: nat -> Tuple<D>): (r: Items<D>)
    requires Ascending(nos, |p| + |nos|)
    ensures |r| == |p| + |nos|
    decreases |nos|
  {
    if nos == [] then p else
      var last := nos[|nos| - 1];
      SpaceAbove(nos, |p| + |nos|, 0);
      RestFits(nos, |p| + |nos|);
      Insert(MultiInsert(p, nos[..|nos| - 1], t), last, t(last))
  }

  lemma {:induction false} SpaceAbove(nos: seq<nat>, n: nat, k: nat)
    requires Ascending(nos, n) && k < |nos|
    ensures nos[k] <= n - (|nos| - 1 - k)
    decreases |nos| - k
  {
    if k + 1 < |nos| {
      SpaceAbove(nos, n, k + 1);
      assert nos[k] < nos[k + 1];
    }
  }

  lemma RestFits(nos: seq<nat>, n: nat)
    requires Ascending(nos, n) && nos != [] && n > 0
    ensures Ascending(nos[..|nos| - 1], n - 1)
  {
    var rest := nos[..|nos| - 1];
    forall k | 0 <= k < |rest| ensures rest[k] <= n - 1 {
      assert nos[k] < nos[|nos| - 1];
    }
  }

  /** The page with the listed tuples replaced where they are. */
  function Replaced<D>(p: Items<D>, nos: seq<nat>, t: nat -> Tuple<D>): (r: Items<D>)
    ensures |r| == |p|
    ensures forall i | 0 <= i < |p| :: r[i] == if i + 1 in nos then t(i + 1) else p[i]
  {
    seq(|p|, i requires 0 <= i < |p| => if i + 1 in nos then t(i + 1) else p[i])
  }

  /** Deleting all listed tuples and putting replacements in, lowest offset first,
      moves no other tuple. */
  lemma {:induction false} DeleteThenInsert<D>(p: Items<D>, nos: seq<nat>, t: nat -> Tuple<D>)
    requires Ascending(nos, |p|)
    ensures MultiInsert(MultiDelete(p, nos), nos, t) == Replaced(p, nos, t)
    decreases |nos|
  {
    if nos != [] {
      var last, rest := nos[|nos| - 1], nos[..|nos| - 1];
      AscendingRest(nos, |p|);
      DeleteThenInsert(Delete(p, last), rest, t);
      ReplaceLast(p, rest, last, t);
    }
  }

  lemma ReplaceLast<D>(p: Items<D>, rest: seq<nat>, last: nat, t: nat -> Tuple<D>)
    requires InPage(p, last) && Ascending(rest, last - 1)
    ensures Insert(Replaced(Delete(p, last), rest, t), last, t(last)) == Replaced(p, rest + [last], t)
  {
    var q, r := Replaced(Delete(p, last), rest, t), Replaced(p, rest + [last], t);
    var s := Insert(q, last, t(last));
    forall i | 0 <= i < |p| ensures s[i] == r[i] {
      assert i + 1 in rest + [last] <==> i + 1 in rest || i + 1 == last;
      assert i + 1 > last ==> i + 1 !in rest && i !in rest;
    }
  }

  /** The offsets of a list in increasing order. */
  function Sorted(nos: seq<nat>, n: nat): (r: seq<nat>)
    ensures Ascending(r, n) && forall o :: o in r <==> o in nos && 1 <= o <= n
  {
    if n == 0 then [] else Sorted(nos, n - 1) + if n in nos then [n] else []
  }

  lemma SortedLength(nos: seq<nat>, n: nat)
    requires NoDup(nos) && forall o | o in nos :: 1 <= o <= n
    ensures |Sorted(nos, n)| == |nos|
  {
    NoDupCount(nos);
    NoDupCount(Sorted(nos, n));
    assert Members(Sorted(nos, n)) == Members(nos);
  }
}
