/** The array-based binary min-heap that orders candidate merges by penalty. */
module MinHeap {

  /** A candidate merge: box `boxid2` into its left neighbour `boxid1`. */
  datatype Elem = Elem(boxid1: nat, boxid2: nat, penalty: real)

  predicate IsChild(p: int, c: int) { c == 2 * p + 1 || c == 2 * p + 2 }

  /** No element weighs less than its parent. */
  ghost predicate Ordered(s: seq<Elem>) {
    forall p, c | 0 <= p < c < |s| && IsChild(p, c) :: s[p].penalty <= s[c].penalty
  }

  /** The parent of `i`, if any, weighs at most as much as the children of `i`. */
  ghost predicate Bridged(s: seq<Elem>, i: int) {
    forall p, c | 0 <= p < i < c < |s| && IsChild(p, i) && IsChild(i, c) :: s[p].penalty <= s[c].penalty
  }

  /** Heap order, except possibly between `i` and its children. */
  ghost predicate OrderedBelow(s: seq<Elem>, i: int) {
    && (forall p, c | 0 <= p < c < |s| && IsChild(p, c) && p != i :: s[p].penalty <= s[c].penalty)
    && Bridged(s, i)
  }

  /** Heap order, except possibly between `i` and its parent. */
  ghost predicate OrderedAbove(s: seq<Elem>, i: int) {
    && (forall p, c | 0 <= p < c < |s| && IsChild(p, c) && c != i :: s[p].penalty <= s[c].penalty)
    && Bridged(s, i)
  }

  function Swapped(s: seq<Elem>, i: nat, j: nat): (t: seq<Elem>)
    requires i < |s| && j < |s|
  {
    s[i := s[j]][j := s[i]]
  }

  lemma SwappedSame(s: seq<Elem>, i: nat, j: nat)
    requires i < |s| && j < |s|
    ensures multiset(Swapped(s, i, j)) == multiset(s)
  {
  }

  lemma {:induction false} RootIsLeast(s: seq<Elem>, k: nat)
    requires Ordered(s) && k < |s|
    ensures s[0].penalty <= s[k].penalty
  {
    if k > 0 {
      assert IsChild((k - 1) / 2, k);
      RootIsLeast(s, (k - 1) / 2);
    }
  }

  /** Exchanging `i` with its lighter child `m` moves the possible violation down to `m`. */
  lemma SiftDownStep(s: seq<Elem>, i: nat, m: nat)
    requires i < m < |s| && IsChild(i, m)
    requires OrderedBelow(s, i)
    requires s[m].penalty <= s[i].penalty
    requires forall c | i < c < |s| && IsChild(i, c) :: s[m].penalty <= s[c].penalty
    ensures OrderedBelow(Swapped(s, i, m), m)
  {
    var t := Swapped(s, i, m);
    forall p, c | 0 <= p < c < |t| && IsChild(p, c) && p != m ensures t[p].penalty <= t[c].penalty {
      if c == i { assert IsChild(p, i) && s[p].penalty <= s[m].penalty; }
    }
  }

  /** Exchanging `i` with its heavier parent `p` moves the possible violation up to `p`. */
  lemma SiftUpStep(s: seq<Elem>, p: nat, i: nat)
    requires p < i < |s| && IsChild(p, i)
    requires OrderedAbove(s, i)
    requires s[p].penalty >= s[i].penalty
    ensures OrderedAbove(Swapped(s, p, i), p)
  {
    var t := Swapped(s, p, i);
    forall q, c | 0 <= q < c < |t| && IsChild(q, c) && c != p ensures t[q].penalty <= t[c].penalty {
      if q == i { assert s[p].penalty <= s[c].penalty; }
    }
  }

  lemma RootLeastOfAll(s: seq<Elem>)
    requires Ordered(s) && |s| > 0
    ensures s[0] in multiset(s)
    ensures forall e | e in multiset(s) :: s[0].penalty <= e.penalty
  {
    forall e: Elem | e in multiset(s) ensures s[0].penalty <= e.penalty {
      assert e in s;
      var k :| 0 <= k < |s| && s[k] == e;
      RootIsLeast(s, k);
    }
  }

  /** The last element is put in the place of the root. */
  function DroppedRoot(s: seq<Elem>): seq<Elem>
    requires |s| > 0
  {
    Swapped(s, 0, |s| - 1)[..|s| - 1]
  }

  lemma DropRoot(s: seq<Elem>)
    requires Ordered(s) && |s| > 0
    ensures OrderedBelow(DroppedRoot(s), 0)
    ensures multiset(DroppedRoot(s)) == multiset(s) - multiset{s[0]}
  {
    var m := Swapped(s, 0, |s| - 1);
    SwappedSame(s, 0, |s| - 1);
    assert m == m[..|s| - 1] + [s[0]];
  }

  class Heap {
    var elems: array<Elem>
    var size: nat
    const maxSize: nat

    constructor (maxSize: nat)
      ensures this.maxSize == maxSize && Valid() && Contents() == []
      ensures fresh(elems)
    {
      this.maxSize := maxSize;
      elems := new Elem[maxSize](_ => Elem(0, 0, 0.0));
      size := 0;
    }

    ghost predicate Shape()
      reads this
    {
      size <= maxSize == elems.Length
    }

    ghost function Contents(): seq<Elem>
      reads this, elems
      requires Shape()
    {
      elems[..size]
    }

    ghost predicate Valid()
      reads this, elems
    {
      Shape() && Ordered(Contents())
    }

    method Swap(i: nat, j: nat)
      requires Shape() && i < size && j < size
      modifies elems
      ensures Contents() == Swapped(old(Contents()), i, j)
      ensures multiset(Contents()) == old(multiset(Contents()))
    {
      SwappedSame(Contents(), i, j);
      elems[i], elems[j] := elems[j], elems[i];
      assert Contents() == Swapped(old(Contents()), i, j);
    }

    /** The lightest of `i` and its children, `i` itself if none is lighter. */
    method Smallest(i: nat) returns (smallest: nat)
      requires Shape() && i < size
      ensures smallest < size && (smallest == i || IsChild(i, smallest))
      ensures elems[smallest].penalty <= elems[i].penalty
      ensures forall c | i < c < size && IsChild(i, c) :: elems[smallest].penalty <= elems[c].penalty
    {
      smallest := i;
      var l, r := 2 * i + 1, 2 * i + 2;
      if l < size && elems[l].penalty < elems[smallest].penalty {
        smallest := l;
      }
      if r < size && elems[r].penalty < elems[smallest].penalty {
        smallest := r;
      }
    }

    method HeapifyDown(i: nat)
      requires Shape() && (size > 0 ==> i < size)
      requires OrderedBelow(Contents(), i)
      modifies elems
      ensures Valid()
      ensures multiset(Contents()) == old(multiset(Contents()))
      decreases size - i
    {
      if size > 1 {
        var smallest := Smallest(i);
        if smallest != i {
          SiftDownStep(Contents(), i, smallest);
          Swap(i, smallest);
          HeapifyDown(smallest);
        }
      }
    }

    method HeapifyUp(i: nat)
      requires Shape() && i < size
      requires OrderedAbove(Contents(), i)
      modifies elems
      ensures Valid()
      ensures multiset(Contents()) == old(multiset(Contents()))
      decreases i
    {
      // C truncates (0 - 1) / 2 to 0; the guard makes the value irrelevant there
      var parent := if i == 0 then 0 else (i - 1) / 2;
      if i > 0 && elems[parent].penalty > elems[i].penalty {
        SiftUpStep(Contents(), parent, i);
        Swap(parent, i);
        HeapifyUp(parent);
      }
    }

    /** Inserts unless the heap is full, in which case nothing changes. */
    method Insert(elem: Elem)
      requires Valid()
      modifies this`size, elems
      ensures Valid()
      ensures old(size) < maxSize ==> multiset(Contents()) == old(multiset(Contents())) + multiset{elem}
      ensures old(size) < maxSize ==> size == old(size) + 1
      ensures old(size) == maxSize ==> Contents() == old(Contents())
    {
      if size == maxSize {
        return;
      }
      elems[size] := elem;
      size := size + 1;
      assert Contents() == old(Contents()) + [elem];
      HeapifyUp(size - 1);
    }

    method RemoveRoot()
      requires Shape() && size > 0
      modifies this`size, elems
      ensures Shape() && size == old(size) - 1 && Contents() == DroppedRoot(old(Contents()))
    {
      Swap(0, size - 1);
      DropLast();
    }

    method DropLast()
      requires Shape() && size > 0
      modifies this`size
      ensures Shape() && size == old(size) - 1 && Contents() == old(Contents())[..size]
    {
      size := size - 1;
    }

    /** Removes a least element; fails exactly on the empty heap. */
    method DeleteMin() returns (ok: bool, least: Elem)
      requires Valid()
      modifies this`size, elems
      ensures Valid()
      ensures ok <==> old(size) > 0
      ensures ok ==> least in old(multiset(Contents()))
      ensures ok ==> forall e | e in old(multiset(Contents())) :: least.penalty <= e.penalty
      ensures ok ==> multiset(Contents()) == old(multiset(Contents())) - multiset{least}
      ensures ok ==> size == old(size) - 1
      ensures !ok ==> Contents() == old(Contents())
    {
      if size == 0 {
        return false, Elem(0, 0, 0.0);
      }
      least := elems[0];
      RootLeastOfAll(Contents());
      DropRoot(Contents());
      RemoveRoot();
      HeapifyDown(0);
      ok := true;
    }
  }
}
