/** The insertion loop of the radix tree, from the root to a leaf. */
module TextDescend {
  import opened TextStrings
  import opened TextTree
  import opened TextSplit
  import opened TextInsert

  // ---- chains with one more tuple ----

  lemma {:induction false} FiledJoin(a: seq<Item>, b: seq<Item>, acc: Str)
    ensures Filed(a + b, acc) == Filed(a, acc) + Filed(b, acc)
    decreases |b|
  {
    if b == [] {
      assert a + b == a;
    } else {
      assert (a + b)[..|a + b| - 1] == a + b[..|b| - 1];
      FiledJoin(a, b[..|b| - 1], acc);
    }
  }

  lemma {:induction false} ChainSizeJoin(a: seq<Item>, b: seq<Item>, ps: Params)
    ensures ChainSize(a + b, ps) == ChainSize(a, ps) + ChainSize(b, ps)
    decreases |b|
  {
    if b == [] {
      assert a + b == a;
    } else {
      assert (a + b)[..|a + b| - 1] == a + b[..|b| - 1];
      ChainSizeJoin(a, b[..|b| - 1], ps);
    }
  }

  lemma InsertedFiled(a: seq<Item>, x: Item, b: seq<Item>, acc: Str)
    ensures Filed(a + ([x] + b), acc) == Filed(a + b, acc) + multiset{(acc + x.rest, x.tid)}
  {
    FiledFront(x, b, acc);
    FiledJoin(a, b, acc);
    FiledJoin(a, [x] + b, acc);
  }

  lemma InsertedSize(a: seq<Item>, x: Item, b: seq<Item>, ps: Params)
    ensures ChainSize(a + ([x] + b), ps) == ChainSize(a + b, ps) + ps.leafSize(|x.rest|)
  {
    ChainSizeFront(x, b, ps);
    ChainSizeJoin(a, b, ps);
    ChainSizeJoin(a, [x] + b, ps);
  }

  lemma InsertedItem(items: seq<Item>, k: nat, x: Item, ps: Params, acc: Str)
    requires k <= |items|
    ensures Filed(items[..k] + [x] + items[k..], acc) == Filed(items, acc) + multiset{(acc + x.rest, x.tid)}
    ensures ChainSize(items[..k] + [x] + items[k..], ps) == ChainSize(items, ps) + ps.leafSize(|x.rest|)
  {
    var a, b := items[..k], items[k..];
    assert items == a + b;
    assert a + [x] + b == a + ([x] + b);
    InsertedFiled(a, x, b, acc);
    InsertedSize(a, x, b, ps);
  }

  /** The tuple stands at place `k` between the old ones, which keep their order. */
  ghost predicate Added(items: seq<Item>, x: Item, k: nat, items': seq<Item>) {
    && k <= |items| && |items'| == |items| + 1 && items'[k] == x
    && forall j | 0 <= j < |items| :: items'[if j < k then j else j + 1] == items[j]
  }

  /** The new tuple becomes the second of its chain; on the root page, and under an empty
      downlink, it is simply added. */
  method AddLeafTuple(items: seq<Item>, x: Item, isRoot: bool, ps: Params, ghost acc: Str) returns (items': seq<Item>)
    ensures Filed(items', acc) == Filed(items, acc) + multiset{(acc + x.rest, x.tid)}
    ensures ChainSize(items', ps) == ChainSize(items, ps) + ps.leafSize(|x.rest|)
    ensures !isRoot && items != [] ==> items'[0] == items[0]
    ensures Added(items, x, if isRoot || items == [] then |items| else 1, items')
  {
    if items == [] || isRoot {
      items' := items + [x];
      InsertedItem(items, |items|, x, ps, acc);
      assert items[..|items|] + [x] + items[|items|..] == items + [x];
    } else {
      items' := items[..1] + [x] + items[1..];
      InsertedItem(items, 1, x, ps, acc);
    }
  }

  lemma MovedItem(items: seq<Item>, i: nat, moved: seq<Item>, ps: Params, acc: Str)
    requires i < |items| && Filed(moved, acc) == Filed(items[..i], acc) && ChainSize(moved, ps) == ChainSize(items[..i], ps)
    ensures Filed([items[i]] + moved, acc) == Filed(items[..i + 1], acc)
    ensures ChainSize([items[i]] + moved, ps) == ChainSize(items[..i + 1], ps)
  {
    FiledFront(items[i], moved, acc);
    ChainSizeFront(items[i], moved, ps);
    TakenOneMore(items, i, ps, acc);
  }

  lemma TakenOneMore(items: seq<Item>, i: nat, ps: Params, acc: Str)
    requires i < |items|
    ensures Filed(items[..i + 1], acc) == Filed(items[..i], acc) + multiset{(acc + items[i].rest, items[i].tid)}
    ensures ChainSize(items[..i + 1], ps) == ChainSize(items[..i], ps) + ps.leafSize(|items[i].rest|)
  {
    assert items[..i + 1][..i] == items[..i] && items[..i + 1][i] == items[i];
  }

  /** The first `n` tuples in reverse order. */
  ghost predicate Backwards(items: seq<Item>, n: nat, items': seq<Item>) {
    n <= |items| && |items'| == n && forall k | 0 <= k < n :: items'[k] == items[n - 1 - k]
  }

  /** The new tuple in front of the old ones in reverse order. */
  ghost predicate Moved(items: seq<Item>, x: Item, items': seq<Item>) {
    items' != [] && items'[0] == x && Backwards(items, |items|, items'[1..])
  }

  /** The chain is copied to another page, which reverses it, and the new tuple goes in
      front. */
  method MoveLeafs(items: seq<Item>, x: Item, ps: Params, ghost acc: Str) returns (items': seq<Item>)
    ensures Filed(items', acc) == Filed(items, acc) + multiset{(acc + x.rest, x.tid)}
    ensures ChainSize(items', ps) == ChainSize(items, ps) + ps.leafSize(|x.rest|)
    ensures Moved(items, x, items')
  {
    items' := CopyBackwards(items, ps, acc);
    FiledFront(x, items', acc);
    ChainSizeFront(x, items', ps);
    assert ([x] + items')[1..] == items';
    items' := [x] + items';
  }

  method CopyBackwards(items: seq<Item>, ghost ps: Params, ghost acc: Str) returns (items': seq<Item>)
    ensures Backwards(items, |items|, items')
    ensures Filed(items', acc) == Filed(items, acc) && ChainSize(items', ps) == ChainSize(items, ps)
  {
    items' := [];
    var i: nat := 0;
    while i < |items|
      invariant i <= |items| && Backwards(items, i, items')
    {
      BackwardsNext(items, i, items');
      items' := [items[i]] + items';
      i := i + 1;
    }
    BackwardsSame(items, i, items', ps, acc);
    assert items[..i] == items;
  }

  lemma BackwardsNext(items: seq<Item>, i: nat, items': seq<Item>)
    requires i < |items| && Backwards(items, i, items')
    ensures Backwards(items, i + 1, [items[i]] + items')
  {
  }

  lemma {:induction false} BackwardsSame(items: seq<Item>, i: nat, items': seq<Item>, ps: Params, acc: Str)
    requires Backwards(items, i, items')
    ensures Filed(items', acc) == Filed(items[..i], acc) && ChainSize(items', ps) == ChainSize(items[..i], ps)
    decreases i
  {
    if i > 0 {
      var rest := items'[1..];
      forall k | 0 <= k < i - 1 ensures rest[k] == items[i - 2 - k] { assert items'[k + 1] == items[i - 1 - (k + 1)]; }
      BackwardsSame(items, i - 1, rest, ps, acc);
      MovedItem(items, i - 1, rest, ps, acc);
      assert items' == [items[i - 1]] + rest;
    }
  }

  /** The size a small chain must not reach to be moved whole; a leaf root never is. */
  method CheckSplitConditions(items: seq<Item>, isRoot: bool, ps: Params) returns (size: nat, n: nat)
    ensures isRoot ==> size > ps.capacity
    ensures !isRoot ==> size == ChainSize(items, ps) && n == |items|
  {
    if isRoot {
      return ps.capacity + 1, ps.capacity + 1;
    }
    size, n := 0, 0;
    var i := 0;
    while i < |items|
      invariant 0 <= i <= |items| && size == ChainSize(items[..i], ps) && n == i
    {
      assert items[..i + 1][..i] == items[..i];
      size, n := size + ps.leafSize(|items[i].rest|), n + 1;
      i := i + 1;
    }
    assert items[..i] == items;
  }

  /** A chain with little data moves to another page as it is instead of being split. */
  predicate MovesWhole(items: seq<Item>, x: Item, isRoot: bool, ps: Params) {
    && !isRoot && ChainSize(items, ps) < ps.capacity / 2 && |items| < 64
    && ps.leafSize(|x.rest|) + ChainSize(items, ps) <= ps.capacity
  }

  /** A full page can hold no more than its capacity; what is free beside the chain is not
      known. */
  method InsertIntoLeaf(items: seq<Item>, x: Item, isRoot: bool, ps: Params, maxPrefix: nat, getPage: nat -> nat,
                        ghost acc: Str)
    returns (t: Tree, inserted: bool, ghost free: nat)
    requires ParamsOk(ps) && PagesOk(getPage, ps) && Valid(Leaf(items), ps)
    ensures Valid(t, ps) && free <= ps.capacity
    ensures ps.leafSize(|x.rest|) <= free ==> t.Leaf? && Added(items, x, if isRoot || items == [] then |items| else 1, t.items)
    ensures ps.leafSize(|x.rest|) > free ==>
              if MovesWhole(items, x, isRoot, ps) then t.Leaf? && Moved(items, x, t.items) else t.Inner?
    ensures Stored(t, acc) == Filed(items, acc) + if inserted then multiset{(acc + x.rest, x.tid)} else multiset{}
    ensures !inserted ==> t.Inner? && SplitLeftOver(t, items, x.rest)
  {
    var size := ps.leafSize(|x.rest|);
    var f: nat :| 0 <= f <= ps.capacity - ChainSize(items, ps);
    free := f;
    if size <= f {
      var items' := AddLeafTuple(items, x, isRoot, ps, acc);
      return Leaf(items'), true, free;
    }
    var sizeToSplit, nToSplit := CheckSplitConditions(items, isRoot, ps);
    if sizeToSplit < ps.capacity / 2 && nToSplit < 64 && size + sizeToSplit <= ps.capacity {
      var items' := MoveLeafs(items, x, ps, acc);
      return Leaf(items'), true, free;
    }
    var currentFree: nat :| 0 <= currentFree <= if isRoot then 0 else ps.capacity;
    var sel, newFree;
    t, inserted, sel, newFree := DoPickSplit(items, x, ps, maxPrefix, currentFree, getPage, acc);
  }

  // ---- the descent ----

  /** The descent has reached `cur`, with `level` bytes of `s` spelled on the way. */
  ghost predicate Here(path: seq<Frame>, cur: Tree, level: nat, s: Str, root: Tree, ps: Params) {
    && PathOk(path, ps) && Valid(cur, ps) && level <= |s| && Spelled(path) == s[..level]
    && Stored(Plug(path, cur), []) == Stored(root, [])
  }

  lemma StepDown(path: seq<Frame>, cur: Tree, u: Tree, i: nat, level: nat, s: Str, root: Tree, ps: Params)
    requires Here(path, cur, level, s, root, ps)
    requires u.Inner? && Valid(u, ps) && Stored(u, Spelled(path)) == Stored(cur, Spelled(path)) && i < |u.children|
    requires u.prefix <= s[level..] && u.labels[i] == NextLabel(s[level..], |u.prefix|)
    ensures var add := |u.prefix| + |LabelBytes(u.labels[i])|;
      level + add <= |s| && Here(path + [Frame(u, i)], u.children[i], level + add, s, root, ps)
  {
    PlugStored(path, cur, u, multiset{}, ps);
    OneFrameMore(path, u, i, ps);
    SpelledStep(u, i, level, s);
  }

  /** The path with the next node on it leads to the same tree. */
  lemma OneFrameMore(path: seq<Frame>, u: Tree, i: nat, ps: Params)
    requires PathOk(path, ps) && u.Inner? && Valid(u, ps) && i < |u.children|
    ensures var path' := path + [Frame(u, i)];
      PathOk(path', ps) && Spelled(path') == Spelled(path) + u.prefix + NodeBytes(u, i) && Plug(path', u.children[i]) == Plug(path, u)
  {
    var path' := path + [Frame(u, i)];
    assert path'[..|path|] == path && path'[|path|] == Frame(u, i);
    assert WithChild(u, i, u.children[i]) == u;
  }

  lemma SpelledStep(u: Tree, i: nat, level: nat, s: Str)
    requires u.Inner? && i < |u.labels| && level <= |s| && IsLabel(u.labels[i])
    requires u.prefix <= s[level..] && u.labels[i] == NextLabel(s[level..], |u.prefix|)
    ensures var add := |u.prefix| + |LabelBytes(u.labels[i])|;
      level + add <= |s| && s[..level] + u.prefix + NodeBytes(u, i) == s[..level + add]
  {
    var r := s[level..];
    assert r[..|u.prefix|] == u.prefix;
    if |u.prefix| < |r| {
      assert r[|u.prefix|] == s[level + |u.prefix|];
    }
  }

  /** What makes each turn of the loop smaller. */
  ghost predicate Nearer(next: Tree, rest': Str, cur: Tree, rest: Str) {
    || CountItems(next) < CountItems(cur)
    || (CountItems(next) == CountItems(cur) && (|rest'| < |rest| || (|rest'| == |rest| && Depth(next) < Depth(cur))))
  }

  lemma ChildIsNearer(t: Tree, i: nat, rest': Str, rest: Str)
    requires t.Inner? && i < |t.children| && |rest'| <= |rest|
    ensures Nearer(t.children[i], rest', t, rest)
  {
    ChildMeasures(t, |t.children|, i);
  }

  lemma LeftOverIsNearer(t: Tree, u: Tree, i: nat, items: seq<Item>, rest': Str, rest: Str)
    requires t.Inner? && |t.children| == |t.labels| && SplitLeftOver(t, items, rest) && u.Inner? && i < |u.children| == |u.labels|
    requires u == t || (u.children[i] == Leaf([]) && Phase(t, rest) > 0)
    requires u == t ==> t.labels[i] == NextLabel(rest, |t.prefix|)
    requires |rest'| <= |rest| && (u == t && t.labels[i] > 0 ==> |rest'| < |rest|)
    ensures Nearer(u.children[i], rest', Leaf(items), rest)
  {
    if u == t {
      assert LeftOverAt(t, items, rest, i);
    } else {
      assert items != [];
    }
  }

  /** One turn: into the leaf if possible, else down one node. */
  method Step(path: seq<Frame>, cur: Tree, datum: Str, rest: Str, level: nat, tid: nat, ps: Params, maxPrefix: nat,
              getPage: nat -> nat, ghost root: Tree)
    returns (done: bool, path': seq<Frame>, next: Tree, level': nat, rest': Str)
    requires ParamsOk(ps) && PagesOk(getPage, ps)
    requires Here(path, cur, level, datum, root, ps) && rest == datum[level..]
    ensures done ==> path' == path && Valid(Plug(path, next), ps)
                     && Stored(Plug(path, next), []) == Stored(root, []) + multiset{(datum, tid)}
    ensures !done ==> Here(path', next, level', datum, root, ps) && rest' == datum[level'..] && Nearer(next, rest', cur, rest)
    ensures !done ==> |rest'| == 0 || |rest'| < |rest|
  {
    path', next, level', rest', done := path, cur, level, rest, false;
    var t := cur;
    if cur.Leaf? {
      ghost var free;
      t, done, free := InsertIntoLeaf(cur.items, Item(rest, tid), path == [], ps, maxPrefix, getPage, Spelled(path));
      if done {
        next := t;
        assert datum[..level] + rest == datum;
        PlugStored(path, cur, t, multiset{(datum, tid)}, ps);
        return;
      }
    }
    path', next, level', rest' := Descend(path, cur, t, datum, rest, level, ps, root);
  }

  method Descend(path: seq<Frame>, ghost cur: Tree, t: Tree, datum: Str, ghost rest: Str, level: nat, ps: Params, ghost root: Tree)
    returns (path': seq<Frame>, next: Tree, level': nat, rest': Str)
    requires ParamsOk(ps) && Here(path, cur, level, datum, root, ps) && rest == datum[level..]
    requires t.Inner? && Valid(t, ps) && Stored(t, Spelled(path)) == Stored(cur, Spelled(path))
    requires if cur.Leaf? then SplitLeftOver(t, cur.items, rest) else t == cur
    ensures Here(path', next, level', datum, root, ps) && rest' == datum[level'..] && Nearer(next, rest', cur, rest)
    ensures |rest'| == 0 || |rest'| < |rest|
  {
    var u, i, levelAdd, r := ProcessInner(t, datum, level, ps, Spelled(path));
    StepDown(path, cur, u, i, level, datum, root, ps);
    path', next, level', rest' := path + [Frame(u, i)], u.children[i], level + levelAdd, r;
    NodeIsNearer(cur, t, u, i, rest', rest);
  }

  lemma NodeIsNearer(cur: Tree, t: Tree, u: Tree, i: nat, rest': Str, rest: Str)
    requires t.Inner? && |t.children| == |t.labels| && u.Inner? && i < |u.children| == |u.labels|
    requires if cur.Leaf? then SplitLeftOver(t, cur.items, rest) else t == cur
    requires u == t || (u.children[i] == Leaf([]) && Phase(t, rest) > 0)
    requires u == t ==> t.labels[i] == NextLabel(rest, if |t.prefix| <= |rest| then |t.prefix| else 0)
    requires |rest'| <= |rest| && (u == t && t.labels[i] > 0 ==> |rest'| < |rest|)
    ensures Nearer(u.children[i], rest', cur, rest)
  {
    if cur.Leaf? {
      LeftOverIsNearer(t, u, i, cur.items, rest', rest);
    } else if u == t {
      ChildIsNearer(t, i, rest', rest);
    }
  }

  /** Inserting a string adds exactly it, and the failure for a value that never gets
      small enough cannot be reached. */
  method Insert(root: Tree, datum: Str, tid: nat, ps: Params, maxPrefix: nat, getPage: nat -> nat) returns (root': Tree)
    requires ParamsOk(ps) && SizesProgress(ps) && PagesOk(getPage, ps) && Valid(root, ps)
    ensures Valid(root', ps) && Stored(root', []) == Stored(root, []) + multiset{(datum, tid)}
  {
    var path: seq<Frame>, cur, level: nat, leafDatum := [], root, 0, datum;
    var leafSize := ps.leafSize(|leafDatum|);
    var bestLeafSize, numNoProgressCycles := leafSize, 0;
    ghost var best: nat := |datum|;
    while true
      invariant Here(path, cur, level, datum, root, ps) && leafDatum == datum[level..]
      invariant bestLeafSize == ps.leafSize(best) && |leafDatum| + numNoProgressCycles <= best
      decreases CountItems(cur), |leafDatum|, Depth(cur)
    {
      var done, path', next, level', rest' := Step(path, cur, datum, leafDatum, level, tid, ps, maxPrefix, getPage, root);
      if done {
        return Plug(path', next);
      }
      leafSize := ps.leafSize(|rest'|);
      if leafSize > ps.capacity {
        if leafSize < bestLeafSize {
          best := |rest'|;
          bestLeafSize, numNoProgressCycles := leafSize, 0;
        } else {
          numNoProgressCycles := numNoProgressCycles + 1;
          if numNoProgressCycles >= 10 {
            assert false;
          }
        }
      }
      path, cur, level, leafDatum := path', next, level', rest';
    }
  }
}
