/** The radix tree over text: what strings it stores, and its shape. */
module TextTree {
  import opened TextStrings

  /** A leaf tuple: the bytes not yet spelled out above it, and the heap tuple. */
  datatype Item = Item(rest: Str, tid: nat)

  /** A stored entry: the whole string and the heap tuple. */
  type Entry = (Str, nat)

  /** A leaf is one chain of leaf tuples; an empty downlink is an empty chain. Labels are
      bytes, -1 for "no more bytes", or -2 for the dummy made by splitting an
      all-the-same tuple. */
  datatype Tree =
    | Leaf(items: seq<Item>)
    | Inner(prefix: Str, allTheSame: bool, labels: seq<int>, children: seq<Tree>)

  predicate IsLabel(l: int) { l == -2 || l == -1 || 0 < l < 256 }

  /** What a node label adds to the string. */
  function LabelBytes(l: int): Str
    requires IsLabel(l)
  {
    if l > 0 then [l] else []
  }

  /** The label under which a string goes after `k` bytes. */
  function NextLabel(s: Str, k: nat): (l: int)
    requires k <= |s|
    ensures IsLabel(l) && l != -2
  {
    if k < |s| then s[k] else -1
  }

  ghost predicate Increasing(labels: seq<int>) { forall j, k | 0 <= j < k < |labels| :: labels[j] < labels[k] }

  ghost predicate AllEqual(labels: seq<int>) { forall j, k | 0 <= j < k < |labels| :: labels[j] == labels[k] }

  /** Labels are in strict order, or all the same in an all-the-same tuple. */
  ghost predicate GoodLabels(labels: seq<int>, allTheSame: bool) {
    && |labels| > 0 && (forall l | l in labels :: IsLabel(l))
    && if allTheSame then AllEqual(labels) && labels[0] != -2 else Increasing(labels)
  }

  /** The size of a leaf tuple by the length of its datum, and the room on a page. */
  datatype Params = Params(leafSize: nat -> nat, capacity: nat)

  ghost predicate ParamsOk(ps: Params) {
    && (forall m: nat, n: nat | m <= n :: ps.leafSize(m) <= ps.leafSize(n))
    && 2 * ps.leafSize(0) <= ps.capacity
  }

  /** Alignment hides fewer than ten bytes. */
  ghost predicate SizesProgress(ps: Params) {
    forall m: nat, n: nat | m + 10 <= n :: ps.leafSize(m) < ps.leafSize(n)
  }

  function ChainSize(items: seq<Item>, ps: Params): nat {
    if items == [] then 0 else ChainSize(items[..|items| - 1], ps) + ps.leafSize(|items[|items| - 1].rest|)
  }

  ghost predicate Valid(t: Tree, ps: Params) {
    match t
    case Leaf(items) => ChainSize(items, ps) <= ps.capacity
    case Inner(prefix, same, labels, children) =>
      && |children| == |labels| && GoodLabels(labels, same)
      && forall i | 0 <= i < |children| :: Valid(children[i], ps)
  }

  // ---- what is stored ----

  ghost function Filed(items: seq<Item>, acc: Str): multiset<Entry> {
    if items == [] then multiset{} else
      var last := items[|items| - 1];
      Filed(items[..|items| - 1], acc) + multiset{(acc + last.rest, last.tid)}
  }

  /** The entries below a tree whose path from the root spells `acc`. */
  ghost function Stored(t: Tree, acc: Str): multiset<Entry>
    decreases t, 1
  {
    match t
    case Leaf(items) => Filed(items, acc)
    case Inner(prefix, same, labels, children) => StoredIn(t, |children|, acc + prefix)
  }

  /** The entries below the first `n` nodes. */
  ghost function StoredIn(t: Tree, n: nat, acc: Str): multiset<Entry>
    requires t.Inner? && n <= |t.children|
    decreases t, 0, n
  {
    if n == 0 then multiset{} else
      StoredIn(t, n - 1, acc) + Stored(t.children[n - 1], acc + NodeBytes(t, n - 1))
  }

  function NodeBytes(t: Tree, i: nat): Str
    requires t.Inner?
  {
    if i < |t.labels| && IsLabel(t.labels[i]) then LabelBytes(t.labels[i]) else []
  }

  // ---- measures ----

  function CountItems(t: Tree): nat
    decreases t, 1
  {
    match t
    case Leaf(items) => |items|
    case Inner(_, _, _, children) => CountIn(t, |children|)
  }

  function CountIn(t: Tree, n: nat): nat
    requires t.Inner? && n <= |t.children|
    decreases t, 0, n
  {
    if n == 0 then 0 else CountIn(t, n - 1) + CountItems(t.children[n - 1])
  }

  function Depth(t: Tree): nat
    decreases t, 1
  {
    match t
    case Leaf(_) => 0
    case Inner(_, _, _, children) => 1 + DepthIn(t, |children|)
  }

  function DepthIn(t: Tree, n: nat): nat
    requires t.Inner? && n <= |t.children|
    decreases t, 0, n
  {
    if n == 0 then 0 else
      var d, e := DepthIn(t, n - 1), Depth(t.children[n - 1]);
      if d < e then e else d
  }

  lemma {:induction false} ChildMeasures(t: Tree, n: nat, i: nat)
    requires t.Inner? && i < n <= |t.children|
    ensures CountItems(t.children[i]) <= CountIn(t, n) && Depth(t.children[i]) <= DepthIn(t, n)
    decreases n
  {
    if i < n - 1 {
      ChildMeasures(t, n - 1, i);
    }
  }

  // ---- replacing one child ----

  function WithChild(t: Tree, i: nat, c: Tree): Tree
    requires t.Inner? && i < |t.children|
  {
    t.(children := t.children[i := c])
  }

  lemma AddInto(a: multiset<Entry>, b: multiset<Entry>, x: multiset<Entry>)
    ensures a + (b + x) == (a + b) + x && (a + x) + b == (a + b) + x && (a + b) + multiset{} == a + b
    ensures (a + multiset{}) == a
  {
  }

  lemma {:induction false} StoredWithChild(t: Tree, i: nat, c: Tree, n: nat, acc: Str, x: multiset<Entry>)
    requires t.Inner? && i < |t.children| && n <= |t.children|
    requires Stored(c, acc + NodeBytes(t, i)) == Stored(t.children[i], acc + NodeBytes(t, i)) + x
    ensures StoredIn(WithChild(t, i, c), n, acc) == StoredIn(t, n, acc) + if i < n then x else multiset{}
    decreases n
  {
    if n > 0 {
      StoredWithChild(t, i, c, n - 1, acc, x);
      var u, b := WithChild(t, i, c), acc + NodeBytes(t, n - 1);
      assert StoredIn(u, n, acc) == StoredIn(u, n - 1, acc) + Stored(u.children[n - 1], b);
      assert StoredIn(t, n, acc) == StoredIn(t, n - 1, acc) + Stored(t.children[n - 1], b);
      AddInto(StoredIn(t, n - 1, acc), Stored(t.children[n - 1], b), x);
      if n - 1 == i {
        assert Stored(u.children[n - 1], b) == Stored(t.children[n - 1], b) + x;
        assert StoredIn(u, n - 1, acc) == StoredIn(t, n - 1, acc);
      } else {
        assert u.children[n - 1] == t.children[n - 1];
      }
    }
  }

  // ---- the path from the root ----

  /** An inner tuple on the path and the node taken in it. */
  datatype Frame = Frame(t: Tree, i: nat)

  ghost predicate PathOk(path: seq<Frame>, ps: Params) {
    forall f | f in path :: f.t.Inner? && f.i < |f.t.children| && Valid(f.t, ps)
  }

  /** The bytes spelled by a path. */
  ghost function Spelled(path: seq<Frame>): Str
    requires forall f | f in path :: f.t.Inner?
  {
    if path == [] then [] else
      var f := path[|path| - 1];
      Spelled(path[..|path| - 1]) + f.t.prefix + NodeBytes(f.t, f.i)
  }

  /** The whole tree, with `t` at the end of the path. */
  function Plug(path: seq<Frame>, t: Tree): Tree
    requires forall f | f in path :: f.t.Inner? && f.i < |f.t.children|
    decreases |path|
  {
    if path == [] then t else
      var f := path[|path| - 1];
      Plug(path[..|path| - 1], WithChild(f.t, f.i, t))
  }

  lemma ValidWithChild(t: Tree, i: nat, c: Tree, ps: Params)
    requires t.Inner? && i < |t.children| && Valid(t, ps) && Valid(c, ps)
    ensures Valid(WithChild(t, i, c), ps)
  {
  }

  /** What changes at the end of a path changes in the whole tree, and nothing else. */
  lemma {:induction false} PlugStored(path: seq<Frame>, t: Tree, t': Tree, x: multiset<Entry>, ps: Params)
    requires PathOk(path, ps) && Valid(t, ps) && Valid(t', ps)
    requires Stored(t', Spelled(path)) == Stored(t, Spelled(path)) + x
    ensures Stored(Plug(path, t'), []) == Stored(Plug(path, t), []) + x
    ensures Valid(Plug(path, t'), ps)
    decreases |path|
  {
    if path != [] {
      var f, rest := path[|path| - 1], path[..|path| - 1];
      assert f in path;
      var u, u' := WithChild(f.t, f.i, t), WithChild(f.t, f.i, t');
      ValidWithChild(f.t, f.i, t, ps);
      ValidWithChild(f.t, f.i, t', ps);
      assert u' == WithChild(u, f.i, t');
      assert NodeBytes(u, f.i) == NodeBytes(f.t, f.i);
      var acc := Spelled(rest);
      StoredWithChild(u, f.i, t', |u.children|, acc + f.t.prefix, x);
      PlugStored(rest, u, u', x, ps);
    }
  }
}
