/** The search routines of the text radix tree: which nodes and which leaf tuples agree
    with the scan keys. */
module TextConsistent {
  import opened TextStrings
  import opened TextTree

  datatype Strategy = LessThan | LessEqual | Equal | GreaterEqual | GreaterThan | StartsWith

  datatype Key = Key(strategy: Strategy, query: Str)

  /** What a scan key asks of a string. */
  ghost predicate Satisfies(s: Str, k: Key) {
    match k.strategy
    case LessThan => Less(s, k.query)
    case LessEqual => Less(s, k.query) || s == k.query
    case Equal => s == k.query
    case GreaterEqual => Less(k.query, s) || s == k.query
    case GreaterThan => Less(k.query, s)
    case StartsWith => k.query <= s
  }

  ghost predicate Matches(s: Str, keys: seq<Key>) { forall k | k in keys :: Satisfies(s, k) }

  /** The test made on the bytes known so far. */
  predicate MayPass(v: Str, k: Key) {
    var r := MemCmp(v, k.query, MinLen(v, k.query));
    match k.strategy
    case LessThan => r <= 0
    case LessEqual => r <= 0
    case Equal => r == 0 && |v| <= |k.query|
    case GreaterEqual => r >= 0
    case GreaterThan => r >= 0
    case StartsWith => r == 0
  }

  predicate AllMayPass(v: Str, keys: seq<Key>) { forall k | k in keys :: MayPass(v, k) }

  /** Pruning is safe: a string that meets the key has no beginning that fails the test. */
  lemma PruningKeepsMatches(v: Str, s: Str, k: Key)
    requires v <= s && Satisfies(s, k)
    ensures MayPass(v, k)
  {
    MemCmpOfPrefix(v, s, k.query);
    CompareIsOrder(s, k.query);
    CompareIsOrder(k.query, s);
    if k.strategy == Equal { assert v == k.query[..|v|]; }
  }

  /** Some string with this beginning meets the key. */
  ghost predicate Completable(v: Str, k: Key) { exists s :: v <= s && Satisfies(s, k) }

  /** The string to look at when the known bytes agree with the key's. */
  function Witness(v: Str, k: Key): Str {
    if |v| > |k.query| then v
    else match k.strategy
      case GreaterThan => k.query + [1]
      case LessThan => v
      case _ => k.query
  }

  lemma AgreeingBytes(v: Str, k: Key)
    requires MemCmp(v, k.query, MinLen(v, k.query)) == 0
    ensures v <= Witness(v, k) && (|v| <= |k.query| <==> v <= k.query) && (|k.query| <= |v| <==> k.query <= v)
    ensures k.strategy == LessThan || k.strategy == LessEqual ==> Satisfies(Witness(v, k), k) || k.query <= v
    ensures k.strategy != LessThan && k.strategy != LessEqual && (k.strategy == Equal ==> |v| <= |k.query|) ==> Satisfies(Witness(v, k), k)
  {
    var q, n := k.query, MinLen(v, k.query);
    assert v[..n] == q[..n];
    assert |v| <= |q| ==> v == q[..|v|];
    assert |q| <= |v| ==> q == v[..|q|];
    CompareIsOrder(v, q);
    CompareIsOrder(q, v);
    CompareIsOrder(q, q + [1]);
    assert (q + [1])[..|q|] == q[..|q|];
    if |q| <= |v| { assert MemCmp(q, v, MinLen(q, v)) == 0; }
  }

  /** The test keeps a node exactly if some string with its beginning meets the key, but for
      one case: nodes that start with the bound of `<` or `<=` are visited in vain. */
  lemma PassesExactly(v: Str, k: Key)
    ensures MayPass(v, k) <==>
              Completable(v, k) || ((k.strategy == LessThan || k.strategy == LessEqual) && k.query <= v)
  {
    var r := MemCmp(v, k.query, MinLen(v, k.query));
    CompareIsOrder(v, k.query);
    CompareIsOrder(k.query, v);
    forall s | v <= s && Satisfies(s, k) ensures MayPass(v, k) { PruningKeepsMatches(v, s, k); }
    if r == 0 {
      AgreeingBytes(v, k);
      assert Satisfies(Witness(v, k), k) ==> Completable(v, k);
    } else {
      assert v <= v;
      assert Satisfies(v, k) ==> Completable(v, k);
      MemCmpFlips(v, k.query);
    }
    assert k.query <= v ==> v[..|k.query|] == k.query[..|k.query|];
  }

  lemma {:induction false} MemCmpFlips(a: Str, b: Str)
    ensures MemCmp(a, b, MinLen(a, b)) == -MemCmp(b, a, MinLen(b, a))
  {
    if a != [] && b != [] && a[0] == b[0] { MemCmpFlips(a[1..], b[1..]); }
  }

  /** The part of the test that a leaf relies on: every prefix key agrees with what is
      already spelled out. */
  ghost predicate PrefixesChecked(v: Str, keys: seq<Key>) {
    forall k | k in keys && k.strategy == StartsWith :: MemCmp(v, k.query, MinLen(v, k.query)) == 0
  }

  // ---- inner tuples ----

  /** The string a node stands for. */
  function NodeValue(t: Tree, acc: Str, i: nat): Str
    requires t.Inner?
  {
    acc + t.prefix + NodeBytes(t, i)
  }

  method TestKeys(v: Str, keys: seq<Key>) returns (res: bool)
    ensures res == AllMayPass(v, keys)
  {
    res := true;
    var j := 0;
    while j < |keys|
      invariant 0 <= j <= |keys| && res
      invariant forall m | 0 <= m < j :: MayPass(v, keys[m])
    {
      var r := MemCmp(v, keys[j].query, MinLen(v, keys[j].query));
      match keys[j].strategy {
        case LessThan => if r > 0 { res := false; }
        case LessEqual => if r > 0 { res := false; }
        case Equal => if r != 0 || |keys[j].query| < |v| { res := false; }
        case GreaterEqual => if r < 0 { res := false; }
        case GreaterThan => if r < 0 { res := false; }
        case StartsWith => if r != 0 { res := false; }
      }
      if !res {
        assert !MayPass(v, keys[j]);
        return;
      }
      j := j + 1;
    }
  }

  /** The nodes chosen among the first `n`, in order, with the strings they stand for. */
  ghost predicate Chosen(t: Tree, acc: Str, keys: seq<Key>, n: nat, nodes: seq<nat>, values: seq<Str>)
    requires t.Inner?
  {
    && |values| == |nodes| && (forall j | 0 <= j < |nodes| :: nodes[j] < n)
    && (forall j, k | 0 <= j < k < |nodes| :: nodes[j] < nodes[k])
    && (forall j | 0 <= j < |nodes| :: values[j] == NodeValue(t, acc, nodes[j]) && AllMayPass(values[j], keys))
    && (forall i: nat | i < n && AllMayPass(NodeValue(t, acc, i), keys) :: i in nodes)
    && ((forall i: nat | i < n :: AllMayPass(NodeValue(t, acc, i), keys)) ==> |nodes| == n)
  }

  lemma ChosenStep(t: Tree, acc: Str, keys: seq<Key>, n: nat, nodes: seq<nat>, values: seq<Str>, v: Str)
    requires t.Inner? && Chosen(t, acc, keys, n, nodes, values) && v == NodeValue(t, acc, n)
    ensures AllMayPass(v, keys) ==> Chosen(t, acc, keys, n + 1, nodes + [n], values + [v])
    ensures !AllMayPass(v, keys) ==> Chosen(t, acc, keys, n + 1, nodes, values)
  {
    if AllMayPass(v, keys) {
      var nodes', values' := nodes + [n], values + [v];
      forall j | 0 <= j < |nodes'|
        ensures nodes'[j] < n + 1 && values'[j] == NodeValue(t, acc, nodes'[j]) && AllMayPass(values'[j], keys)
      {
        if j < |nodes| { assert nodes'[j] == nodes[j] && values'[j] == values[j]; }
      }
      forall i: nat | i < n + 1 && AllMayPass(NodeValue(t, acc, i), keys) ensures i in nodes' {
        if i < n { assert i in nodes; } else { assert nodes'[|nodes|] == i; }
      }
    }
  }

  /** Nodes with one label all match or all fail, as an all-the-same tuple must. */
  lemma AllOrNone(t: Tree, acc: Str, keys: seq<Key>, nodes: seq<nat>, values: seq<Str>)
    requires t.Inner? && Chosen(t, acc, keys, |t.labels|, nodes, values) && AllEqual(t.labels)
    ensures |nodes| == 0 || |nodes| == |t.labels|
  {
    if nodes != [] {
      forall i: nat | i < |t.labels| ensures AllMayPass(NodeValue(t, acc, i), keys) {
        SameLabelSameValue(t, acc, i, nodes[0]);
      }
    }
  }

  lemma SameLabelSameValue(t: Tree, acc: Str, i: nat, k: nat)
    requires t.Inner? && i < |t.labels| && k < |t.labels| && AllEqual(t.labels)
    ensures NodeValue(t, acc, i) == NodeValue(t, acc, k)
  {
    assert i < k ==> t.labels[i] == t.labels[k];
    assert k < i ==> t.labels[k] == t.labels[i];
  }

  /** One buffer holds the string of each node in turn; only its last byte changes. */
  method InnerConsistent(t: Tree, acc: Str, keys: seq<Key>) returns (nodes: seq<nat>, values: seq<Str>)
    requires t.Inner? && forall l | l in t.labels :: IsLabel(l)
    ensures Chosen(t, acc, keys, |t.labels|, nodes, values)
  {
    var base := acc + t.prefix;
    var maxLen := |base| + 1;
    var reconstr := new Byte[maxLen](i => if 0 <= i < |base| then base[i] else 1);
    nodes, values := [], [];
    var i := 0;
    while i < |t.labels|
      invariant 0 <= i <= |t.labels| && reconstr[..|base|] == base
      invariant Chosen(t, acc, keys, i, nodes, values)
    {
      assert t.labels[i] in t.labels;
      var thisLen := FillLast(reconstr, t.labels[i]);
      var v := reconstr[..thisLen];
      assert v == NodeValue(t, acc, i);
      var res := TestKeys(v, keys);
      ChosenStep(t, acc, keys, i, nodes, values, v);
      if res {
        nodes, values := nodes + [i], values + [v];
      }
      i := i + 1;
    }
  }

  /** Puts a real label in the last byte; a dummy label leaves it out. */
  method FillLast(buf: array<Byte>, nodeChar: int) returns (thisLen: nat)
    requires buf.Length > 0 && IsLabel(nodeChar)
    modifies buf
    ensures buf[..buf.Length - 1] == old(buf[..buf.Length - 1])
    ensures thisLen <= buf.Length && buf[..thisLen] == old(buf[..buf.Length - 1]) + LabelBytes(nodeChar)
  {
    if nodeChar <= 0 {
      thisLen := buf.Length - 1;
    } else {
      buf[buf.Length - 1] := nodeChar;
      thisLen := buf.Length;
    }
  }

  // ---- leaf tuples ----

  /** The leaf test is exact, given that the ancestors were checked against prefix keys. */
  method LeafConsistent(rest: Str, reconstr: Str, keys: seq<Key>) returns (res: bool)
    requires PrefixesChecked(reconstr, keys)
    ensures res <==> Matches(reconstr + rest, keys)
  {
    var level := |reconstr|;
    var full := if rest == [] && level > 0 then reconstr else reconstr + rest;
    assert full == reconstr + rest;
    res := true;
    var j := 0;
    while j < |keys|
      invariant 0 <= j <= |keys| && res
      invariant forall m | 0 <= m < j :: Satisfies(full, keys[m])
    {
      res := LeafTest(full, level, reconstr, keys[j]);
      if !res {
        return;
      }
      j := j + 1;
    }
  }

  method LeafTest(full: Str, level: nat, ghost reconstr: Str, key: Key) returns (res: bool)
    requires reconstr <= full && level == |reconstr|
    requires key.strategy == StartsWith ==> MemCmp(reconstr, key.query, MinLen(reconstr, key.query)) == 0
    ensures res <==> Satisfies(full, key)
  {
    if key.strategy == StartsWith {
      res := level >= |key.query| || key.query <= full;
      if level >= |key.query| {
        assert reconstr[..|key.query|] == key.query[..|key.query|] == key.query;
      }
      return;
    }
    var r := Compare(full, key.query);
    CompareIsOrder(full, key.query);
    match key.strategy {
      case LessThan => res := r < 0;
      case LessEqual => res := r <= 0;
      case Equal => res := r == 0;
      case GreaterEqual => res := r >= 0;
      case GreaterThan => res := r > 0;
    }
  }
}
