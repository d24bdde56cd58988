/** The operator-class routines of the text radix tree: where a string goes in an inner
    tuple, and how a leaf chain is split into nodes. */
module TextChoose {
  import opened TextStrings
  import opened TextTree

  ghost predicate Ascending(labels: seq<int>) { forall j, k | 0 <= j < k < |labels| :: labels[j] <= labels[k] }

  /** Binary search. On failure `i` is where the label belongs. */
  method SearchChar(labels: seq<int>, c: int) returns (found: bool, i: nat)
    requires Ascending(labels)
    ensures found <==> c in labels
    ensures found ==> i < |labels| && labels[i] == c
    ensures !found ==> i <= |labels| && (forall j | 0 <= j < i :: labels[j] < c) && forall j | i <= j < |labels| :: c < labels[j]
  {
    var low, high := 0, |labels|;
    while low < high
      invariant 0 <= low <= high <= |labels|
      invariant forall j | 0 <= j < low :: labels[j] < c
      invariant forall j | high <= j < |labels| :: c < labels[j]
    {
      var mid := (low + high) / 2;
      var middle := labels[mid];
      if c < middle {
        high := mid;
      } else if c > middle {
        low := mid + 1;
      } else {
        return true, mid;
      }
    }
    return false, high;
  }

  datatype ChooseOut =
    | MatchNode(nodeN: nat, levelAdd: nat, rest: Str)
    | AddNode(nodeLabel: int, nodeN: nat)
    | SplitTuple(prefixPrefix: Str, nodeLabel: int, postfixPrefix: Str)

  /** What each answer means for a string of which `s` is left. */
  ghost predicate ChooseOk(t: Tree, s: Str, out: ChooseOut)
    requires t.Inner? && |t.labels| > 0
  {
    match out
    case MatchNode(n, add, rest) =>
      && t.prefix <= s && n < |t.labels| && t.labels[n] == NextLabel(s, |t.prefix|)
      && s == t.prefix + LabelBytes(t.labels[n]) + rest && add + |rest| == |s|
    case AddNode(nodeLabel, n) =>
      && t.prefix <= s && nodeLabel == NextLabel(s, |t.prefix|) && nodeLabel !in t.labels && !t.allTheSame
      && n <= |t.labels| && Increasing(t.labels[..n] + [nodeLabel] + t.labels[n..])
    case SplitTuple(pp, nodeLabel, post) =>
      || (!(t.prefix <= s) && 0 < nodeLabel < 256 && t.prefix == pp + [nodeLabel] + post && pp <= s
          && NextLabel(s, |pp|) != nodeLabel)
      || (t.prefix <= s && t.allTheSame && NextLabel(s, |t.prefix|) !in t.labels
          && pp == t.prefix && nodeLabel == -2 && post == [])
  }

  method Choose(t: Tree, datum: Str, level: nat) returns (out: ChooseOut)
    requires t.Inner? && GoodLabels(t.labels, t.allTheSame) && level <= |datum|
    ensures ChooseOk(t, datum[level..], out)
  {
    var inSize := |datum|;
    var s := datum[level..];
    var commonLen := 0;
    var nodeChar: int;
    if t.prefix != [] {
      commonLen := CommonPrefix(s, t.prefix);
      if commonLen == |t.prefix| {
        nodeChar := if inSize - level > commonLen then datum[level + commonLen] else -1;
      } else {
        out := SplitTuple(t.prefix[..commonLen], t.prefix[commonLen], t.prefix[commonLen + 1..]);
        PrefixDiffers(t.prefix, s, commonLen);
        return;
      }
    } else if inSize > level {
      nodeChar := datum[level];
    } else {
      nodeChar := -1;
    }
    assert t.prefix <= s && nodeChar == NextLabel(s, |t.prefix|);
    assert commonLen == |t.prefix|;
    out := ChooseNode(t, datum, level, commonLen, nodeChar);
  }

  /** The answer for a string that matches the whole prefix. */
  method ChooseNode(t: Tree, datum: Str, level: nat, commonLen: nat, nodeChar: int) returns (out: ChooseOut)
    requires t.Inner? && GoodLabels(t.labels, t.allTheSame) && level <= |datum|
    requires t.prefix <= datum[level..] && commonLen == |t.prefix| && nodeChar == NextLabel(datum[level..], commonLen)
    ensures ChooseOk(t, datum[level..], out)
  {
    GoodIsAscending(t.labels, t.allTheSame);
    var found, i := SearchChar(t.labels, nodeChar);
    if found {
      var levelAdd := commonLen;
      if nodeChar >= 0 {
        levelAdd := levelAdd + 1;
      }
      out := MatchNode(i, levelAdd, if |datum| - level - levelAdd > 0 then datum[level + levelAdd..] else []);
      Consumed(t.prefix, datum[level..], levelAdd, out.rest);
    } else if t.allTheSame {
      out := SplitTuple(t.prefix, -2, []);
    } else {
      out := AddNode(nodeChar, i);
      InsertedInOrder(t.labels, nodeChar, i);
    }
  }

  lemma Consumed(prefix: Str, s: Str, add: nat, rest: Str)
    requires prefix <= s && add == |prefix| + (if |s| > |prefix| then 1 else 0)
    requires rest == if |s| > add then s[add..] else []
    ensures s == prefix + LabelBytes(NextLabel(s, |prefix|)) + rest && add + |rest| == |s|
  {
  }

  lemma GoodIsAscending(labels: seq<int>, allTheSame: bool)
    requires GoodLabels(labels, allTheSame)
    ensures Ascending(labels)
  {
  }

  lemma InsertedInOrder(labels: seq<int>, c: int, i: nat)
    requires Increasing(labels) && i <= |labels|
    requires (forall j | 0 <= j < i :: labels[j] < c) && forall j | i <= j < |labels| :: c < labels[j]
    ensures Increasing(labels[..i] + [c] + labels[i..])
  {
  }

  lemma PrefixDiffers(prefix: Str, s: Str, n: nat)
    requires n == CommonLen(s, prefix) && n < |prefix|
    ensures !(prefix <= s) && prefix == prefix[..n] + [prefix[n]] + prefix[n + 1..]
    ensures prefix[..n] <= s && NextLabel(s, n) != prefix[n]
  {
  }

  // ---- picksplit ----

  /** A value to be split, its number and its label. */
  datatype NodePtr = NodePtr(d: Str, i: nat, c: int)

  ghost predicate SortedByLabel(nodes: seq<NodePtr>) { forall j, k | 0 <= j < k < |nodes| :: nodes[j].c <= nodes[k].c }

  /** The library sort, by label. */
  method SortNodes(nodes: seq<NodePtr>) returns (sorted: seq<NodePtr>)
    ensures SortedByLabel(sorted) && multiset(sorted) == multiset(nodes)
  {
    sorted := [];
    var k := 0;
    while k < |nodes|
      invariant 0 <= k <= |nodes|
      invariant SortedByLabel(sorted) && multiset(sorted) == multiset(nodes[..k])
    {
      assert nodes[..k + 1] == nodes[..k] + [nodes[k]];
      sorted := InsertNode(sorted, nodes[k]);
      k := k + 1;
    }
    assert nodes[..k] == nodes;
  }

  method InsertNode(nodes: seq<NodePtr>, x: NodePtr) returns (r: seq<NodePtr>)
    requires SortedByLabel(nodes)
    ensures SortedByLabel(r) && multiset(r) == multiset(nodes) + multiset{x}
  {
    var k := 0;
    while k < |nodes| && nodes[k].c <= x.c
      invariant 0 <= k <= |nodes|
      invariant forall j | 0 <= j < k :: nodes[j].c <= x.c
    {
      k := k + 1;
    }
    r := nodes[..k] + [x] + nodes[k..];
    NodeInserted(nodes, k, x);
  }

  lemma NodeInserted(nodes: seq<NodePtr>, k: nat, x: NodePtr)
    requires SortedByLabel(nodes) && k <= |nodes|
    requires (forall j | 0 <= j < k :: nodes[j].c <= x.c) && (k < |nodes| ==> x.c < nodes[k].c)
    ensures var r := nodes[..k] + [x] + nodes[k..]; SortedByLabel(r) && multiset(r) == multiset(nodes) + multiset{x}
  {
    var a, b := nodes[..k], nodes[k..];
    assert nodes == a + b;
    forall j | 0 <= j < |b| ensures x.c <= b[j].c {
      assert nodes[k].c <= nodes[k + j].c;
    }
    BetweenSorted(a, x, b);
    BetweenBag(a, x, b);
  }

  lemma BetweenSorted(a: seq<NodePtr>, x: NodePtr, b: seq<NodePtr>)
    requires SortedByLabel(a) && SortedByLabel(b)
    requires (forall j | 0 <= j < |a| :: a[j].c <= x.c) && (forall j | 0 <= j < |b| :: x.c <= b[j].c)
    ensures SortedByLabel(a + [x] + b)
  {
    var r := a + [x] + b;
    forall j, k | 0 <= j < k < |r| ensures r[j].c <= r[k].c {
      var left, right := if j < |a| then a[j].c else x.c, if k > |a| then b[k - |a| - 1].c else x.c;
      if j <= |a| <= k {
        assert left <= x.c <= right;
      }
    }
  }

  lemma BetweenBag(a: seq<NodePtr>, x: NodePtr, b: seq<NodePtr>)
    ensures multiset(a + [x] + b) == multiset(a + b) + multiset{x}
  {
    assert multiset(a + [x] + b) == multiset(a) + multiset{x} + multiset(b);
    assert multiset(a + b) == multiset(a) + multiset(b);
  }

  /** A split of strings into labelled nodes that spells every string back. */
  ghost predicate SplitOk(datums: seq<Str>, prefix: Str, labels: seq<int>, mapping: seq<nat>, rests: seq<Str>) {
    && |mapping| == |rests| == |datums|
    && Increasing(labels) && (forall l | l in labels :: IsLabel(l) && l != -2)
    && (forall i | 0 <= i < |datums| :: mapping[i] < |labels|)
    && forall i | 0 <= i < |datums| ::
         IsLabel(labels[mapping[i]]) && datums[i] == prefix + LabelBytes(labels[mapping[i]]) + rests[i]
         && prefix <= datums[i] && labels[mapping[i]] == NextLabel(datums[i], |prefix|)
  }

  /** The first `n` bytes are common to all values. */
  ghost predicate Shared(datums: seq<Str>, n: nat)
    requires datums != []
  {
    forall i | 0 <= i < |datums| :: n <= |datums[i]| && n <= |datums[0]| && datums[i][..n] == datums[0][..n]
  }

  /** The bytes in common are all that are. */
  ghost predicate Longest(datums: seq<Str>, commonLen: nat)
    requires datums != []
  {
    Shared(datums, commonLen) && forall n: nat | Shared(datums, n) :: n <= commonLen
  }

  /** What the first value has in common with some value bounds what all have in common. */
  lemma BoundedBy(datums: seq<Str>, k: nat, commonLen: nat)
    requires k < |datums| && Shared(datums, commonLen)
    requires commonLen == |datums[0]| || CommonLen(datums[0], datums[k]) == commonLen
    ensures Longest(datums, commonLen)
  {
    forall n: nat | Shared(datums, n) ensures n <= commonLen {
      if n > commonLen {
        assert datums[k][..n] == datums[0][..n];
        PrefixAt(datums[0], datums[k], n, commonLen);
      }
    }
  }

  method LongestPrefix(datums: seq<Str>) returns (commonLen: nat)
    requires datums != []
    ensures Longest(datums, commonLen)
  {
    commonLen := |datums[0]|;
    ghost var at: nat := 0;
    var i := 1;
    while i < |datums| && commonLen > 0
      invariant 1 <= i <= |datums| && commonLen <= |datums[0]| && at < i
      invariant commonLen == |datums[0]| || CommonLen(datums[0], datums[at]) == commonLen
      invariant forall k | 0 <= k < i :: commonLen <= |datums[k]| && datums[k][..commonLen] == datums[0][..commonLen]
    {
      var tmp := CommonPrefix(datums[0], datums[i]);
      if tmp < commonLen {
        ShorterPrefix(datums, i, commonLen, tmp);
        commonLen := tmp;
        at := i;
      } else {
        assert datums[i][..commonLen] == datums[i][..tmp][..commonLen] == datums[0][..commonLen];
      }
      i := i + 1;
    }
    assert Shared(datums, commonLen);
    BoundedBy(datums, at, commonLen);
  }

  lemma ShorterPrefix(datums: seq<Str>, i: nat, n: nat, m: nat)
    requires m <= n && 0 < i <= |datums| && n <= |datums[0]|
    requires forall k | 0 <= k < i :: n <= |datums[k]| && datums[k][..n] == datums[0][..n]
    ensures forall k | 0 <= k < i :: m <= |datums[k]| && datums[k][..m] == datums[0][..m]
  {
    forall k | 0 <= k < i ensures datums[k][..m] == datums[0][..m] {
      assert datums[k][..m] == datums[k][..n][..m] == datums[0][..n][..m] == datums[0][..m];
    }
  }

  /** Label of each value: its first byte after the common prefix. */
  method LabelValues(datums: seq<Str>, commonLen: nat) returns (nodes: seq<NodePtr>)
    requires forall i | 0 <= i < |datums| :: commonLen <= |datums[i]|
    ensures |nodes| == |datums|
    ensures forall i | 0 <= i < |datums| :: nodes[i] == NodePtr(datums[i], i, NextLabel(datums[i], commonLen))
  {
    nodes := [];
    var i := 0;
    while i < |datums|
      invariant 0 <= i <= |datums| == |nodes| + (|datums| - i)
      invariant forall k | 0 <= k < i :: nodes[k] == NodePtr(datums[k], k, NextLabel(datums[k], commonLen))
    {
      var c := if commonLen < |datums[i]| then datums[i][commonLen] else -1;
      nodes := nodes + [NodePtr(datums[i], i, c)];
      i := i + 1;
    }
  }

  ghost predicate HasValue(nodes: seq<NodePtr>, i: nat) { exists k :: 0 <= k < |nodes| && nodes[k].i == i }

  /** The sorted values are the original ones, each once. */
  lemma {:induction false} SortedValues(datums: seq<Str>, commonLen: nat, nodes: seq<NodePtr>, sorted: seq<NodePtr>)
    requires forall i | 0 <= i < |datums| :: commonLen <= |datums[i]|
    requires |nodes| == |datums| && multiset(sorted) == multiset(nodes)
    requires forall i | 0 <= i < |datums| :: nodes[i] == NodePtr(datums[i], i, NextLabel(datums[i], commonLen))
    ensures |sorted| == |datums|
    ensures forall k | 0 <= k < |sorted| :: sorted[k].i < |datums| && sorted[k] == nodes[sorted[k].i]
    ensures forall i | 0 <= i < |datums| :: HasValue(sorted, i)
    ensures forall j, k | 0 <= j < k < |sorted| :: sorted[j].i != sorted[k].i
  {
    assert |sorted| == |multiset(sorted)| == |multiset(nodes)|;
    forall k | 0 <= k < |sorted| ensures sorted[k].i < |datums| && sorted[k] == nodes[sorted[k].i] {
      assert sorted[k] in multiset(nodes);
    }
    forall i | 0 <= i < |datums| ensures HasValue(sorted, i) {
      assert nodes[i] in multiset(nodes);
      assert nodes[i] in sorted;
      var k :| 0 <= k < |sorted| && sorted[k] == nodes[i];
    }
    forall j, k | 0 <= j < k < |sorted| ensures sorted[j].i != sorted[k].i {
      if sorted[j].i == sorted[k].i {
        TwiceInSorted(sorted, j, k);
        OnceInNodes(nodes, sorted[j].i);
      }
    }
  }

  lemma TwiceInSorted(s: seq<NodePtr>, j: nat, k: nat)
    requires j < k < |s| && s[j] == s[k]
    ensures multiset(s)[s[j]] >= 2
  {
    assert s == s[..j] + [s[j]] + s[j + 1..k] + [s[k]] + s[k + 1..];
  }

  lemma OnceInNodes(s: seq<NodePtr>, i: nat)
    requires i < |s| && forall k | 0 <= k < |s| :: s[k].i == k
    ensures multiset(s)[s[i]] <= 1
  {
    assert s == s[..i] + [s[i]] + s[i + 1..];
    assert s[i] !in s[..i] && s[i] !in s[i + 1..];
  }

  /** What is known of the values emitted so far. */
  ghost predicate Emitted(datums: seq<Str>, commonLen: nat, sorted: seq<NodePtr>, k: nat, labels: seq<int>,
                          mapping: seq<nat>, rests: seq<Str>)
    requires k <= |sorted| && |mapping| == |rests| == |datums|
  {
    && Increasing(labels) && (k > 0 ==> labels != [] && labels[|labels| - 1] == sorted[k - 1].c)
    && (k == 0 ==> labels == []) && (forall l | l in labels :: IsLabel(l) && l != -2)
    && forall j | 0 <= j < k :: sorted[j].i < |datums| && ValueOk(datums, commonLen, sorted[j].i, labels, mapping, rests)
  }

  ghost predicate ValueOk(datums: seq<Str>, commonLen: nat, i: nat, labels: seq<int>, mapping: seq<nat>, rests: seq<Str>)
    requires |mapping| == |rests| == |datums| && i < |datums|
  {
    && mapping[i] < |labels| && commonLen <= |datums[i]|
    && labels[mapping[i]] == NextLabel(datums[i], commonLen)
    && rests[i] == if commonLen < |datums[i]| then datums[i][commonLen + 1..] else []
  }

  lemma EmitStep(datums: seq<Str>, commonLen: nat, sorted: seq<NodePtr>, k: nat, labels: seq<int>,
                 mapping: seq<nat>, rests: seq<Str>, labels': seq<int>, rest: Str)
    requires k < |sorted| && |mapping| == |rests| == |datums| && SortedByLabel(sorted)
    requires forall j, m | 0 <= j < m < |sorted| :: sorted[j].i != sorted[m].i
    requires var x := sorted[k];
      && x.i < |datums| && commonLen <= |datums[x.i]| && x.c == NextLabel(datums[x.i], commonLen)
      && labels' == (if k == 0 || x.c != sorted[k - 1].c then labels + [x.c] else labels)
      && rest == if commonLen < |datums[x.i]| then datums[x.i][commonLen + 1..] else []
    requires Emitted(datums, commonLen, sorted, k, labels, mapping, rests)
    ensures labels' != []
    ensures Emitted(datums, commonLen, sorted, k + 1, labels', mapping[sorted[k].i := |labels'| - 1], rests[sorted[k].i := rest])
  {
    LabelsExtended(sorted, k, labels, labels');
    var mapping', rests' := mapping[sorted[k].i := |labels'| - 1], rests[sorted[k].i := rest];
    forall j | 0 <= j <= k ensures sorted[j].i < |datums| && ValueOk(datums, commonLen, sorted[j].i, labels', mapping', rests') {
      if j < k {
        assert ValueOk(datums, commonLen, sorted[j].i, labels, mapping, rests);
        assert sorted[j].i != sorted[k].i;
      }
    }
  }

  /** A new label is greater than those before it. */
  lemma LabelsExtended(sorted: seq<NodePtr>, k: nat, labels: seq<int>, labels': seq<int>)
    requires k < |sorted| && SortedByLabel(sorted) && IsLabel(sorted[k].c) && sorted[k].c != -2
    requires labels' == if k == 0 || sorted[k].c != sorted[k - 1].c then labels + [sorted[k].c] else labels
    requires Increasing(labels) && (forall l | l in labels :: IsLabel(l) && l != -2)
    requires if k == 0 then labels == [] else labels != [] && labels[|labels| - 1] == sorted[k - 1].c
    ensures labels' != [] && labels'[|labels'| - 1] == sorted[k].c && labels <= labels'
    ensures Increasing(labels') && (forall l | l in labels' :: IsLabel(l) && l != -2)
  {
    if k > 0 && sorted[k].c != sorted[k - 1].c {
      assert sorted[k - 1].c < sorted[k].c;
      forall j | 0 <= j < |labels| ensures labels[j] < sorted[k].c {
        assert labels[j] <= labels[|labels| - 1];
      }
    }
  }

  /** The values in the order of their labels, each once. */
  ghost predicate InOrder(datums: seq<Str>, commonLen: nat, sorted: seq<NodePtr>) {
    && SortedByLabel(sorted)
    && (forall k | 0 <= k < |sorted| ::
          sorted[k].i < |datums| && commonLen <= |datums[sorted[k].i]|
          && sorted[k].d == datums[sorted[k].i] && sorted[k].c == NextLabel(datums[sorted[k].i], commonLen))
    && forall j, k | 0 <= j < k < |sorted| :: sorted[j].i != sorted[k].i
  }

  ghost predicate EmitInv(datums: seq<Str>, commonLen: nat, sorted: seq<NodePtr>, k: nat, labels: seq<int>,
                          mapping: seq<nat>, rests: seq<Str>)
  {
    && InOrder(datums, commonLen, sorted) && k <= |sorted| && |mapping| == |rests| == |datums|
    && Emitted(datums, commonLen, sorted, k, labels, mapping, rests)
  }

  /** Label `m` is that of the value sorted to place `which[m]`. */
  ghost predicate LabelsFrom(sorted: seq<NodePtr>, k: nat, labels: seq<int>, which: seq<nat>)
    requires k <= |sorted|
  {
    |which| == |labels| && forall m {:trigger which[m]} | 0 <= m < |which| :: which[m] < k && sorted[which[m]].c == labels[m]
  }

  lemma OneMoreFrom(sorted: seq<NodePtr>, k: nat, labels: seq<int>, which: seq<nat>)
    requires k < |sorted| && LabelsFrom(sorted, k, labels, which)
    ensures LabelsFrom(sorted, k + 1, labels, which) && LabelsFrom(sorted, k + 1, labels + [sorted[k].c], which + [k])
  {
  }

  method Emit(datums: seq<Str>, commonLen: nat, sorted: seq<NodePtr>)
    returns (labels: seq<int>, mapping: seq<nat>, rests: seq<Str>, ghost which: seq<nat>)
    requires InOrder(datums, commonLen, sorted)
    ensures |mapping| == |rests| == |datums|
    ensures Emitted(datums, commonLen, sorted, |sorted|, labels, mapping, rests)
    ensures LabelsFrom(sorted, |sorted|, labels, which)
  {
    var nodeOf, leaf := new nat[|datums|](_ => 0), new Str[|datums|](_ => []);
    labels, which := EmitAll(datums, commonLen, sorted, nodeOf, leaf);
    mapping, rests := nodeOf[..], leaf[..];
  }

  method EmitAll(datums: seq<Str>, commonLen: nat, sorted: seq<NodePtr>, nodeOf: array<nat>, leaf: array<Str>)
    returns (labels: seq<int>, ghost which: seq<nat>)
    requires nodeOf.Length == leaf.Length == |datums| && EmitInv(datums, commonLen, sorted, 0, [], nodeOf[..], leaf[..])
    modifies nodeOf, leaf
    ensures EmitInv(datums, commonLen, sorted, |sorted|, labels, nodeOf[..], leaf[..])
    ensures LabelsFrom(sorted, |sorted|, labels, which)
  {
    labels, which := [], [];
    var k: nat := 0;
    while k < |sorted|
      invariant k <= |sorted| && LabelsFrom(sorted, k, labels, which)
      invariant EmitInv(datums, commonLen, sorted, k, labels, nodeOf[..], leaf[..])
    {
      labels, which := EmitOne(datums, commonLen, sorted, k, labels, which, nodeOf, leaf);
      k := k + 1;
    }
  }

  method EmitOne(datums: seq<Str>, commonLen: nat, sorted: seq<NodePtr>, k: nat, labels: seq<int>, ghost which: seq<nat>,
                 nodeOf: array<nat>, leaf: array<Str>)
    returns (labels': seq<int>, ghost which': seq<nat>)
    requires k < |sorted| && nodeOf.Length == leaf.Length == |datums|
    requires EmitInv(datums, commonLen, sorted, k, labels, nodeOf[..], leaf[..]) && LabelsFrom(sorted, k, labels, which)
    modifies nodeOf, leaf
    ensures EmitInv(datums, commonLen, sorted, k + 1, labels', nodeOf[..], leaf[..])
    ensures LabelsFrom(sorted, k + 1, labels', which')
  {
    OneMoreFrom(sorted, k, labels, which);
    ghost var m0: seq<nat>, r0 := nodeOf[..], leaf[..];
    var texti := sorted[k].d;
    labels', which' := labels, which;
    if k == 0 || sorted[k].c != sorted[k - 1].c {
      labels', which' := labels + [sorted[k].c], which + [k];
    }
    var leafD := if commonLen < |texti| then texti[commonLen + 1..] else [];
    EmitStep(datums, commonLen, sorted, k, labels, m0, r0, labels', leafD);
    leaf[sorted[k].i] := leafD;
    nodeOf[sorted[k].i] := |labels'| - 1;
    assert nodeOf[..] == m0[sorted[k].i := |labels'| - 1] && leaf[..] == r0[sorted[k].i := leafD];
  }

  method PickSplit(datums: seq<Str>, maxPrefix: nat)
    returns (prefix: Str, labels: seq<int>, mapping: seq<nat>, rests: seq<Str>)
    requires datums != []
    ensures SplitOk(datums, prefix, labels, mapping, rests)
    ensures exists longest: nat :: Longest(datums, longest) && |prefix| == if longest < maxPrefix then longest else maxPrefix
    ensures AllUsed(labels, mapping)
  {
    var commonLen := LongestPrefix(datums);
    ghost var longest := commonLen;
    if maxPrefix < commonLen {
      ShorterPrefix(datums, |datums|, commonLen, maxPrefix);
      commonLen := maxPrefix;
    }
    prefix := datums[0][..commonLen];
    var nodes := LabelValues(datums, commonLen);
    var sorted := SortNodes(nodes);
    SortedValues(datums, commonLen, nodes, sorted);
    ghost var which;
    labels, mapping, rests, which := Emit(datums, commonLen, sorted);
    AllEmitted(datums, commonLen, sorted, labels, mapping, rests);
    EachLabelUsed(datums, commonLen, sorted, labels, mapping, rests, which);
    assert Longest(datums, longest);
  }

  /** Some value goes to each node. */
  ghost predicate AllUsed(labels: seq<int>, mapping: seq<nat>) { forall m | 0 <= m < |labels| :: m in mapping }

  lemma EachLabelUsed(datums: seq<Str>, commonLen: nat, sorted: seq<NodePtr>, labels: seq<int>, mapping: seq<nat>, rests: seq<Str>,
                      which: seq<nat>)
    requires InOrder(datums, commonLen, sorted) && |mapping| == |rests| == |datums|
    requires Emitted(datums, commonLen, sorted, |sorted|, labels, mapping, rests)
    requires LabelsFrom(sorted, |sorted|, labels, which)
    ensures AllUsed(labels, mapping)
  {
    forall m: nat | m < |labels| ensures m in mapping {
      var i := sorted[which[m]].i;
      assert ValueOk(datums, commonLen, i, labels, mapping, rests);
      SamePlace(labels, mapping[i], m);
    }
  }

  lemma SamePlace(labels: seq<int>, a: nat, b: nat)
    requires Increasing(labels) && a < |labels| && b < |labels| && labels[a] == labels[b]
    ensures a == b
  {
  }

  lemma SpelledBack(d: Str, prefix: Str, rest: Str)
    requires prefix <= d && rest == if |prefix| < |d| then d[|prefix| + 1..] else []
    ensures d == prefix + LabelBytes(NextLabel(d, |prefix|)) + rest
  {
  }

  lemma AllEmitted(datums: seq<Str>, commonLen: nat, sorted: seq<NodePtr>, labels: seq<int>, mapping: seq<nat>, rests: seq<Str>)
    requires datums != [] && |mapping| == |rests| == |datums|
    requires forall i | 0 <= i < |datums| :: commonLen <= |datums[i]|
    requires forall i | 0 <= i < |datums| :: commonLen <= |datums[0]| && datums[i][..commonLen] == datums[0][..commonLen]
    requires forall i | 0 <= i < |datums| :: HasValue(sorted, i)
    requires Emitted(datums, commonLen, sorted, |sorted|, labels, mapping, rests)
    ensures SplitOk(datums, datums[0][..commonLen], labels, mapping, rests)
  {
    var prefix := datums[0][..commonLen];
    forall i | 0 <= i < |datums|
      ensures mapping[i] < |labels| && labels[mapping[i]] == NextLabel(datums[i], |prefix|) && prefix <= datums[i]
      ensures datums[i] == prefix + LabelBytes(NextLabel(datums[i], |prefix|)) + rests[i]
    {
      assert HasValue(sorted, i);
      var k :| 0 <= k < |sorted| && sorted[k].i == i;
      assert ValueOk(datums, commonLen, sorted[k].i, labels, mapping, rests);
      assert datums[i][..commonLen] == prefix;
      SpelledBack(datums[i], prefix, rests[i]);
    }
  }

  // ---- the core's check of the split ----

  /** The core forces several nodes when the old values all went to one: all nodes then
      get that node's label, and a new value with another label is left out. */
  method CheckAllTheSame(labels: seq<int>, mapping: seq<nat>, tooBig: bool)
    returns (same: bool, includeNew: bool, labels': seq<int>, mapping': seq<nat>)
    requires mapping != [] && forall i | 0 <= i < |mapping| :: mapping[i] < |labels|
    ensures |mapping'| == |mapping| && forall i | 0 <= i < |mapping| :: mapping'[i] < |labels'|
    ensures forall i | 0 <= i < |mapping| - 1 :: labels'[mapping'[i]] == labels[mapping[i]]
    ensures includeNew ==> labels'[mapping'[|mapping| - 1]] == labels[mapping[|mapping| - 1]]
    ensures !includeNew ==> tooBig && same
    ensures same ==> |mapping| > 1 && |labels'| == 8 && AllEqual(labels') && labels'[0] in labels
    ensures same ==> labels'[0] == labels[mapping[0]]
    ensures !same ==> labels' == labels && mapping' == mapping
    ensures tooBig && |mapping| > 2 ==> SeveralNodes(mapping', |mapping| - 1)
    ensures !tooBig && |mapping| > 1 ==> SeveralNodes(mapping', |mapping|)
  {
    same, includeNew, labels', mapping' := false, true, labels, mapping;
    if |mapping| <= 1 {
      return;
    }
    var limit := if tooBig then |mapping| - 1 else |mapping|;
    var theNode := mapping[0];
    var i := 1;
    while i < limit
      invariant 1 <= i <= limit
      invariant forall k | 0 <= k < i :: mapping[k] == theNode
    {
      if mapping[i] != theNode {
        assert mapping'[0] != mapping'[i];
        return;
      }
      i := i + 1;
    }
    if tooBig && mapping[|mapping| - 1] != theNode {
      includeNew := false;
    }
    mapping' := seq(|mapping|, k requires 0 <= k < |mapping| => k % 8);
    labels' := seq(8, _ => labels[theNode]);
    same := true;
    if limit > 1 { assert mapping'[0] != mapping'[1]; }
  }

  /** Not all of the first `n` values went to the same node. */
  ghost predicate SeveralNodes(mapping: seq<nat>, n: nat) {
    n <= |mapping| && exists j, k :: 0 <= j < k < n && mapping[j] != mapping[k]
  }
}
