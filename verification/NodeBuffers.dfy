/** Node buffers of a buffering index build: each is a stack of index tuples whose pages,
    but for the topmost, live in blocks of one temporary file that all buffers share. */
module NodeBuffers {
  import opened Lists

  /** An index tuple and the aligned space it takes. */
  datatype Tuple = Tuple(id: nat, size: nat)

  const NONE: nat := 0xFFFF_FFFF

  /** A buffer page: the block below it and its tuples, the last one on top. */
  datatype Page = Page(prev: nat, tuples: seq<Tuple>, free: nat)

  /** Buffers belong to index pages; one more is a copy made while a page is being split. */
  datatype Key = Node(blk: nat) | Temp

  datatype Loaded = InMemory(page: Page) | SwappedOut

  datatype Buf = Buf(blocksCount: nat, page: Loaded, pageBlocknum: nat, queued: bool)

  const EMPTY: Buf := Buf(0, SwappedOut, NONE, false)

  function TotalSize(ts: seq<Tuple>): nat { if ts == [] then 0 else TotalSize(ts[..|ts| - 1]) + ts[|ts| - 1].size }

  predicate TupleOk(t: Tuple, capacity: nat) { 0 < t.size <= capacity }

  /** The free space tells whether the page holds tuples. */
  ghost predicate PageOk(p: Page, capacity: nat) {
    && p.free + TotalSize(p.tuples) == capacity
    && forall k | 0 <= k < |p.tuples| :: TupleOk(p.tuples[k], capacity)
  }

  function Top(c: seq<nat>): nat { if c == [] then NONE else c[|c| - 1] }

  /** The blocks `c`, from the bottom up, are linked and none is empty. */
  ghost predicate Chained(file: map<nat, Page>, c: seq<nat>, capacity: nat) {
    forall i {:trigger LinkOk(file, c, i, capacity)} | 0 <= i < |c| :: LinkOk(file, c, i, capacity)
  }

  ghost predicate LinkOk(file: map<nat, Page>, c: seq<nat>, i: nat, capacity: nat)
    requires i < |c|
  {
    c[i] in file && PageOk(file[c[i]], capacity) && file[c[i]].tuples != [] && file[c[i]].prev == Top(c[..i])
  }

  ghost predicate BufOk(file: map<nat, Page>, b: Buf, c: seq<nat>, capacity: nat) {
    Chained(file, c, capacity) &&
    match b.page
    case InMemory(p) => b.blocksCount == |c| + 1 && PageOk(p, capacity) && p.tuples != [] && p.prev == Top(c)
    case SwappedOut => b.blocksCount == |c| && (c != [] ==> b.pageBlocknum == Top(c))
  }

  /** The tuples in the blocks, from the bottom up. */
  ghost function Swapped(file: map<nat, Page>, c: seq<nat>): seq<Tuple> {
    if c == [] then [] else
      Swapped(file, c[..|c| - 1]) + if Top(c) in file then file[Top(c)].tuples else []
  }

  /** A buffer's content: the last tuple was pushed last. */
  ghost function Stack(file: map<nat, Page>, b: Buf, c: seq<nat>): seq<Tuple> {
    Swapped(file, c) + if b.page.InMemory? then b.page.page.tuples else []
  }

  // ---- who owns a block ----

  type Chains = map<Key, seq<nat>>

  /** Each block of the file is free or in one chain, and at one place only. */
  ghost predicate BlocksOk(chains: Chains, free: seq<nat>, n: nat) {
    && n <= NONE && NoDup(free) && (forall x | x in free :: x < n)
    && (forall k {:trigger ChainOk(chains[k], free, n)} | k in chains :: ChainOk(chains[k], free, n))
    && (forall j, k {:trigger Apart(chains[j], chains[k])} | j in chains && k in chains && j != k :: Apart(chains[j], chains[k]))
    && forall x: nat {:trigger Used(chains, x)} | x < n && x !in free :: Used(chains, x)
  }

  ghost predicate ChainOk(c: seq<nat>, free: seq<nat>, n: nat) {
    NoDup(c) && forall x | x in c :: x < n && x !in free
  }

  ghost predicate Apart(c: seq<nat>, d: seq<nat>) { forall x | x in c :: x !in d }

  ghost predicate Used(chains: Chains, x: nat) { exists k :: k in chains && x in chains[k] }

  /** The next block to write to: the last freed one, or a new one at the end of the file. */
  function FreeBlock(free: seq<nat>, n: nat): nat { if free == [] then n else free[|free| - 1] }

  lemma DropLast(c: seq<nat>)
    requires c != [] && NoDup(c)
    ensures c == c[..|c| - 1] + [c[|c| - 1]] && NoDup(c[..|c| - 1]) && c[|c| - 1] !in c[..|c| - 1]
  {
  }

  lemma BlockTaken(chains: Chains, free: seq<nat>, n: nat, k: Key, free': seq<nat>, n': nat)
    requires BlocksOk(chains, free, n) && k in chains && n' <= NONE
    requires free' == (if free == [] then [] else free[..|free| - 1]) && n' == if free == [] then n + 1 else n
    ensures BlocksOk(chains[k := chains[k] + [FreeBlock(free, n)]], free', n')
    ensures forall j | j in chains :: FreeBlock(free, n) !in chains[j]
  {
    var b := FreeBlock(free, n);
    if free != [] { DropLast(free); }
    var chains' := chains[k := chains[k] + [b]];
    assert NoDup(free') && forall x | x in free' :: x in free;
    assert free != [] ==> b in free && b !in free';
    forall j | j in chains ensures b !in chains[j] && ChainOk(chains'[j], free', n') {
      assert ChainOk(chains[j], free, n);
    }
    forall i, j | i in chains' && j in chains' && i != j ensures Apart(chains'[i], chains'[j]) {
      assert Apart(chains[i], chains[j]) && Apart(chains[j], chains[i]);
    }
    forall x: nat | x < n' && x !in free' ensures Used(chains', x) {
      if x == b {
        assert x in chains'[k];
      } else {
        assert x !in free && Used(chains, x);
        var j :| j in chains && x in chains[j];
        assert x in chains'[j];
      }
    }
  }

  lemma BlockReleased(chains: Chains, free: seq<nat>, n: nat, k: Key)
    requires BlocksOk(chains, free, n) && k in chains && chains[k] != []
    ensures BlocksOk(chains[k := chains[k][..|chains[k]| - 1]], free + [Top(chains[k])], n)
  {
    var c, b, free' := chains[k], Top(chains[k]), free + [Top(chains[k])];
    var d := c[..|c| - 1];
    var chains' := chains[k := d];
    assert ChainOk(c, free, n);
    DropLast(c);
    assert b in c && b !in free && b < n;
    assert NoDup(free') && forall x | x in free' :: x < n;
    forall j | j in chains' ensures ChainOk(chains'[j], free', n) {
      ChainWithout(chains, free, n, k, j, b);
    }
    forall i, j | i in chains' && j in chains' && i != j ensures Apart(chains'[i], chains'[j]) {
      assert Apart(chains[i], chains[j]) && Apart(chains[j], chains[i]);
      assert forall x | x in d :: x in c;
    }
    forall x: nat | x < n && x !in free' ensures Used(chains', x) {
      assert x !in free && Used(chains, x);
      var j :| j in chains && x in chains[j];
      assert x in c ==> x in d || x == b;
      assert x in chains'[j];
    }
  }

  lemma ChainWithout(chains: Chains, free: seq<nat>, n: nat, k: Key, j: Key, b: nat)
    requires BlocksOk(chains, free, n) && k in chains && j in chains && chains[k] != [] && b == Top(chains[k])
    ensures j == k ==> ChainOk(chains[k][..|chains[k]| - 1], free + [b], n)
    ensures j != k ==> ChainOk(chains[j], free + [b], n)
  {
    var c := chains[j];
    assert ChainOk(c, free, n);
    if j == k {
      DropLast(c);
      var d := c[..|c| - 1];
      forall x | x in d ensures x < n && x !in free + [b] {
        assert x in c && x != b;
      }
    } else {
      assert Apart(chains[k], c) && b in chains[k];
    }
  }

  // ---- changing one buffer ----

  lemma Shorter(file: map<nat, Page>, c: seq<nat>, capacity: nat)
    requires c != [] && Chained(file, c, capacity)
    ensures Chained(file, c[..|c| - 1], capacity) && LinkOk(file, c, |c| - 1, capacity)
  {
    var d := c[..|c| - 1];
    forall i | 0 <= i < |d| ensures LinkOk(file, d, i, capacity) {
      assert d[..i] == c[..i] && LinkOk(file, c, i, capacity);
    }
  }

  lemma Longer(file: map<nat, Page>, c: seq<nat>, b: nat, capacity: nat)
    requires Chained(file, c, capacity) && b in file
    requires PageOk(file[b], capacity) && file[b].tuples != [] && file[b].prev == Top(c)
    ensures Chained(file, c + [b], capacity)
  {
    var d := c + [b];
    forall i | 0 <= i < |d| ensures LinkOk(file, d, i, capacity) {
      assert d[..i] == c[..i];
      assert i < |c| ==> LinkOk(file, c, i, capacity);
    }
  }

  lemma {:induction false} SameChain(file: map<nat, Page>, file': map<nat, Page>, c: seq<nat>, capacity: nat)
    requires Chained(file, c, capacity) && forall x | x in c && x in file :: x in file' && file'[x] == file[x]
    ensures Chained(file', c, capacity) && Swapped(file', c) == Swapped(file, c)
    decreases |c|
  {
    if c != [] {
      Shorter(file, c, capacity);
      var d, b := c[..|c| - 1], c[|c| - 1];
      assert b in c && c == d + [b];
      SameChain(file, file', d, capacity);
      Longer(file', d, b, capacity);
    }
  }

  lemma ChainGrows(file: map<nat, Page>, c: seq<nat>, b: nat, p: Page, capacity: nat)
    requires Chained(file, c, capacity) && b !in c && PageOk(p, capacity) && p.tuples != [] && p.prev == Top(c)
    ensures Chained(file[b := p], c + [b], capacity)
    ensures Swapped(file[b := p], c + [b]) == Swapped(file, c) + p.tuples
  {
    SameChain(file, file[b := p], c, capacity);
    Longer(file[b := p], c, b, capacity);
    assert (c + [b])[..|c|] == c;
  }

  lemma ChainShrinks(file: map<nat, Page>, c: seq<nat>, capacity: nat)
    requires Chained(file, c, capacity) && c != []
    ensures Chained(file, c[..|c| - 1], capacity)
    ensures Top(c) in file && file[Top(c)].prev == Top(c[..|c| - 1])
    ensures PageOk(file[Top(c)], capacity) && file[Top(c)].tuples != []
    ensures Swapped(file, c) == Swapped(file, c[..|c| - 1]) + file[Top(c)].tuples
  {
    Shorter(file, c, capacity);
  }

  /** All that the buffers keep, in memory and in the file. */
  datatype Store = Store(file: map<nat, Page>, nFileBlocks: nat, freeBlocks: seq<nat>, tab: map<Key, Buf>,
                         loaded: seq<Key>, queue: seq<Key>)

  ghost predicate StoreOk(s: Store, chains: Chains, capacity: nat) {
    && chains.Keys == s.tab.Keys && BlocksOk(chains, s.freeBlocks, s.nFileBlocks)
    && (forall k {:trigger BufOk(s.file, s.tab[k], chains[k], capacity)} | k in s.tab :: BufOk(s.file, s.tab[k], chains[k], capacity))
    && ListsOk(s.tab, s.loaded, s.queue)
  }

  /** Every page in memory is known to the list of loaded buffers; a buffer is queued for
      emptying at most once, and its flag says so. */
  ghost predicate ListsOk(tab: map<Key, Buf>, loaded: seq<Key>, queue: seq<Key>) {
    && (forall k | k in loaded :: k in tab && k.Node?)
    && (forall k | k in tab && k.Node? && tab[k].page.InMemory? :: k in loaded)
    && (forall i, j | 0 <= i < j < |queue| :: queue[i] != queue[j])
    && forall k: Key :: k in queue <==> k in tab && k.Node? && tab[k].queued
  }

  ghost function Stacks(s: Store, chains: Chains): map<Key, seq<Tuple>> {
    map k | k in s.tab && k in chains :: Stack(s.file, s.tab[k], chains[k])
  }

  ghost predicate SameForOthers(file: map<nat, Page>, file': map<nat, Page>, chains: Chains, k: Key) {
    forall j | j in chains && j != k :: SameFor(file, file', chains[j])
  }

  ghost predicate SameFor(file: map<nat, Page>, file': map<nat, Page>, c: seq<nat>) {
    forall x | x in c && x in file :: x in file' && file'[x] == file[x]
  }

  /** A change to one buffer, its chain and blocks of no other chain leaves the other
      buffers as they were. */
  ghost predicate OneChanged(s: Store, chains: Chains, s': Store, chains': Chains, k: Key, b: Buf, c: seq<nat>, capacity: nat) {
    && StoreOk(s, chains, capacity) && k in s.tab && s'.tab == s.tab[k := b] && chains' == chains[k := c]
    && BlocksOk(chains', s'.freeBlocks, s'.nFileBlocks) && ListsOk(s'.tab, s'.loaded, s'.queue)
    && BufOk(s'.file, b, c, capacity) && SameForOthers(s.file, s'.file, chains, k)
  }

  lemma OneBuffer(s: Store, chains: Chains, s': Store, chains': Chains, k: Key, b: Buf, c: seq<nat>, capacity: nat)
    requires OneChanged(s, chains, s', chains', k, b, c, capacity)
    ensures StoreOk(s', chains', capacity)
    ensures Stacks(s', chains') == Stacks(s, chains)[k := Stack(s'.file, b, c)]
  {
    forall j | j in s'.tab ensures BufOk(s'.file, s'.tab[j], chains'[j], capacity) {
      if j != k { SameBuffer(s, chains, s', chains', k, b, c, capacity, j); }
    }
    SameStacks(s, chains, s', chains', k, b, c, capacity);
  }

  lemma SameStacks(s: Store, chains: Chains, s': Store, chains': Chains, k: Key, b: Buf, c: seq<nat>, capacity: nat)
    requires OneChanged(s, chains, s', chains', k, b, c, capacity)
    ensures Stacks(s', chains') == Stacks(s, chains)[k := Stack(s'.file, b, c)]
  {
    var m, m' := Stacks(s, chains), Stacks(s', chains');
    var v := Stack(s'.file, b, c);
    assert s'.tab.Keys == s.tab.Keys == chains.Keys == chains'.Keys;
    assert m.Keys == s.tab.Keys && m'.Keys == s'.tab.Keys;
    forall j | j in m ensures m'[j] == if j == k then v else m[j] {
      if j != k { SameBuffer(s, chains, s', chains', k, b, c, capacity, j); }
    }
    Pointwise(m, m', k, v);
  }

  lemma Pointwise(m: map<Key, seq<Tuple>>, m': map<Key, seq<Tuple>>, k: Key, v: seq<Tuple>)
    requires m'.Keys == m.Keys && k in m && forall j | j in m :: m'[j] == if j == k then v else m[j]
    ensures m' == m[k := v]
  {
    forall j | j in m' ensures j in m[k := v] && m'[j] == m[k := v][j] { }
  }

  lemma SameBuffer(s: Store, chains: Chains, s': Store, chains': Chains, k: Key, b: Buf, c: seq<nat>, capacity: nat, j: Key)
    requires OneChanged(s, chains, s', chains', k, b, c, capacity) && j != k && j in s.tab
    ensures j in chains && s'.tab[j] == s.tab[j] && chains'[j] == chains[j]
    ensures BufOk(s'.file, s.tab[j], chains[j], capacity)
    ensures Stack(s'.file, s.tab[j], chains[j]) == Stack(s.file, s.tab[j], chains[j])
  {
    assert BufOk(s.file, s.tab[j], chains[j], capacity) && SameFor(s.file, s'.file, chains[j]);
    OtherBuffer(s.file, s'.file, s.tab[j], chains[j], capacity);
  }

  lemma OtherBuffer(file: map<nat, Page>, file': map<nat, Page>, b: Buf, c: seq<nat>, capacity: nat)
    requires BufOk(file, b, c, capacity) && SameFor(file, file', c)
    ensures BufOk(file', b, c, capacity) && Stack(file', b, c) == Stack(file, b, c)
  {
    SameChain(file, file', c, capacity);
  }

  lemma ListsKept(tab: map<Key, Buf>, loaded: seq<Key>, queue: seq<Key>, k: Key, b: Buf, loaded': seq<Key>)
    requires ListsOk(tab, loaded, queue) && k in tab && b.queued == tab[k].queued
    requires loaded' == loaded || loaded' == MarkLoaded(loaded, k)
    requires b.page.InMemory? && k.Node? ==> k in loaded'
    ensures ListsOk(tab[k := b], loaded', queue)
  {
    forall j | j in loaded' ensures j in tab[k := b] && j.Node? { assert j in loaded || (j == k && k.Node?); }
    assert forall j | j in loaded :: j in loaded';
  }

  // ---- the steps of the operations ----

  function MarkLoaded(loaded: seq<Key>, k: Key): seq<Key> { if k.Node? then loaded + [k] else loaded }

  /** The topmost page is read back and its block given free. */
  function LoadStep(s: Store, k: Key): Store
    requires k in s.tab && s.tab[k].pageBlocknum in s.file
  {
    var b := s.tab[k];
    s.(tab := s.tab[k := b.(page := InMemory(s.file[b.pageBlocknum]), pageBlocknum := NONE)],
       freeBlocks := s.freeBlocks + [b.pageBlocknum], loaded := MarkLoaded(s.loaded, k))
  }

  ghost function WithoutTop(chains: Chains, k: Key): Chains
    requires k in chains && chains[k] != []
  {
    chains[k := chains[k][..|chains[k]| - 1]]
  }

  lemma LoadOk(s: Store, chains: Chains, k: Key, capacity: nat)
    requires StoreOk(s, chains, capacity) && k in s.tab && s.tab[k].page.SwappedOut? && s.tab[k].blocksCount > 0
    ensures chains[k] != [] && s.tab[k].pageBlocknum in s.file
    ensures StoreOk(LoadStep(s, k), WithoutTop(chains, k), capacity)
    ensures Stacks(LoadStep(s, k), WithoutTop(chains, k)) == Stacks(s, chains)
  {
    var b, c := s.tab[k], chains[k];
    assert BufOk(s.file, b, c, capacity);
    ChainShrinks(s.file, c, capacity);
    var s', chains' := LoadStep(s, k), WithoutTop(chains, k);
    BlockReleased(chains, s.freeBlocks, s.nFileBlocks, k);
    ListsKept(s.tab, s.loaded, s.queue, k, s'.tab[k], s'.loaded);
    OneBuffer(s, chains, s', chains', k, s'.tab[k], chains'[k], capacity);
    assert Stack(s'.file, s'.tab[k], chains'[k]) == Stack(s.file, b, c);
  }

  function TakeBlock(s: Store): Store {
    s.(freeBlocks := if s.freeBlocks == [] then [] else s.freeBlocks[..|s.freeBlocks| - 1],
       nFileBlocks := if s.freeBlocks == [] then s.nFileBlocks + 1 else s.nFileBlocks)
  }

  /** The page in memory is written to a free block. */
  function WriteStep(s: Store, p: Page): Store {
    TakeBlock(s).(file := s.file[FreeBlock(s.freeBlocks, s.nFileBlocks) := p])
  }

  ghost function WithBlock(s: Store, chains: Chains, k: Key): Chains
    requires k in chains
  {
    chains[k := chains[k] + [FreeBlock(s.freeBlocks, s.nFileBlocks)]]
  }

  lemma WriteOk(s: Store, chains: Chains, k: Key, p: Page, capacity: nat)
    requires StoreOk(s, chains, capacity) && k in s.tab && s.tab[k].page == InMemory(p) && s.nFileBlocks < NONE
    ensures var s', chains' := WriteStep(s, p), WithBlock(s, chains, k);
      && BlocksOk(chains', s'.freeBlocks, s'.nFileBlocks) && SameForOthers(s.file, s'.file, chains, k)
      && Chained(s'.file, chains'[k], capacity) && Swapped(s'.file, chains'[k]) == Stack(s.file, s.tab[k], chains[k])
      && s.tab[k].blocksCount == |chains'[k]| && Top(chains'[k]) == FreeBlock(s.freeBlocks, s.nFileBlocks)
  {
    var c, b := chains[k], FreeBlock(s.freeBlocks, s.nFileBlocks);
    assert BufOk(s.file, s.tab[k], c, capacity);
    BlockTaken(chains, s.freeBlocks, s.nFileBlocks, k, TakeBlock(s).freeBlocks, TakeBlock(s).nFileBlocks);
    ChainGrows(s.file, c, b, p, capacity);
    forall j | j in chains && j != k ensures SameFor(s.file, s.file[b := p], chains[j]) { }
  }

  function UnloadStep(s: Store, k: Key, p: Page): Store
    requires k in s.tab
  {
    WriteStep(s, p).(tab := s.tab[k := s.tab[k].(page := SwappedOut, pageBlocknum := FreeBlock(s.freeBlocks, s.nFileBlocks))])
  }

  lemma UnloadOk(s: Store, chains: Chains, k: Key, p: Page, capacity: nat)
    requires StoreOk(s, chains, capacity) && k in s.tab && s.tab[k].page == InMemory(p) && s.nFileBlocks < NONE
    ensures StoreOk(UnloadStep(s, k, p), WithBlock(s, chains, k), capacity)
    ensures Stacks(UnloadStep(s, k, p), WithBlock(s, chains, k)) == Stacks(s, chains)
  {
    var s', chains' := UnloadStep(s, k, p), WithBlock(s, chains, k);
    WriteOk(s, chains, k, p, capacity);
    ListsKept(s.tab, s.loaded, s.queue, k, s'.tab[k], s'.loaded);
    OneBuffer(s, chains, s', chains', k, s'.tab[k], chains'[k], capacity);
    assert Stack(s'.file, s'.tab[k], chains'[k]) == Stack(s.file, s.tab[k], chains[k]);
  }

  // ---- pushing ----

  function NewPage(prev: nat, capacity: nat): Page { Page(prev, [], capacity) }

  function Placed(p: Page, t: Tuple): Page
    requires t.size <= p.free
  {
    Page(p.prev, p.tuples + [t], p.free - t.size)
  }

  lemma PlacedOk(p: Page, t: Tuple, capacity: nat)
    requires PageOk(p, capacity) && TupleOk(t, capacity) && t.size <= p.free
    ensures PageOk(Placed(p, t), capacity) && Placed(p, t).tuples != []
  {
    assert (p.tuples + [t])[..|p.tuples|] == p.tuples;
  }

  /** The buffer with a page in memory, which becomes known to the list of loaded buffers. */
  function WithPage(s: Store, k: Key, count: nat, p: Page, loaded: seq<Key>): Store
    requires k in s.tab
  {
    s.(tab := s.tab[k := s.tab[k].(blocksCount := count, page := InMemory(p))], loaded := loaded)
  }

  ghost function Pushed(s: Store, chains: Chains, k: Key, t: Tuple): map<Key, seq<Tuple>>
    requires k in s.tab && k in chains
  {
    Stacks(s, chains)[k := Stack(s.file, s.tab[k], chains[k]) + [t]]
  }

  lemma PushFirst(s: Store, chains: Chains, k: Key, t: Tuple, capacity: nat)
    requires StoreOk(s, chains, capacity) && k in s.tab && s.tab[k].blocksCount == 0 && TupleOk(t, capacity)
    ensures var s' := WithPage(s, k, 1, Placed(NewPage(NONE, capacity), t), MarkLoaded(s.loaded, k));
            StoreOk(s', chains, capacity) && Stacks(s', chains) == Pushed(s, chains, k, t)
  {
    var p := Placed(NewPage(NONE, capacity), t);
    var s' := WithPage(s, k, 1, p, MarkLoaded(s.loaded, k));
    assert BufOk(s.file, s.tab[k], chains[k], capacity);
    PlacedOk(NewPage(NONE, capacity), t, capacity);
    ListsKept(s.tab, s.loaded, s.queue, k, s'.tab[k], s'.loaded);
    OneBuffer(s, chains, s', chains, k, s'.tab[k], chains[k], capacity);
    assert Stack(s'.file, s'.tab[k], chains[k]) == Stack(s.file, s.tab[k], chains[k]) + [t];
  }

  lemma PushOnPage(s: Store, chains: Chains, k: Key, p: Page, t: Tuple, capacity: nat)
    requires StoreOk(s, chains, capacity) && k in s.tab && s.tab[k].page == InMemory(p)
    requires TupleOk(t, capacity) && t.size <= p.free
    ensures var s' := WithPage(s, k, s.tab[k].blocksCount, Placed(p, t), s.loaded);
            StoreOk(s', chains, capacity) && Stacks(s', chains) == Pushed(s, chains, k, t)
  {
    var s' := WithPage(s, k, s.tab[k].blocksCount, Placed(p, t), s.loaded);
    assert BufOk(s.file, s.tab[k], chains[k], capacity);
    PlacedOk(p, t, capacity);
    ListsKept(s.tab, s.loaded, s.queue, k, s'.tab[k], s'.loaded);
    OneBuffer(s, chains, s', chains, k, s'.tab[k], chains[k], capacity);
    assert Stack(s'.file, s'.tab[k], chains[k]) == Stack(s.file, s.tab[k], chains[k]) + [t];
  }

  /** The full page goes to the file, and a new one is put on top of it. */
  lemma PushOverflow(s: Store, chains: Chains, k: Key, p: Page, t: Tuple, q: Page, s': Store, chains': Chains, capacity: nat)
    requires StoreOk(s, chains, capacity) && k in s.tab && s.tab[k].page == InMemory(p)
    requires TupleOk(t, capacity) && s.nFileBlocks < NONE
    requires q == Placed(NewPage(FreeBlock(s.freeBlocks, s.nFileBlocks), capacity), t) && chains' == WithBlock(s, chains, k)
    requires s' == WithPage(WriteStep(s, p), k, s.tab[k].blocksCount + 1, q, s.loaded)
    ensures StoreOk(s', chains', capacity) && Stacks(s', chains') == Pushed(s, chains, k, t)
  {
    WriteOk(s, chains, k, p, capacity);
    PlacedOk(NewPage(FreeBlock(s.freeBlocks, s.nFileBlocks), capacity), t, capacity);
    OverflowChanges(s, chains, k, q, t, s', chains', capacity);
    OneBuffer(s, chains, s', chains', k, s'.tab[k], chains'[k], capacity);
  }

  lemma OverflowChanges(s: Store, chains: Chains, k: Key, q: Page, t: Tuple, s': Store, chains': Chains, capacity: nat)
    requires StoreOk(s, chains, capacity) && k in s.tab && s.tab[k].page.InMemory?
    requires k in chains' && chains' == chains[k := chains'[k]]
    requires s'.tab == s.tab[k := s.tab[k].(blocksCount := s.tab[k].blocksCount + 1, page := InMemory(q))]
    requires s'.loaded == s.loaded && s'.queue == s.queue
    requires BlocksOk(chains', s'.freeBlocks, s'.nFileBlocks) && SameForOthers(s.file, s'.file, chains, k)
    requires Chained(s'.file, chains'[k], capacity) && Swapped(s'.file, chains'[k]) == Stack(s.file, s.tab[k], chains[k])
    requires s.tab[k].blocksCount == |chains'[k]| && PageOk(q, capacity) && q.tuples == [t] && q.prev == Top(chains'[k])
    ensures OneChanged(s, chains, s', chains', k, s'.tab[k], chains'[k], capacity)
    ensures Stack(s'.file, s'.tab[k], chains'[k]) == Stack(s.file, s.tab[k], chains[k]) + [t]
  {
    ListsKept(s.tab, s.loaded, s.queue, k, s'.tab[k], s'.loaded);
  }

  /** The buffer is put in front of those waiting to be emptied. */
  function EnqueueStep(s: Store, k: Key): Store
    requires k in s.tab
  {
    s.(tab := s.tab[k := s.tab[k].(queued := true)], queue := [k] + s.queue)
  }

  lemma EnqueueOk(s: Store, chains: Chains, k: Key, capacity: nat)
    requires StoreOk(s, chains, capacity) && k in s.tab && k.Node? && !s.tab[k].queued
    ensures StoreOk(EnqueueStep(s, k), chains, capacity) && Stacks(EnqueueStep(s, k), chains) == Stacks(s, chains)
  {
    var s' := EnqueueStep(s, k);
    assert BufOk(s.file, s.tab[k], chains[k], capacity);
    QueueGrows(s.tab, s.loaded, s.queue, k, s'.tab[k]);
    OneBuffer(s, chains, s', chains, k, s'.tab[k], chains[k], capacity);
    assert Stack(s'.file, s'.tab[k], chains[k]) == Stack(s.file, s.tab[k], chains[k]);
  }

  lemma QueueGrows(tab: map<Key, Buf>, loaded: seq<Key>, queue: seq<Key>, k: Key, b: Buf)
    requires ListsOk(tab, loaded, queue) && k in tab && k.Node? && !tab[k].queued && b == tab[k].(queued := true)
    ensures ListsOk(tab[k := b], loaded, [k] + queue)
  {
    assert k !in queue;
    var queue' := [k] + queue;
    forall i, j | 0 <= i < j < |queue'| ensures queue'[i] != queue'[j] {
      assert queue'[j] == queue[j - 1] && queue[j - 1] in queue;
      assert i > 0 ==> queue'[i] == queue[i - 1];
    }
    forall j: Key ensures j in queue' <==> j in tab[k := b] && j.Node? && tab[k := b][j].queued {
      assert j in queue' <==> j == k || j in queue;
    }
  }

  // ---- popping ----

  function Taken(p: Page): Page
    requires p.tuples != []
  {
    var t := p.tuples[|p.tuples| - 1];
    Page(p.prev, p.tuples[..|p.tuples| - 1], p.free + t.size)
  }

  lemma TakenOk(p: Page, capacity: nat)
    requires PageOk(p, capacity) && p.tuples != []
    ensures PageOk(Taken(p), capacity) && (Taken(p).free == capacity <==> Taken(p).tuples == [])
    ensures TupleOk(p.tuples[|p.tuples| - 1], capacity)
  {
    if Taken(p).tuples != [] { SizesAdd(Taken(p).tuples, capacity); }
  }

  lemma SizesAdd(ts: seq<Tuple>, capacity: nat)
    requires ts != [] && forall k | 0 <= k < |ts| :: TupleOk(ts[k], capacity)
    ensures TotalSize(ts) > 0
  {
  }

  ghost function Popped(s: Store, chains: Chains, k: Key): map<Key, seq<Tuple>>
    requires k in s.tab && k in chains && Stack(s.file, s.tab[k], chains[k]) != []
  {
    var st := Stack(s.file, s.tab[k], chains[k]);
    Stacks(s, chains)[k := st[..|st| - 1]]
  }

  lemma TopOfStack(s: Store, chains: Chains, k: Key, p: Page, capacity: nat)
    requires StoreOk(s, chains, capacity) && k in s.tab && s.tab[k].page == InMemory(p)
    ensures var st := Stack(s.file, s.tab[k], chains[k]);
            st != [] && p.tuples != [] && st[|st| - 1] == p.tuples[|p.tuples| - 1]
            && st[..|st| - 1] == Swapped(s.file, chains[k]) + p.tuples[..|p.tuples| - 1]
  {
    assert BufOk(s.file, s.tab[k], chains[k], capacity);
  }

  lemma PopOnPage(s: Store, chains: Chains, k: Key, p: Page, s': Store, capacity: nat)
    requires StoreOk(s, chains, capacity) && k in s.tab && s.tab[k].page == InMemory(p)
    requires p.tuples != [] && Taken(p).tuples != [] && Stack(s.file, s.tab[k], chains[k]) != []
    requires s' == WithPage(s, k, s.tab[k].blocksCount, Taken(p), s.loaded)
    ensures StoreOk(s', chains, capacity) && Stacks(s', chains) == Popped(s, chains, k)
  {
    SmallerPage(s, chains, k, p, s', capacity);
    OneBuffer(s, chains, s', chains, k, s'.tab[k], chains[k], capacity);
  }

  lemma SmallerPage(s: Store, chains: Chains, k: Key, p: Page, s': Store, capacity: nat)
    requires StoreOk(s, chains, capacity) && k in s.tab && s.tab[k].page == InMemory(p)
    requires p.tuples != [] && Taken(p).tuples != [] && s' == WithPage(s, k, s.tab[k].blocksCount, Taken(p), s.loaded)
    ensures OneChanged(s, chains, s', chains, k, s'.tab[k], chains[k], capacity)
    ensures var st := Stack(s.file, s.tab[k], chains[k]); st != [] && Stack(s'.file, s'.tab[k], chains[k]) == st[..|st| - 1]
  {
    TopOfStack(s, chains, k, p, capacity);
    assert BufOk(s.file, s.tab[k], chains[k], capacity);
    TakenOk(p, capacity);
    ListsKept(s.tab, s.loaded, s.queue, k, s'.tab[k], s'.loaded);
  }

  /** The page is used up: the one below is fetched and its block given free. */
  function FetchStep(s: Store, k: Key, prev: nat): Store
    requires k in s.tab && s.tab[k].blocksCount > 0 && prev in s.file
  {
    WithPage(s, k, s.tab[k].blocksCount - 1, s.file[prev], s.loaded).(freeBlocks := s.freeBlocks + [prev])
  }

  lemma PopFetch(s: Store, chains: Chains, k: Key, p: Page, capacity: nat)
    requires StoreOk(s, chains, capacity) && k in s.tab && s.tab[k].page == InMemory(p)
    requires p.tuples != [] && Taken(p).tuples == [] && p.prev != NONE && Stack(s.file, s.tab[k], chains[k]) != []
    ensures s.tab[k].blocksCount > 1 && p.prev in s.file && chains[k] != []
    ensures StoreOk(FetchStep(s, k, p.prev), WithoutTop(chains, k), capacity)
    ensures Stacks(FetchStep(s, k, p.prev), WithoutTop(chains, k)) == Popped(s, chains, k)
  {
    var c := chains[k];
    assert BufOk(s.file, s.tab[k], c, capacity);
    ChainShrinks(s.file, c, capacity);
    TopOfStack(s, chains, k, p, capacity);
    var s', chains' := FetchStep(s, k, p.prev), WithoutTop(chains, k);
    BlockReleased(chains, s.freeBlocks, s.nFileBlocks, k);
    ListsKept(s.tab, s.loaded, s.queue, k, s'.tab[k], s'.loaded);
    OneBuffer(s, chains, s', chains', k, s'.tab[k], chains'[k], capacity);
  }

  /** The last page is used up. */
  function DropStep(s: Store, k: Key): Store
    requires k in s.tab && s.tab[k].blocksCount > 0
  {
    s.(tab := s.tab[k := s.tab[k].(blocksCount := s.tab[k].blocksCount - 1, page := SwappedOut)])
  }

  lemma PopLast(s: Store, chains: Chains, k: Key, p: Page, capacity: nat)
    requires StoreOk(s, chains, capacity) && k in s.tab && s.tab[k].page == InMemory(p)
    requires p.tuples != [] && Taken(p).tuples == [] && p.prev == NONE && Stack(s.file, s.tab[k], chains[k]) != []
    ensures s.tab[k].blocksCount == 1
    ensures StoreOk(DropStep(s, k), chains, capacity) && Stacks(DropStep(s, k), chains) == Popped(s, chains, k)
  {
    var c := chains[k];
    assert BufOk(s.file, s.tab[k], c, capacity);
    assert ChainOk(c, s.freeBlocks, s.nFileBlocks);
    assert c != [] ==> Top(c) in c;
    TopOfStack(s, chains, k, p, capacity);
    var s' := DropStep(s, k);
    ListsKept(s.tab, s.loaded, s.queue, k, s'.tab[k], s'.loaded);
    OneBuffer(s, chains, s', chains, k, s'.tab[k], c, capacity);
  }
}
