/** The node buffers as they are kept during a build, and how the tuples of a buffer are
    dealt out when its index page is split. */
module BuildBuffers {
  import opened NodeBuffers

  datatype PopResult = Nothing | Item(t: Tuple)

  /** The page of a buffer that is filled at present, in memory or in the file. */
  ghost function TopPage(s: Store, k: Key): Page
    requires k in s.tab
  {
    match s.tab[k].page
    case InMemory(p) => p
    case SwappedOut => if s.tab[k].pageBlocknum in s.file then s.file[s.tab[k].pageBlocknum] else NewPage(NONE, 0)
  }

  /** A tuple needs a page of its own if the buffer has none yet or its page has no room. */
  ghost predicate OnNewPage(s: Store, k: Key, itup: Tuple)
    requires k in s.tab
  {
    s.tab[k].blocksCount == 0 || TopPage(s, k).free < itup.size
  }

  class BuildBuffers {
    const capacity: nat
    const pagesPerBuffer: nat
    var file: map<nat, Page>
    var nFileBlocks: nat
    var freeBlocks: seq<nat>
    var tab: map<Key, Buf>
    var loaded: seq<Key>
    var queue: seq<Key>
    ghost var chains: Chains

    constructor (capacity: nat, pagesPerBuffer: nat)
      ensures this.capacity == capacity && this.pagesPerBuffer == pagesPerBuffer
      ensures Valid() && Content() == map[] && nFileBlocks == 0
    {
      this.capacity, this.pagesPerBuffer := capacity, pagesPerBuffer;
      file, nFileBlocks, freeBlocks := map[], 0, [];
      tab, loaded, queue, chains := map[], [], [], map[];
    }

    function State(): Store
      reads this
    {
      Store(file, nFileBlocks, freeBlocks, tab, loaded, queue)
    }

    ghost predicate Valid()
      reads this
    {
      StoreOk(State(), chains, capacity)
    }

    /** What each buffer holds, from the bottom up. */
    ghost function Content(): map<Key, seq<Tuple>>
      reads this
    {
      Stacks(State(), chains)
    }

    method GetFreeBlock() returns (b: nat)
      modifies this`freeBlocks, this`nFileBlocks
      ensures b == FreeBlock(old(freeBlocks), old(nFileBlocks)) && State() == TakeBlock(old(State()))
      ensures old(freeBlocks) != [] ==> old(freeBlocks) == freeBlocks + [b] && nFileBlocks == old(nFileBlocks)
      ensures old(freeBlocks) == [] ==> freeBlocks == [] && b == old(nFileBlocks) && nFileBlocks == b + 1
    {
      if |freeBlocks| > 0 {
        b := freeBlocks[|freeBlocks| - 1];
        freeBlocks := freeBlocks[..|freeBlocks| - 1];
      } else {
        b := nFileBlocks;
        nFileBlocks := nFileBlocks + 1;
      }
    }

    method ReleaseBlock(b: nat)
      modifies this`freeBlocks
      ensures freeBlocks == old(freeBlocks) + [b]
    {
      freeBlocks := freeBlocks + [b];
    }

    /** The copy made for a split is never added. */
    method AddLoaded(k: Key)
      modifies this`loaded
      ensures loaded == MarkLoaded(old(loaded), k)
    {
      if k.Node? {
        loaded := loaded + [k];
      }
    }

    /** The buffer of an index page; a new one is empty. */
    method GetNodeBuffer(k: Key)
      requires Valid() && k.Node?
      modifies this`tab, this`chains
      ensures Valid() && Content() == if k in old(tab) then old(Content()) else old(Content())[k := []]
      ensures tab.Keys == old(tab.Keys) + {k}
    {
      if k !in tab {
        NewBuffer(State(), chains, k, EMPTY, capacity);
        tab, chains := tab[k := EMPTY], chains[k := []];
      }
    }

    method Load(k: Key)
      requires Valid() && k in tab
      modifies this`tab, this`freeBlocks, this`loaded, this`chains
      ensures Valid() && Content() == old(Content()) && tab.Keys == old(tab.Keys)
      ensures tab[k].blocksCount == old(tab[k].blocksCount) && (tab[k].blocksCount > 0 ==> tab[k].page.InMemory?)
      ensures tab[k].queued == old(tab[k].queued) && TopPage(State(), k) == TopPage(old(State()), k)
      ensures forall j | j in tab && j != k :: tab[j] == old(tab)[j]
    {
      if tab[k].page.SwappedOut? && tab[k].blocksCount > 0 {
        LoadPage(k);
      }
    }

    method LoadPage(k: Key)
      requires Valid() && k in tab && tab[k].page.SwappedOut? && tab[k].blocksCount > 0
      modifies this`tab, this`freeBlocks, this`loaded, this`chains
      ensures Valid() && Content() == old(Content()) && tab.Keys == old(tab.Keys)
      ensures old(tab[k].pageBlocknum) in file
      ensures tab[k] == old(tab[k]).(page := InMemory(file[old(tab[k].pageBlocknum)]), pageBlocknum := NONE)
      ensures tab == old(tab)[k := tab[k]]
    {
      LoadOk(State(), chains, k, capacity);
      var b := tab[k];
      tab := tab[k := b.(page := InMemory(file[b.pageBlocknum]), pageBlocknum := NONE)];
      ReleaseBlock(b.pageBlocknum);
      AddLoaded(k);
      chains := WithoutTop(chains, k);
      assert State() == LoadStep(old(State()), k);
    }

    method Unload(k: Key)
      requires Valid() && k in tab && nFileBlocks < NONE
      modifies this`file, this`nFileBlocks, this`tab, this`freeBlocks, this`chains
      ensures Valid() && Content() == old(Content()) && tab.Keys == old(tab.Keys) && nFileBlocks <= old(nFileBlocks) + 1
      ensures old(freeBlocks) != [] ==> nFileBlocks == old(nFileBlocks)
      ensures tab[k].page.SwappedOut? && tab == old(tab)[k := tab[k]]
    {
      match tab[k].page {
        case InMemory(p) =>
          UnloadOk(State(), chains, k, p, capacity);
          chains := WithBlock(State(), chains, k);
          var blkno := GetFreeBlock();
          file := file[blkno := p];
          tab := tab[k := tab[k].(page := SwappedOut, pageBlocknum := blkno)];
          assert State() == UnloadStep(old(State()), k, p);
        case SwappedOut =>
      }
    }

    /** Adds a tuple on top; a buffer that has become half full is queued for emptying. */
    method Push(k: Key, itup: Tuple)
      requires Valid() && k in tab && k.Node? && TupleOk(itup, capacity) && nFileBlocks < NONE
      modifies this
      ensures Valid() && tab.Keys == old(tab.Keys)
      ensures Content() == old(Content())[k := old(Content())[k] + [itup]]
      ensures tab[k].blocksCount > pagesPerBuffer / 2 ==> k in queue
      ensures queue == if tab[k].blocksCount > pagesPerBuffer / 2 && !old(tab[k].queued) then [k] + old(queue) else old(queue)
      ensures tab[k].queued <==> old(tab[k].queued) || tab[k].blocksCount > pagesPerBuffer / 2
      ensures tab[k].blocksCount == old(tab[k].blocksCount) + if OnNewPage(old(State()), k, itup) then 1 else 0
      ensures forall j | j in tab && j != k :: tab[j] == old(tab)[j]
      ensures nFileBlocks <= old(nFileBlocks) + 1
    {
      PushItup(k, itup);
      QueueIfHalfFull(k);
    }

    method QueueIfHalfFull(k: Key)
      requires Valid() && k in tab && k.Node?
      modifies this`tab, this`queue
      ensures Valid() && tab.Keys == old(tab.Keys) && Content() == old(Content())
      ensures tab[k].queued ==> k in queue
      ensures queue == if tab[k].blocksCount > pagesPerBuffer / 2 && !old(tab[k].queued) then [k] + old(queue) else old(queue)
      ensures tab[k].queued <==> old(tab[k].queued) || tab[k].blocksCount > pagesPerBuffer / 2
      ensures tab[k].blocksCount == old(tab[k].blocksCount) && forall j | j in tab && j != k :: tab[j] == old(tab)[j]
    {
      if tab[k].blocksCount > pagesPerBuffer / 2 && !tab[k].queued {
        Enqueue(k);
      }
      if tab[k].queued { QueuedKnown(State(), chains, capacity, k); }
    }

    method Enqueue(k: Key)
      requires Valid() && k in tab && k.Node? && !tab[k].queued
      modifies this`tab, this`queue
      ensures Valid() && tab.Keys == old(tab.Keys) && Content() == old(Content())
      ensures tab[k].queued && tab[k].blocksCount == old(tab[k].blocksCount) && queue == [k] + old(queue)
      ensures tab == old(tab)[k := tab[k]]
    {
      EnqueueOk(State(), chains, k, capacity);
      tab := tab[k := tab[k].(queued := true)];
      queue := [k] + queue;
    }

    method PushItup(k: Key, itup: Tuple)
      requires Valid() && k in tab && TupleOk(itup, capacity) && nFileBlocks < NONE
      modifies this`file, this`nFileBlocks, this`freeBlocks, this`tab, this`loaded, this`chains
      ensures Valid() && tab.Keys == old(tab.Keys)
      ensures Content() == old(Content())[k := old(Content())[k] + [itup]]
      ensures nFileBlocks <= old(nFileBlocks) + 1
      ensures tab[k].blocksCount == old(tab[k].blocksCount) + if OnNewPage(old(State()), k, itup) then 1 else 0
      ensures tab[k].queued == old(tab[k].queued) && forall j | j in tab && j != k :: tab[j] == old(tab)[j]
    {
      if tab[k].blocksCount == 0 {
        PushFirst(State(), chains, k, itup, capacity);
        tab := tab[k := tab[k].(blocksCount := 1, page := InMemory(Placed(NewPage(NONE, capacity), itup)))];
        AddLoaded(k);
      } else {
        Load(k);
        PlaceItup(k, tab[k].page.page, itup);
      }
    }

    method PlaceItup(k: Key, p: Page, itup: Tuple)
      requires Valid() && k in tab && tab[k].page == InMemory(p) && TupleOk(itup, capacity) && nFileBlocks < NONE
      modifies this`file, this`nFileBlocks, this`freeBlocks, this`tab, this`chains
      ensures Valid() && tab.Keys == old(tab.Keys)
      ensures Content() == old(Content())[k := old(Content())[k] + [itup]]
      ensures nFileBlocks <= old(nFileBlocks) + 1
      ensures tab[k].blocksCount == old(tab[k].blocksCount) + if p.free < itup.size then 1 else 0
      ensures tab[k].queued == old(tab[k].queued) && forall j | j in tab && j != k :: tab[j] == old(tab)[j]
    {
      ghost var s := State();
      if p.free < itup.size {
        PlaceOnNew(k, p, itup);
      } else {
        PushOnPage(s, chains, k, p, itup, capacity);
        tab := tab[k := tab[k].(page := InMemory(Placed(p, itup)))];
      }
    }

    /** Writes the full page to the file and starts a new one that points to it. */
    method PlaceOnNew(k: Key, p: Page, itup: Tuple)
      requires Valid() && k in tab && tab[k].page == InMemory(p) && TupleOk(itup, capacity) && nFileBlocks < NONE
      requires p.free < itup.size
      modifies this`file, this`nFileBlocks, this`freeBlocks, this`tab, this`chains
      ensures Valid() && tab.Keys == old(tab.Keys)
      ensures Content() == old(Content())[k := old(Content())[k] + [itup]]
      ensures nFileBlocks <= old(nFileBlocks) + 1 && tab[k].blocksCount == old(tab[k].blocksCount) + 1
      ensures tab[k].queued == old(tab[k].queued) && tab == old(tab)[k := tab[k]]
    {
      ghost var s, chains' := State(), WithBlock(State(), chains, k);
      var blkno := GetFreeBlock();
      file := file[blkno := p];
      var q := Placed(NewPage(blkno, capacity), itup);
      tab := tab[k := tab[k].(blocksCount := tab[k].blocksCount + 1, page := InMemory(q))];
      PushOverflow(s, chains, k, p, itup, q, State(), chains', capacity);
      chains := chains';
    }

    /** Takes the tuple on top, the one pushed last. */
    method Pop(k: Key) returns (r: PopResult)
      requires Valid() && k in tab
      modifies this`freeBlocks, this`tab, this`loaded, this`chains
      ensures Valid() && tab.Keys == old(tab.Keys)
      ensures r.Nothing? <==> old(Content())[k] == []
      ensures r.Nothing? ==> Content() == old(Content())
      ensures r.Item? ==> old(Content())[k] == Content()[k] + [r.t] && Content() == old(Content())[k := Content()[k]]
      ensures r.Item? ==> TupleOk(r.t, capacity)
      ensures tab[k].queued == old(tab[k].queued) && forall j | j in tab && j != k :: tab[j] == old(tab)[j]
    {
      HoldsNothing(State(), chains, k, capacity);
      if tab[k].blocksCount == 0 {
        return Nothing;
      }
      Load(k);
      r := TakeItup(k, tab[k].page.page);
    }

    method TakeItup(k: Key, p: Page) returns (r: PopResult)
      requires Valid() && k in tab && tab[k].page == InMemory(p)
      modifies this`freeBlocks, this`tab, this`chains
      ensures Valid() && tab.Keys == old(tab.Keys) && r.Item? && TupleOk(r.t, capacity)
      ensures old(Content())[k] == Content()[k] + [r.t] && Content() == old(Content())[k := Content()[k]]
      ensures tab[k].queued == old(tab[k].queued) && forall j | j in tab && j != k :: tab[j] == old(tab)[j]
    {
      ghost var content := Content();
      TopOfStack(State(), chains, k, p, capacity);
      PageInMemory(State(), chains, k, p, capacity);
      r := Item(p.tuples[|p.tuples| - 1]);
      if Taken(p).free == capacity {
        LeavePage(k, p);
      } else {
        StayOnPage(k, p);
      }
      PopMeans(content, Content(), k, r.t);
    }

    method StayOnPage(k: Key, p: Page)
      requires Valid() && k in tab && tab[k].page == InMemory(p)
      requires p.tuples != [] && Taken(p).tuples != [] && Content()[k] != []
      modifies this`tab
      ensures Valid() && tab.Keys == old(tab.Keys) && Content() == Popped(old(State()), old(chains), k)
      ensures tab[k].queued == old(tab[k].queued) && tab == old(tab)[k := tab[k]]
    {
      ghost var s := State();
      tab := tab[k := tab[k].(page := InMemory(Taken(p)))];
      PopOnPage(s, chains, k, p, State(), capacity);
    }

    /** The last tuple of the page is taken: goes to the page below, if there is one. */
    method LeavePage(k: Key, p: Page)
      requires Valid() && k in tab && tab[k].page == InMemory(p) && tab[k].blocksCount > 0
      requires p.tuples != [] && Taken(p).tuples == [] && Content()[k] != []
      modifies this`freeBlocks, this`tab, this`chains
      ensures Valid() && tab.Keys == old(tab.Keys) && Content() == Popped(old(State()), old(chains), k)
      ensures tab[k].queued == old(tab[k].queued) && forall j | j in tab && j != k :: tab[j] == old(tab)[j]
    {
      if p.prev != NONE {
        FetchPage(k, p);
      } else {
        DropPage(k, p);
      }
    }

    method FetchPage(k: Key, p: Page)
      requires Valid() && k in tab && tab[k].page == InMemory(p) && tab[k].blocksCount > 0
      requires p.tuples != [] && Taken(p).tuples == [] && p.prev != NONE && Content()[k] != []
      modifies this`freeBlocks, this`tab, this`chains
      ensures Valid() && tab.Keys == old(tab.Keys) && Content() == Popped(old(State()), old(chains), k)
      ensures tab[k].queued == old(tab[k].queued) && tab == old(tab)[k := tab[k]]
    {
      ghost var s := State();
      PopFetch(s, chains, k, p, capacity);
      tab := tab[k := tab[k].(blocksCount := tab[k].blocksCount - 1, page := InMemory(file[p.prev]))];
      ReleaseBlock(p.prev);
      chains := WithoutTop(chains, k);
      assert State() == FetchStep(s, k, p.prev);
    }

    method DropPage(k: Key, p: Page)
      requires Valid() && k in tab && tab[k].page == InMemory(p) && tab[k].blocksCount > 0
      requires p.tuples != [] && Taken(p).tuples == [] && p.prev == NONE && Content()[k] != []
      modifies this`tab
      ensures Valid() && tab.Keys == old(tab.Keys) && Content() == Popped(old(State()), old(chains), k)
      ensures tab[k].queued == old(tab[k].queued) && tab == old(tab)[k := tab[k]]
    {
      ghost var s := State();
      PopLast(s, chains, k, p, capacity);
      tab := tab[k := tab[k].(blocksCount := tab[k].blocksCount - 1, page := SwappedOut)];
      assert State() == DropStep(s, k);
    }

    /** The buffer becomes a copy to be emptied, and starts anew itself. */
    method SetAside(k: Key)
      requires Valid() && k in tab && k.Node? && Temp !in tab
      modifies this`tab, this`chains
      ensures Valid() && tab.Keys == old(tab.Keys) + {Temp}
      ensures Content() == old(Content())[Temp := old(Content())[k]][k := []]
    {
      ghost var s, chains0 := State(), chains;
      var b := tab[k];
      tab := tab[Temp := b][k := EMPTY.(queued := b.queued)];
      chains := chains[Temp := chains[k]][k := []];
      SetAsideOk(s, chains0, k, State(), chains, capacity);
    }

    /** The emptied copy is given up. */
    method DropCopy()
      requires Valid() && Temp in tab && Content()[Temp] == []
      modifies this`tab, this`chains
      ensures Valid() && tab.Keys == old(tab.Keys) - {Temp} && Content() == old(Content()) - {Temp}
    {
      DropCopyOk(State(), chains, capacity);
      tab, chains := tab - {Temp}, chains - {Temp};
    }

    /** All pages go to the file; the buffers keep their content. */
    method UnloadAll()
      requires Valid() && nFileBlocks + |loaded| <= NONE
      modifies this`file, this`nFileBlocks, this`tab, this`freeBlocks, this`loaded, this`chains
      ensures Valid() && Content() == old(Content()) && tab.Keys == old(tab.Keys)
      ensures loaded == [] && forall k | k in tab && k.Node? :: tab[k].page.SwappedOut?
    {
      ghost var content, keys, n := Content(), tab.Keys, nFileBlocks;
      var i := 0;
      while i < |loaded|
        invariant 0 <= i <= |loaded| && loaded == old(loaded) && nFileBlocks <= n + i
        invariant Valid() && Content() == content && tab.Keys == keys && SwappedBelow(i)
      {
        UnloadNth(i);
        i := i + 1;
      }
      AllSwappedOut(State(), chains, capacity);
      loaded := [];
    }

    ghost predicate SwappedBelow(i: nat)
      requires i <= |loaded|
      reads this
    {
      forall j | 0 <= j < i :: loaded[j] in tab && tab[loaded[j]].page.SwappedOut?
    }

    method UnloadNth(i: nat)
      requires Valid() && i < |loaded| && SwappedBelow(i) && nFileBlocks < NONE
      modifies this`file, this`nFileBlocks, this`tab, this`freeBlocks, this`chains
      ensures Valid() && Content() == old(Content()) && tab.Keys == old(tab.Keys) && nFileBlocks <= old(nFileBlocks) + 1
      ensures SwappedBelow(i + 1)
    {
      LoadedKnown(State(), chains, capacity, i);
      Unload(loaded[i]);
    }
  }

  lemma HoldsNothing(s: Store, chains: Chains, k: Key, capacity: nat)
    requires StoreOk(s, chains, capacity) && k in s.tab
    ensures s.tab[k].blocksCount == 0 <==> Stacks(s, chains)[k] == []
  {
    var c := chains[k];
    assert BufOk(s.file, s.tab[k], c, capacity);
    if c != [] { ChainShrinks(s.file, c, capacity); }
  }

  lemma PopMeans(m: map<Key, seq<Tuple>>, m': map<Key, seq<Tuple>>, k: Key, t: Tuple)
    requires k in m && m[k] != [] && t == m[k][|m[k]| - 1] && m' == m[k := m[k][..|m[k]| - 1]]
    ensures m[k] == m'[k] + [t] && m' == m[k := m'[k]]
  {
  }

  lemma PageInMemory(s: Store, chains: Chains, k: Key, p: Page, capacity: nat)
    requires StoreOk(s, chains, capacity) && k in s.tab && s.tab[k].page == InMemory(p) && p.tuples != []
    ensures TupleOk(p.tuples[|p.tuples| - 1], capacity) && (Taken(p).free == capacity <==> Taken(p).tuples == [])
    ensures s.tab[k].blocksCount > 0
  {
    assert BufOk(s.file, s.tab[k], chains[k], capacity);
    TakenOk(p, capacity);
  }

  /** Once the listed buffers are swapped out, all are, and the list is of no use. */
  lemma AllSwappedOut(s: Store, chains: Chains, capacity: nat)
    requires StoreOk(s, chains, capacity)
    requires forall j | 0 <= j < |s.loaded| :: s.loaded[j] in s.tab && s.tab[s.loaded[j]].page.SwappedOut?
    ensures forall k | k in s.tab && k.Node? :: s.tab[k].page.SwappedOut?
    ensures StoreOk(s.(loaded := []), chains, capacity) && Stacks(s.(loaded := []), chains) == Stacks(s, chains)
  {
    forall k | k in s.tab && k.Node? ensures s.tab[k].page.SwappedOut? {
      if k in s.loaded {
        var j :| 0 <= j < |s.loaded| && s.loaded[j] == k;
      }
    }
    assert ListsOk(s.tab, [], s.queue);
  }

  lemma LoadedKnown(s: Store, chains: Chains, capacity: nat, i: nat)
    requires StoreOk(s, chains, capacity) && i < |s.loaded|
    ensures s.loaded[i] in s.tab
  {
    assert s.loaded[i] in s.loaded;
  }

  lemma QueuedKnown(s: Store, chains: Chains, capacity: nat, k: Key)
    requires StoreOk(s, chains, capacity) && k in s.tab && k.Node? && s.tab[k].queued
    ensures k in s.queue
  {
  }

  lemma SetAsideOk(s: Store, chains: Chains, k: Key, s': Store, chains': Chains, capacity: nat)
    requires StoreOk(s, chains, capacity) && k in s.tab && k.Node? && Temp !in s.tab
    requires s' == s.(tab := s.tab[Temp := s.tab[k]][k := EMPTY.(queued := s.tab[k].queued)])
    requires chains' == chains[Temp := chains[k]][k := []]
    ensures StoreOk(s', chains', capacity)
    ensures Stacks(s', chains') == Stacks(s, chains)[Temp := Stacks(s, chains)[k]][k := []]
  {
    ChainMoved(chains, s.freeBlocks, s.nFileBlocks, k);
    ListsAside(s.tab, s.loaded, s.queue, k);
    forall j | j in s'.tab ensures BufOk(s'.file, s'.tab[j], chains'[j], capacity) {
      if j != k { AsideBuffer(s, chains, k, s', chains', capacity, j); }
    }
    AsideStacks(s, chains, k, s', chains');
  }

  lemma AsideBuffer(s: Store, chains: Chains, k: Key, s': Store, chains': Chains, capacity: nat, j: Key)
    requires StoreOk(s, chains, capacity) && k in s.tab && k != Temp && Temp !in s.tab
    requires s'.tab == s.tab[Temp := s.tab[k]][k := EMPTY.(queued := s.tab[k].queued)] && s'.file == s.file
    requires chains' == chains[Temp := chains[k]][k := []] && j in s'.tab && j != k
    ensures BufOk(s'.file, s'.tab[j], chains'[j], capacity)
  {
    assert BufOk(s.file, s.tab[if j == Temp then k else j], chains[if j == Temp then k else j], capacity);
  }

  lemma ListsAside(tab: map<Key, Buf>, loaded: seq<Key>, queue: seq<Key>, k: Key)
    requires ListsOk(tab, loaded, queue) && k in tab && k.Node? && Temp !in tab
    ensures ListsOk(tab[Temp := tab[k]][k := EMPTY.(queued := tab[k].queued)], loaded, queue)
  {
  }

  lemma AsideStacks(s: Store, chains: Chains, k: Key, s': Store, chains': Chains)
    requires k in s.tab && k != Temp && Temp !in s.tab && chains.Keys == s.tab.Keys
    requires s'.tab == s.tab[Temp := s.tab[k]][k := EMPTY.(queued := s.tab[k].queued)] && s'.file == s.file
    requires chains' == chains[Temp := chains[k]][k := []]
    ensures Stacks(s', chains') == Stacks(s, chains)[Temp := Stacks(s, chains)[k]][k := []]
  {
    assert Stack(s'.file, s'.tab[k], []) == [];
  }

  lemma ChainMoved(chains: Chains, free: seq<nat>, n: nat, k: Key)
    requires BlocksOk(chains, free, n) && k in chains && Temp !in chains
    ensures BlocksOk(chains[Temp := chains[k]][k := []], free, n)
  {
    var chains' := chains[Temp := chains[k]][k := []];
    forall j | j in chains' ensures ChainOk(chains'[j], free, n) {
      if j != k { assert ChainOk(chains[if j == Temp then k else j], free, n); }
    }
    forall i, j | i in chains' && j in chains' && i != j ensures Apart(chains'[i], chains'[j]) {
      if i != k && j != k { assert Apart(chains[if i == Temp then k else i], chains[if j == Temp then k else j]); }
    }
    forall x: nat | x < n && x !in free ensures Used(chains', x) {
      assert Used(chains, x);
      var j :| j in chains && x in chains[j];
      assert x in chains'[if j == k then Temp else j];
    }
  }

  lemma DropCopyOk(s: Store, chains: Chains, capacity: nat)
    requires StoreOk(s, chains, capacity) && Temp in s.tab && Stacks(s, chains)[Temp] == []
    ensures StoreOk(s.(tab := s.tab - {Temp}), chains - {Temp}, capacity)
    ensures Stacks(s.(tab := s.tab - {Temp}), chains - {Temp}) == Stacks(s, chains) - {Temp}
  {
    HoldsNothing(s, chains, Temp, capacity);
    assert BufOk(s.file, s.tab[Temp], chains[Temp], capacity);
    var tab', chains' := s.tab - {Temp}, chains - {Temp};
    ChainDropped(chains, s.freeBlocks, s.nFileBlocks);
    forall j | j in tab' ensures BufOk(s.file, tab'[j], chains'[j], capacity) {
      assert BufOk(s.file, s.tab[j], chains[j], capacity);
    }
    assert ListsOk(tab', s.loaded, s.queue);
    DroppedStack(s, chains, s.(tab := tab'), chains');
  }

  lemma ChainDropped(chains: Chains, free: seq<nat>, n: nat)
    requires BlocksOk(chains, free, n) && Temp in chains && chains[Temp] == []
    ensures BlocksOk(chains - {Temp}, free, n)
  {
    var chains' := chains - {Temp};
    forall j | j in chains' ensures ChainOk(chains'[j], free, n) {
      assert ChainOk(chains[j], free, n);
    }
    forall i, j | i in chains' && j in chains' && i != j ensures Apart(chains'[i], chains'[j]) {
      assert Apart(chains[i], chains[j]);
    }
    forall x: nat | x < n && x !in free ensures Used(chains', x) {
      assert Used(chains, x);
      var j :| j in chains && x in chains[j];
      assert x in chains'[j];
    }
  }

  lemma DroppedStack(s: Store, chains: Chains, s': Store, chains': Chains)
    requires chains.Keys == s.tab.Keys && s' == s.(tab := s.tab - {Temp}) && chains' == chains - {Temp}
    ensures Stacks(s', chains') == Stacks(s, chains) - {Temp}
  {
    StackKeys(s, chains);
    StackKeys(s', chains');
    forall j | j in s'.tab ensures Stacks(s', chains')[j] == Stacks(s, chains)[j] { SameEntry(s, chains, s', chains', j); }
  }

  lemma NewBuffer(s: Store, chains: Chains, k: Key, b: Buf, capacity: nat)
    requires StoreOk(s, chains, capacity) && k !in s.tab && b == EMPTY
    ensures StoreOk(s.(tab := s.tab[k := b]), chains[k := []], capacity)
    ensures Stacks(s.(tab := s.tab[k := b]), chains[k := []]) == Stacks(s, chains)[k := []]
  {
    NewChain(chains, s.freeBlocks, s.nFileBlocks, k);
    var tab', chains' := s.tab[k := b], chains[k := []];
    forall j | j in tab' ensures BufOk(s.file, tab'[j], chains'[j], capacity) {
      if j != k { assert BufOk(s.file, s.tab[j], chains[j], capacity); }
    }
    assert ListsOk(tab', s.loaded, s.queue);
    NewStack(s, chains, k, b, s.(tab := tab'), chains');
  }

  lemma NewStack(s: Store, chains: Chains, k: Key, b: Buf, s': Store, chains': Chains)
    requires chains.Keys == s.tab.Keys && k !in s.tab && b == EMPTY
    requires s' == s.(tab := s.tab[k := b]) && chains' == chains[k := []]
    ensures Stacks(s', chains') == Stacks(s, chains)[k := []]
  {
    StackKeys(s, chains);
    StackKeys(s', chains');
    forall j | j in s.tab ensures Stacks(s', chains')[j] == Stacks(s, chains)[j] { SameEntry(s, chains, s', chains', j); }
    assert Stack(s'.file, s'.tab[k], chains'[k]) == [];
    NewEntry(Stacks(s, chains), Stacks(s', chains'), k);
  }

  lemma StackKeys(s: Store, chains: Chains)
    requires chains.Keys == s.tab.Keys
    ensures Stacks(s, chains).Keys == s.tab.Keys
  {
  }

  lemma SameEntry(s: Store, chains: Chains, s': Store, chains': Chains, j: Key)
    requires j in s.tab && j in chains && j in s'.tab && j in chains' && s'.file == s.file
    requires s'.tab[j] == s.tab[j] && chains'[j] == chains[j]
    ensures Stacks(s', chains')[j] == Stacks(s, chains)[j]
  {
  }

  lemma NewEntry(m: map<Key, seq<Tuple>>, m': map<Key, seq<Tuple>>, k: Key)
    requires m'.Keys == m.Keys + {k} && k !in m && m'[k] == [] && forall j | j in m :: m'[j] == m[j]
    ensures m' == m[k := []]
  {
  }

  lemma NewChain(chains: Chains, free: seq<nat>, n: nat, k: Key)
    requires BlocksOk(chains, free, n) && k !in chains
    ensures BlocksOk(chains[k := []], free, n)
  {
    var chains' := chains[k := []];
    forall j | j in chains' ensures ChainOk(chains'[j], free, n) {
      if j != k { assert ChainOk(chains[j], free, n); }
    }
    forall i, j | i in chains' && j in chains' && i != j ensures Apart(chains'[i], chains'[j]) {
      if i != k && j != k { assert Apart(chains[i], chains[j]); }
    }
    forall x: nat | x < n && x !in free ensures Used(chains', x) {
      assert Used(chains, x);
      var j :| j in chains && x in chains[j];
      assert x in chains'[j];
    }
  }
}
