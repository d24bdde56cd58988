/** What a scan without an order returns: the heap tuples of the entries it comes upon, each
    once, although a heap tuple has several entries. */
module GistReport {
  import opened Lists
  import opened GistPages
  import opened GistKeys
  import opened GistSteps
  import opened GistScan

  /** The heap tuples of some entries. */
  ghost function Tids(es: set<Entry>): set<nat> { set e | e in es :: e.tid }

  ghost function Accepted(es: seq<Entry>, query: Key -> bool): set<Entry> { set e | e in es && query(e.key) }

  /** Each of the tuples once, and none that was found before. */
  ghost predicate Fresh(tids: seq<nat>, table: set<nat>) { NoDup(tids) && Members(tids) !! table }

  lemma OneMoreTid(tids: seq<nat>, table: set<nat>, tid: nat)
    requires Fresh(tids, table) && tid !in table && tid !in Members(tids)
    ensures Fresh(tids + [tid], table) && Members(tids + [tid]) == Members(tids) + {tid}
  {
    assert forall x :: x in tids + [tid] <==> x in tids || x == tid;
  }

  lemma AcceptedNext(entries: seq<Entry>, query: Key -> bool, i: nat)
    requires i < |entries|
    ensures Tids(Accepted(entries[..i + 1], query)) == Tids(Accepted(entries[..i], query)) + if query(entries[i].key) then {entries[i].tid} else {}
  {
    var a, b := Accepted(entries[..i], query), Accepted(entries[..i + 1], query);
    assert entries[..i + 1] == entries[..i] + [entries[i]];
    assert b == a + if query(entries[i].key) then {entries[i]} else {};
  }

  /** Reads the entries of a leaf; the table knows the heap tuples found so far. */
  method ReportPage(entries: seq<Entry>, query: Key -> bool, table: set<nat>) returns (pageData: seq<nat>, table': set<nat>)
    ensures Fresh(pageData, table) && table' == table + Members(pageData)
    ensures table' == table + Tids(Accepted(entries, query))
  {
    pageData, table' := [], table;
    var i: nat := 0;
    while i < |entries|
      invariant i <= |entries| && Fresh(pageData, table) && table' == table + Members(pageData)
      invariant table' == table + Tids(Accepted(entries[..i], query))
    {
      AcceptedNext(entries, query, i);
      var tid := entries[i].tid;
      if query(entries[i].key) {
        if tid !in table' {
          OneMoreTid(pageData, table, tid);
          pageData := pageData + [tid];
          table' := table' + {tid};
        }
      }
      i := i + 1;
    }
    assert entries[..i] == entries;
  }

  /** From what was returned before to what is returned after a step of the scan. */
  ghost predicate Returned(out: seq<nat>, out': seq<nat>, seen': set<Entry>) {
    out <= out' && Fresh(out'[|out|..], Members(out)) && Members(out') == Tids(seen')
  }

  /** Reading a page returns what `ReportPage` finds on it. */
  lemma PageReturned(pages: Pages, it: Item, query: Key -> bool, sc: Scan, entries: seq<Entry>, out: seq<nat>, pageData: seq<nat>)
    requires it.blk in pages && (set e | e in entries) == pages[it.blk].entries && Members(out) == Tids(sc.seen)
    requires Fresh(pageData, Members(out)) && Members(out) + Members(pageData) == Members(out) + Tids(Accepted(entries, query))
    ensures Returned(out, out + pageData, ReadPage(pages, it, query, sc).seen)
  {
    var seen' := ReadPage(pages, it, query, sc).seen;
    assert (out + pageData)[|out|..] == pageData;
    assert seen' == sc.seen + Accepted(entries, query) by {
      forall e ensures e in pages[it.blk].entries <==> e in entries { assert e in (set x | x in entries) <==> e in entries; }
    }
    assert Tids(seen') == Tids(sc.seen) + Tids(Accepted(entries, query));
    forall x ensures x in Members(out + pageData) <==> x in Members(out) || x in Members(pageData) { }
  }

  /** What was returned up to each moment of a run. */
  ghost predicate Returns(ws: seq<World>, outs: seq<seq<nat>>) {
    && |outs| == |ws| > 0 && outs[0] == [] && ws[0].sc.seen == {}
    && forall i, j | 0 <= i < |ws| && j == i + 1 < |ws| ::
         if ws[j].sc == ws[i].sc then outs[j] == outs[i] else Returned(outs[i], outs[j], ws[j].sc.seen)
  }

  lemma StaysFresh(out: seq<nat>, out': seq<nat>)
    requires out <= out' && NoDup(out) && Fresh(out'[|out|..], Members(out))
    ensures NoDup(out')
  {
    var d := out'[|out|..];
    forall j, k | 0 <= j < k < |out'| ensures out'[j] != out'[k] {
      if k >= |out| {
        assert out'[k] == d[k - |out|] && d[k - |out|] in Members(d);
        if j < |out| { assert out'[j] == out[j] && out[j] in Members(out); } else { assert out'[j] == d[j - |out|]; }
      }
    }
  }

  /** No heap tuple is returned twice, and those returned are those of the entries seen. */
  lemma {:induction false} ReturnedOnce(ws: seq<World>, outs: seq<seq<nat>>, n: nat)
    requires Returns(ws, outs) && n < |ws|
    ensures NoDup(outs[n]) && Members(outs[n]) == Tids(ws[n].sc.seen)
    decreases n
  {
    if n > 0 {
      var i := n - 1;
      ReturnedOnce(ws, outs, i);
      assert n == i + 1;
      if ws[n].sc != ws[i].sc { StaysFresh(outs[i], outs[n]); }
    }
  }

  /** When the scan ends, each heap tuple with an accepted entry at the beginning has been
      returned, once, and none without an accepted entry at the end. */
  lemma EachTupleOnce(o: Order, query: Key -> bool, ss: seq<State>, ws: seq<World>, outs: seq<seq<nat>>, tid: nat)
    requires OrderOk(o) && QueryOk(o, query) && History(o, ss) && Run(o, query, ws)
    requires ws[0] == World(ss[|ss| - 1], Scan(START, {})) && ws[|ws| - 1].sc.queue == multiset{} && Returns(ws, outs)
    ensures NoDup(outs[|ws| - 1])
    ensures HasAccepted(ws[0].s.pages, query, tid) ==> tid in outs[|ws| - 1]
    ensures tid in outs[|ws| - 1] ==> HasAccepted(ws[|ws| - 1].s.pages, query, tid)
  {
    var last := |ws| - 1;
    ReturnedOnce(ws, outs, last);
    if HasAccepted(ws[0].s.pages, query, tid) {
      var e: Entry :| e.tid == tid && query(e.key) && Present(ws[0].s.pages, e);
      AnswerBounds(o, query, ss, ws, e);
      assert tid in Tids(ws[last].sc.seen);
      assert tid in Members(outs[last]);
    }
    if tid in outs[last] {
      assert tid in Members(outs[last]);
      var e :| e in ws[last].sc.seen && e.tid == tid;
      AnswerBounds(o, query, ss, ws, e);
    }
  }

  /** The heap tuple has an entry in the index that the query accepts. */
  ghost predicate HasAccepted(pages: Pages, query: Key -> bool, tid: nat) {
    exists e: Entry :: e.tid == tid && query(e.key) && Present(pages, e)
  }
}
