// Extent trees in the blocks of a device: what they own, and how a tree is
// read from its nodes.
module ExtentStore {
  import opened BlockSets
  import opened ExtentTree

  // ---- What a tree owns ----

  predicate InRun(start: nat, len: nat, b: nat)
  {
    start <= b < start + len
  }

  /** The blocks of a run, each once. */
  ghost function Run(start: nat, len: nat): multiset<nat>
  {
    multiset(set b: nat | b < start + len && InRun(start, len, b))
  }

  lemma RunSplit(start: nat, a: nat, n: nat)
    requires a <= n
    ensures Run(start, n) == Run(start, a) + Run(start + a, n - a)
  {
    assert forall b: nat :: InRun(start, n, b) <==> InRun(start, a, b) || InRun(start + a, n - a, b);
  }

  lemma RunLast(start: nat, n: nat)
    requires 0 < n
    ensures Run(start, n) == Run(start, n - 1) + multiset{start + n - 1}
  {
    assert forall b: nat :: InRun(start, n, b) <==> InRun(start, n - 1, b) || b == start + n - 1;
  }

  lemma RunOfNone(start: nat)
    ensures Run(start, 0) == multiset{}
  {
    assert forall b: nat :: !InRun(start, 0, b);
  }

  /** The blocks of the first `n` extents. */
  ghost function FirstExtents(exts: seq<Extent>, n: nat): multiset<nat>
    requires n <= |exts|
  {
    if n == 0 then multiset{} else FirstExtents(exts, n - 1) + ExtentBlocks(exts[n - 1])
  }

  ghost function ExtentsBlocks(exts: seq<Extent>): multiset<nat>
  {
    FirstExtents(exts, |exts|)
  }

  ghost function ExtentBlocks(e: Extent): multiset<nat>
  {
    Run(e.start, e.EffectiveLen())
  }

  /** Every block of a tree of depth `d`: data blocks, and the blocks of the nodes under its entries. */
  ghost function Blocks(t: Tree, d: nat): multiset<nat>
    decreases d, 2
  {
    match t
    case Leaf(exts) => ExtentsBlocks(exts)
    case Index(entries) => if d == 0 then multiset{} else FirstBlocks(entries, d, |entries|)
  }

  ghost function EntriesBlocks(entries: seq<Entry>, d: nat): multiset<nat>
    requires 0 < d
  {
    FirstBlocks(entries, d, |entries|)
  }

  /** Every block of the first `n` entries. */
  ghost function FirstBlocks(entries: seq<Entry>, d: nat, n: nat): multiset<nat>
    requires 0 < d && n <= |entries|
    decreases d, 1, n
  {
    if n == 0 then multiset{} else FirstBlocks(entries, d, n - 1) + EntryBlocks(entries[n - 1], d)
  }

  ghost function EntryBlocks(e: Entry, d: nat): multiset<nat>
    requires 0 < d
    decreases d, 0
  {
    multiset{e.block} + Blocks(e.sub, d - 1)
  }

  lemma {:induction false} SameBlocks(a: seq<Entry>, b: seq<Entry>, d: nat, n: nat)
    requires 0 < d && n <= |a| && n <= |b| && forall i :: 0 <= i < n ==> a[i] == b[i]
    ensures FirstBlocks(a, d, n) == FirstBlocks(b, d, n)
    decreases n
  {
    if n > 0 {
      SameBlocks(a, b, d, n - 1);
    }
  }

  lemma BlocksPush(entries: seq<Entry>, e: Entry, d: nat)
    requires 0 < d
    ensures EntriesBlocks(entries + [e], d) == EntriesBlocks(entries, d) + EntryBlocks(e, d)
  {
    SameBlocks(entries + [e], entries, d, |entries|);
  }

  lemma {:induction false} EntryIsOwned(entries: seq<Entry>, d: nat, n: nat, i: nat)
    requires 0 < d && i < n <= |entries|
    ensures EntryBlocks(entries[i], d) <= FirstBlocks(entries, d, n)
    decreases n
  {
    if i < n - 1 {
      EntryIsOwned(entries, d, n - 1, i);
    }
  }

  lemma {:induction false} PrefixIsOwned(entries: seq<Entry>, d: nat, m: nat, n: nat)
    requires 0 < d && m <= n <= |entries|
    ensures FirstBlocks(entries, d, m) <= FirstBlocks(entries, d, n)
    decreases n
  {
    if m < n {
      PrefixIsOwned(entries, d, m, n - 1);
    }
  }

  /** Under an unshared node an entry has no block in common with the ones before it. */
  lemma EntryApart(entries: seq<Entry>, d: nat, i: nat)
    requires 0 < d && i < |entries| && Unshared(EntriesBlocks(entries, d))
    ensures FirstBlocks(entries, d, i) !! EntryBlocks(entries[i], d)
    ensures Unshared(Blocks(entries[i].sub, d - 1)) && entries[i].block !in Blocks(entries[i].sub, d - 1)
  {
    PrefixIsOwned(entries, d, i + 1, |entries|);
    UnsharedPart(FirstBlocks(entries, d, i), EntryBlocks(entries[i], d), EntriesBlocks(entries, d));
    UnsharedPart(multiset{entries[i].block}, Blocks(entries[i].sub, d - 1), EntryBlocks(entries[i], d));
    assert entries[i].block in multiset{entries[i].block};
  }

  lemma LaterApart(entries: seq<Entry>, d: nat, i: nat, j: nat)
    requires 0 < d && i < j < |entries| && Unshared(EntriesBlocks(entries, d))
    ensures EntryBlocks(entries[i], d) !! EntryBlocks(entries[j], d)
  {
    EntryApart(entries, d, j);
    EntryIsOwned(entries, d, j, i);
  }

  // ---- A cut owns part of what was owned ----

  /** How many blocks of an extent are kept. */
  function KeptLen(e: Extent, cut: nat): (n: nat)
    ensures n <= e.EffectiveLen()
  {
    if e.block >= cut then 0 else if e.End() > cut then cut - e.block else e.EffectiveLen()
  }

  /** The blocks of an extent past the cut. */
  ghost function Dropped(e: Extent, cut: nat): multiset<nat>
  {
    Run(e.start + KeptLen(e, cut), e.EffectiveLen() - KeptLen(e, cut))
  }

  lemma CutExtentBlocks(e: Extent, cut: nat)
    ensures Dropped(e, cut) + ExtentsBlocks(CutExtent(e, cut)) == ExtentBlocks(e)
  {
    var n, len := KeptLen(e, cut), e.EffectiveLen();
    var kept := KeptBlocks(e, cut, n);
    RunCut(e.start, n, len, Run(e.start + n, len - n), kept);
  }

  lemma RunCut(start: nat, n: nat, len: nat, dropped: multiset<nat>, kept: multiset<nat>)
    requires n <= len && dropped == Run(start + n, len - n) && kept == Run(start, n)
    ensures dropped + kept == Run(start, len)
  {
    RunSplit(start, n, len);
    AddCommutes(dropped, kept);
  }

  lemma KeptBlocks(e: Extent, cut: nat, n: nat) returns (kept: multiset<nat>)
    requires n == KeptLen(e, cut)
    ensures kept == ExtentsBlocks(CutExtent(e, cut)) == Run(e.start, n)
  {
    kept := ExtentsBlocks(CutExtent(e, cut));
    if e.block >= cut {
      RunOfNone(e.start);
    } else {
      var left := CutExtent(e, cut)[0];
      assert CutExtent(e, cut) == [left];
      OneExtent(left);
    }
  }

  lemma OneExtent(e: Extent)
    ensures ExtentsBlocks([e]) == ExtentBlocks(e)
  {
    assert FirstExtents([e], 0) == multiset{};
  }

  lemma ExtentsJoin(a: seq<Extent>, b: seq<Extent>)
    requires |b| <= 1
    ensures ExtentsBlocks(a + b) == ExtentsBlocks(a) + ExtentsBlocks(b)
  {
    if b == [] {
      assert a + b == a;
    } else {
      SameExtents(a + b, a, |a|);
      assert b == [b[0]];
      OneExtent(b[0]);
    }
  }

  lemma {:induction false} SameExtents(a: seq<Extent>, b: seq<Extent>, n: nat)
    requires n <= |a| && n <= |b| && forall i :: 0 <= i < n ==> a[i] == b[i]
    ensures FirstExtents(a, n) == FirstExtents(b, n)
    decreases n
  {
    if n > 0 {
      SameExtents(a, b, n - 1);
    }
  }

  lemma {:induction false} CutExtentsOwn(exts: seq<Extent>, cut: nat)
    ensures ExtentsBlocks(CutExtents(exts, cut)) <= ExtentsBlocks(exts)
  {
    if exts != [] {
      var front, last := exts[..|exts| - 1], exts[|exts| - 1];
      CutExtentsOwn(front, cut);
      CutExtentBlocks(last, cut);
      ExtentsJoin(CutExtents(front, cut), CutExtent(last, cut));
      SameExtents(exts, front, |front|);
    }
  }

  lemma {:induction false} CutOwns(t: Tree, d: nat, cut: nat)
    ensures Blocks(Cut(t, cut), d) <= Blocks(t, d)
    decreases d, 1, 0
  {
    if t.Leaf? {
      CutExtentsOwn(t.exts, cut);
    } else if d > 0 {
      CutEntriesOwn(t, d, cut, |t.entries|);
    }
  }

  lemma {:induction false} CutEntriesOwn(t: Tree, d: nat, cut: nat, n: nat)
    requires t.Index? && 0 < d && n <= |t.entries|
    ensures EntriesBlocks(CutEntries(t, cut, n), d) <= FirstBlocks(t.entries, d, n)
    decreases d, 0, n
  {
    if n > 0 {
      CutEntriesOwn(t, d, cut, n - 1);
      CutOwns(t.entries[n - 1].sub, d - 1, cut);
      CutEntryOwns(t, d, cut, n - 1);
      OneMoreOwns(t, d, cut, n, CutEntries(t, cut, n - 1), CutEntry(t, cut, n - 1));
    }
  }

  lemma OneMoreOwns(t: Tree, d: nat, cut: nat, n: nat, kept: seq<Entry>, more: seq<Entry>)
    requires t.Index? && 0 < d && 0 < n <= |t.entries| && kept == CutEntries(t, cut, n - 1) && more == CutEntry(t, cut, n - 1)
    requires EntriesBlocks(kept, d) <= FirstBlocks(t.entries, d, n - 1) && EntriesBlocks(more, d) <= EntryBlocks(t.entries[n - 1], d)
    ensures EntriesBlocks(CutEntries(t, cut, n), d) <= FirstBlocks(t.entries, d, n)
  {
    CutEntriesLast(t, cut, n);
    EntriesJoin(kept, more, d);
    SumWithin(EntriesBlocks(kept, d), FirstBlocks(t.entries, d, n - 1), EntriesBlocks(more, d), EntryBlocks(t.entries[n - 1], d),
              EntriesBlocks(kept + more, d), FirstBlocks(t.entries, d, n));
  }

  lemma CutEntriesLast(t: Tree, cut: nat, n: nat)
    requires t.Index? && 0 < n <= |t.entries|
    ensures CutEntries(t, cut, n) == CutEntries(t, cut, n - 1) + CutEntry(t, cut, n - 1)
  {
  }

  lemma EntriesJoin(a: seq<Entry>, b: seq<Entry>, d: nat)
    requires 0 < d && |b| <= 1
    ensures EntriesBlocks(a + b, d) == EntriesBlocks(a, d) + EntriesBlocks(b, d)
  {
    if b == [] {
      assert a + b == a;
    } else {
      assert b == [b[0]];
      BlocksPush(a, b[0], d);
      OneEntry(b[0], d);
    }
  }

  lemma OneEntry(e: Entry, d: nat)
    requires 0 < d
    ensures EntriesBlocks([e], d) == EntryBlocks(e, d)
  {
    assert FirstBlocks([e], d, 0) == multiset{};
  }

  lemma CutEntryOwns(t: Tree, d: nat, cut: nat, i: nat)
    requires t.Index? && 0 < d && i < |t.entries| && Blocks(Cut(t.entries[i].sub, cut), d - 1) <= Blocks(t.entries[i].sub, d - 1)
    ensures EntriesBlocks(CutEntry(t, cut, i), d) <= EntryBlocks(t.entries[i], d)
  {
    var kept := CutEntry(t, cut, i);
    if kept != [] {
      assert kept == [kept[0]];
      OneEntry(kept[0], d);
    }
  }

  // ---- Nodes in blocks ----

  datatype Idx = Idx(block: nat, leaf: nat)
  datatype Node = LeafNode(exts: seq<Extent>) | IndexNode(depth: nat, idxs: seq<Idx>)

  type Store = map<nat, Node>

  /** The node is the root of a tree of depth `d` whose nodes are all in the store. */
  ghost predicate Loads(store: Store, node: Node, d: nat)
    decreases d, 1
  {
    match node
    case LeafNode(_) => d == 0
    case IndexNode(depth, idxs) => depth == d > 0 && forall i {:trigger LoadsAt(store, idxs[i], d)} :: 0 <= i < |idxs| ==> LoadsAt(store, idxs[i], d)
  }

  ghost predicate LoadsAt(store: Store, idx: Idx, d: nat)
    requires 0 < d
    decreases d, 0
  {
    idx.leaf in store && Loads(store, store[idx.leaf], d - 1)
  }

  ghost function Load(store: Store, node: Node, d: nat): Tree
    requires Loads(store, node, d)
    decreases d, 1
  {
    match node
    case LeafNode(exts) => Leaf(exts)
    case IndexNode(_, idxs) => Index(seq(|idxs|, i requires 0 <= i < |idxs| => LoadAt(store, idxs[i], d)))
  }

  ghost function LoadAt(store: Store, idx: Idx, d: nat): Entry
    requires 0 < d && LoadsAt(store, idx, d)
    decreases d, 0
  {
    Entry(idx.block, idx.leaf, Load(store, store[idx.leaf], d - 1))
  }

  ghost predicate Reads(store: Store, node: Node, d: nat, t: Tree)
  {
    Loads(store, node, d) && Load(store, node, d) == t
  }

  ghost predicate ReadsAt(store: Store, idx: Idx, d: nat, e: Entry)
    requires 0 < d
  {
    LoadsAt(store, idx, d) && LoadAt(store, idx, d) == e
  }

  /** A tree is read from its own blocks alone. */
  lemma {:induction false} ReadsFrame(store: Store, store': Store, node: Node, d: nat, t: Tree, changed: multiset<nat>)
    requires Reads(store, node, d, t) && OnlyIn(store, store', changed) && Blocks(t, d) !! changed
    ensures Reads(store', node, d, t)
    decreases d, 1
  {
    if node.IndexNode? {
      var idxs := node.idxs;
      forall i | 0 <= i < |idxs| ensures ReadsAt(store', idxs[i], d, t.entries[i]) {
        assert LoadsAt(store, idxs[i], d);
        EntryIsOwned(t.entries, d, |t.entries|, i);
        ReadsAtFrame(store, store', idxs[i], d, t.entries[i], changed);
      }
      ReadsNode(store', idxs, d, t.entries);
    }
  }

  lemma {:induction false} ReadsAtFrame(store: Store, store': Store, idx: Idx, d: nat, e: Entry, changed: multiset<nat>)
    requires 0 < d && ReadsAt(store, idx, d, e) && OnlyIn(store, store', changed) && EntryBlocks(e, d) !! changed
    ensures ReadsAt(store', idx, d, e)
    decreases d, 0
  {
    assert idx.leaf in EntryBlocks(e, d);
    ReadsFrame(store, store', store[idx.leaf], d - 1, e.sub, changed);
  }

  lemma ReadsNode(store: Store, idxs: seq<Idx>, d: nat, entries: seq<Entry>)
    requires 0 < d && |idxs| == |entries| && forall i :: 0 <= i < |idxs| ==> ReadsAt(store, idxs[i], d, entries[i])
    ensures Reads(store, IndexNode(d, idxs), d, Index(entries))
  {
    assert forall i :: 0 <= i < |idxs| ==> LoadsAt(store, idxs[i], d);
    assert Load(store, IndexNode(d, idxs), d).entries == entries;
  }
}
