// Extent-mapped inodes: resolving a logical block, and truncating the tree in
// its blocks.
module ExtentMap {
  import opened BlockSets
  import opened Options
  import opened ExtentTree
  import opened ExtentStore
  import opened ExtentVisits
  import opened BlockRefs

  /** Nodes a walk of a subtree may come to before it is taken for a cycle. */
  const GUARD: nat := 1_000_000

  /** A subtree or a tree that a walk gives up on. */
  predicate GivenUp(nodes: nat)
  {
    nodes > 1_000_000
  }

  /** The nodes of a tree of depth `d`, its root included. */
  ghost function NodeCount(t: Tree, d: nat): (n: nat)
    ensures 0 < n
    decreases d, 1
  {
    if t.Leaf? || d == 0 then 1 else 1 + FirstNodes(t.entries, d, |t.entries|)
  }

  ghost function EntriesNodes(entries: seq<Entry>, d: nat): nat
    requires 0 < d
  {
    FirstNodes(entries, d, |entries|)
  }

  ghost function FirstNodes(entries: seq<Entry>, d: nat, n: nat): nat
    requires 0 < d && n <= |entries|
    decreases d, 0, n
  {
    if n == 0 then 0 else FirstNodes(entries, d, n - 1) + NodeCount(entries[n - 1].sub, d - 1)
  }

  // ---- A stack of nodes to free ----

  function DepthOf(node: Node): nat
  {
    if node.LeafNode? then 0 else node.depth
  }

  /** A block that holds the root of a tree. */
  ghost predicate Rooted(store: Store, b: nat)
  {
    b in store && Loads(store, store[b], DepthOf(store[b]))
  }

  ghost predicate AllRooted(store: Store, stack: seq<nat>)
  {
    forall i {:trigger Rooted(store, stack[i])} :: 0 <= i < |stack| ==> Rooted(store, stack[i])
  }

  /** The blocks of the tree in block `b`, that block included. */
  ghost function TreeBlocks(store: Store, b: nat): multiset<nat>
    requires Rooted(store, b)
  {
    multiset{b} + Blocks(Load(store, store[b], DepthOf(store[b])), DepthOf(store[b]))
  }

  ghost function TreeNodes(store: Store, b: nat): nat
    requires Rooted(store, b)
  {
    NodeCount(Load(store, store[b], DepthOf(store[b])), DepthOf(store[b]))
  }

  ghost function StackBlocks(store: Store, stack: seq<nat>): multiset<nat>
    requires AllRooted(store, stack)
  {
    if stack == [] then multiset{} else StackBlocks(store, stack[..|stack| - 1]) + TreeBlocks(store, stack[|stack| - 1])
  }

  ghost function StackNodes(store: Store, stack: seq<nat>): nat
    requires AllRooted(store, stack)
  {
    if stack == [] then 0 else StackNodes(store, stack[..|stack| - 1]) + TreeNodes(store, stack[|stack| - 1])
  }

  lemma StackPush(store: Store, stack: seq<nat>, b: nat)
    requires AllRooted(store, stack) && Rooted(store, b)
    ensures AllRooted(store, stack + [b])
    ensures StackBlocks(store, stack + [b]) == StackBlocks(store, stack) + TreeBlocks(store, b)
    ensures StackNodes(store, stack + [b]) == StackNodes(store, stack) + TreeNodes(store, b)
  {
    assert (stack + [b])[..|stack|] == stack;
  }

  /** Freeing a subtree: what is freed and what is under the stack make up `total`, nodes and blocks. */
  ghost predicate Freeing(store: Store, stack: seq<nat>, freed: multiset<nat>, guard: nat, total: multiset<nat>, nodes: nat)
  {
    AllRooted(store, stack) && freed + StackBlocks(store, stack) == total && guard + StackNodes(store, stack) == nodes
  }

  lemma FreeingPush(store: Store, stack: seq<nat>, freed: multiset<nat>, guard: nat, total: multiset<nat>, nodes: nat, b: nat)
    requires Freeing(store, stack, freed, guard, total, nodes) && Rooted(store, b)
    ensures Freeing(store, stack + [b], freed, guard, total + TreeBlocks(store, b), nodes + TreeNodes(store, b))
  {
    StackPush(store, stack, b);
  }

  lemma RootedAt(store: Store, idx: Idx, d: nat)
    requires 0 < d && LoadsAt(store, idx, d)
    ensures Rooted(store, idx.leaf) && DepthOf(store[idx.leaf]) == d - 1
    ensures TreeBlocks(store, idx.leaf) == EntryBlocks(LoadAt(store, idx, d), d)
    ensures TreeNodes(store, idx.leaf) == NodeCount(LoadAt(store, idx, d).sub, d - 1)
  {
  }

  /** One more entry of an index node put on the stack. */
  lemma FreeingEntry(store: Store, stack: seq<nat>, freed: multiset<nat>, guard: nat, total: multiset<nat>, nodes: nat,
                     idx: Idx, d: nat, entries: seq<Entry>, i: nat)
    requires 0 < d && i < |entries| && LoadsAt(store, idx, d) && entries[i] == LoadAt(store, idx, d)
    requires Freeing(store, stack, freed, guard, total + FirstBlocks(entries, d, i), nodes + FirstNodes(entries, d, i))
    ensures Freeing(store, stack + [idx.leaf], freed, guard,
                    total + FirstBlocks(entries, d, i + 1), nodes + FirstNodes(entries, d, i + 1))
  {
    RootedAt(store, idx, d);
    FreeingPush(store, stack, freed, guard, total + FirstBlocks(entries, d, i), nodes + FirstNodes(entries, d, i), idx.leaf);
    AddAssociates(total, FirstBlocks(entries, d, i), EntryBlocks(entries[i], d));
  }

  lemma FreeingFree(store: Store, stack: seq<nat>, freed: multiset<nat>, guard: nat, total: multiset<nat>, nodes: nat, more: multiset<nat>)
    requires Freeing(store, stack, freed, guard, total, nodes)
    ensures Freeing(store, stack, freed + more, guard, total + more, nodes)
  {
    assert freed + more + StackBlocks(store, stack) == freed + StackBlocks(store, stack) + more;
  }

  lemma FreeingPop(store: Store, stack: seq<nat>, freed: multiset<nat>, guard: nat, total: multiset<nat>, nodes: nat)
    returns (total': multiset<nat>, nodes': nat)
    requires stack != [] && Freeing(store, stack, freed, guard, total, nodes)
    ensures var b := stack[|stack| - 1];
            && Rooted(store, b) && Freeing(store, stack[..|stack| - 1], freed, guard, total', nodes')
            && total' + TreeBlocks(store, b) == total && nodes' + TreeNodes(store, b) == nodes > guard
  {
    var rest, b := stack[..|stack| - 1], stack[|stack| - 1];
    assert forall i :: 0 <= i < |rest| ==> rest[i] == stack[i];
    total', nodes' := freed + StackBlocks(store, rest), guard + StackNodes(store, rest);
    assert total' + TreeBlocks(store, b) == freed + (StackBlocks(store, rest) + TreeBlocks(store, b));
  }

  lemma FreeingStart(store: Store, b: nat, freed: multiset<nat>)
    requires Rooted(store, b)
    ensures Freeing(store, [b], freed, 0, freed + TreeBlocks(store, b), TreeNodes(store, b))
  {
    assert freed + multiset{} == freed;
    FreeingPush(store, [], freed, 0, freed, 0, b);
    assert [] + [b] == [b];
  }

  // ---- A stack of nodes to walk ----

  /** A node that is the root of a tree. */
  ghost predicate LoadsWhole(store: Store, node: Node)
  {
    Loads(store, node, DepthOf(node))
  }

  ghost predicate AllLoad(store: Store, stack: seq<Node>)
  {
    forall i {:trigger LoadsWhole(store, stack[i])} :: 0 <= i < |stack| ==> LoadsWhole(store, stack[i])
  }

  ghost function NodeRefs(store: Store, node: Node): Bag
    requires LoadsWhole(store, node)
  {
    TreeRefs(Load(store, node, DepthOf(node)), DepthOf(node))
  }

  ghost function NodesUnder(store: Store, node: Node): nat
    requires LoadsWhole(store, node)
  {
    NodeCount(Load(store, node, DepthOf(node)), DepthOf(node))
  }

  ghost function StackRefs(store: Store, stack: seq<Node>): Bag
    requires AllLoad(store, stack)
  {
    if stack == [] then NOTHING else Plus(StackRefs(store, stack[..|stack| - 1]), NodeRefs(store, stack[|stack| - 1]))
  }

  ghost function StackCount(store: Store, stack: seq<Node>): nat
    requires AllLoad(store, stack)
  {
    if stack == [] then 0 else StackCount(store, stack[..|stack| - 1]) + NodesUnder(store, stack[|stack| - 1])
  }

  /** A walk under way: what it has visited and what is under its stack make up `total`, over `nodes` nodes. */
  ghost predicate Walking(store: Store, stack: seq<Node>, visits: seq<Ref>, guard: nat, total: Bag, nodes: nat)
  {
    && AllLoad(store, stack) && Plus(Seen(visits), StackRefs(store, stack)) == total
    && guard + StackCount(store, stack) == nodes
  }

  lemma WalkPush(store: Store, stack: seq<Node>, visits: seq<Ref>, guard: nat, total: Bag, nodes: nat, node: Node)
    requires Walking(store, stack, visits, guard, total, nodes) && LoadsWhole(store, node)
    ensures Walking(store, stack + [node], visits, guard, Plus(total, NodeRefs(store, node)), nodes + NodesUnder(store, node))
  {
    assert (stack + [node])[..|stack|] == stack;
    PlusAssociates(Seen(visits), StackRefs(store, stack), NodeRefs(store, node));
  }

  lemma WalkVisit(store: Store, stack: seq<Node>, visits: seq<Ref>, guard: nat, total: Bag, nodes: nat, r: Ref)
    requires Walking(store, stack, visits, guard, total, nodes)
    ensures Walking(store, stack, visits + [r], guard, Plus(total, One(r)), nodes)
  {
    var pending := StackRefs(store, stack);
    SeenOneMore(visits, r);
    PlusAssociates(Seen(visits), One(r), pending);
    PlusCommutes(One(r), pending);
    PlusAssociates(Seen(visits), pending, One(r));
  }

  lemma WalkPop(store: Store, stack: seq<Node>, visits: seq<Ref>, guard: nat, total: Bag, nodes: nat) returns (total': Bag, nodes': nat)
    requires stack != [] && Walking(store, stack, visits, guard, total, nodes)
    ensures var node := stack[|stack| - 1];
            && LoadsWhole(store, node) && Walking(store, stack[..|stack| - 1], visits, guard, total', nodes')
            && Plus(total', NodeRefs(store, node)) == total && nodes' + NodesUnder(store, node) == nodes > guard
  {
    var rest, node := stack[..|stack| - 1], stack[|stack| - 1];
    assert forall i :: 0 <= i < |rest| ==> rest[i] == stack[i];
    total', nodes' := Plus(Seen(visits), StackRefs(store, rest)), guard + StackCount(store, rest);
    PlusAssociates(Seen(visits), StackRefs(store, rest), NodeRefs(store, node));
  }

  lemma WalkNone(store: Store)
    ensures Walking(store, [], [], 0, NOTHING, 0)
  {
    PlusNothing(NOTHING);
  }

  lemma WalkStart(store: Store, root: Node)
    requires LoadsWhole(store, root)
    ensures Walking(store, [root], [], 0, NodeRefs(store, root), NodesUnder(store, root))
  {
    WalkNone(store);
    WalkPush(store, [], [], 0, NOTHING, 0, root);
    assert [] + [root] == [root];
    NothingPlus(NodeRefs(store, root));
  }

  lemma WalkEnd(store: Store, visits: seq<Ref>, guard: nat, total: Bag, nodes: nat)
    requires Walking(store, [], visits, guard, total, nodes)
    ensures Seen(visits) == total && guard == nodes
  {
    PlusNothing(Seen(visits));
  }

  /** A walk that has come to the first `i` entries of an index node. */
  ghost predicate EntriesWalked(store: Store, stack: seq<Node>, visits: seq<Ref>, guard: nat, total: Bag, nodes: nat, d: nat,
                                entries: seq<Entry>, i: nat)
  {
    && 0 < d && i <= |entries|
    && Walking(store, stack, visits, guard, Plus(total, FirstRefs(entries, d, i)), nodes + FirstNodes(entries, d, i))
  }

  lemma NoEntryWalked(store: Store, stack: seq<Node>, visits: seq<Ref>, guard: nat, total: Bag, nodes: nat, d: nat, entries: seq<Entry>)
    requires 0 < d && Walking(store, stack, visits, guard, total, nodes)
    ensures EntriesWalked(store, stack, visits, guard, total, nodes, d, entries, 0)
  {
    PlusNothing(total);
  }

  /** One more entry of an index node visited, its node put on the stack. */
  lemma WalkEntry(store: Store, stack: seq<Node>, visits: seq<Ref>, guard: nat, total: Bag, nodes: nat, idx: Idx, d: nat,
                  entries: seq<Entry>, i: nat)
    requires 0 < d && i < |entries| && LoadsAt(store, idx, d) && entries[i] == LoadAt(store, idx, d)
    requires EntriesWalked(store, stack, visits, guard, total, nodes, d, entries, i)
    ensures EntriesWalked(store, stack + [store[idx.leaf]], visits + [MetaRef(idx.leaf)], guard, total, nodes, d, entries, i + 1)
  {
    var sofar, meta, under := FirstRefs(entries, d, i), One(MetaRef(idx.leaf)), TreeRefs(entries[i].sub, d - 1);
    WalkVisit(store, stack, visits, guard, Plus(total, sofar), nodes + FirstNodes(entries, d, i), MetaRef(idx.leaf));
    RootedAt(store, idx, d);
    WalkPush(store, stack, visits + [MetaRef(idx.leaf)], guard, Plus(Plus(total, sofar), meta), nodes + FirstNodes(entries, d, i), store[idx.leaf]);
    PlusAssociates(total, sofar, Plus(meta, under));
    PlusAssociates(Plus(total, sofar), meta, under);
  }

  lemma WalkRun(store: Store, stack: seq<Node>, visits: seq<Ref>, guard: nat, total: Bag, nodes: nat, block: nat, start: nat, k: nat, r: Ref)
    requires Walking(store, stack, visits, guard, Plus(total, RunRefs(block, start, k)), nodes) && r == DataRef(block + k, start + k)
    ensures Walking(store, stack, visits + [r], guard, Plus(total, RunRefs(block, start, k + 1)), nodes)
  {
    WalkVisit(store, stack, visits, guard, Plus(total, RunRefs(block, start, k)), nodes, r);
    PlusAssociates(total, RunRefs(block, start, k), One(r));
    RunOneMore(block, start, k, r);
  }

  lemma WalkExtent(total: Bag, exts: seq<Extent>, i: nat)
    requires i < |exts|
    ensures Plus(Plus(total, FirstLeafRefs(exts, i)), ExtentRefs(exts[i])) == Plus(total, FirstLeafRefs(exts, i + 1))
  {
    assert exts[..i + 1][..i] == exts[..i];
    PlusAssociates(total, FirstLeafRefs(exts, i), ExtentRefs(exts[i]));
  }

  /** A walk of a well-formed tree visits each mapped logical block once, with the block it is mapped to, and every
    * block owned. */
  ghost predicate WalkedAll(t: Tree, d: nat, visits: seq<Ref>)
  {
    && (forall l: nat, p: nat :: multiset(visits)[DataRef(l, p)] == Maps(Lookup(t, l), p))
    && Physicals(visits) == Blocks(t, d)
  }

  lemma TreeIsWalked(t: Tree, d: nat, hi: nat, visits: seq<Ref>)
    requires WellFormed(t, d, 0, hi) && Seen(visits) == TreeRefs(t, d)
    ensures WalkedAll(t, d, visits)
  {
    forall l: nat, p: nat ensures multiset(visits)[DataRef(l, p)] == Maps(Lookup(t, l), p) {
      TreeRefsGraph(t, d, 0, hi, l, p);
      LookupIsFind(t, d, 0, hi, l);
    }
    TreeRefsBlocks(t, d);
  }

  /** Resolving and walking say of each block of an extent what was stored: where it is, and that it is there once. */
  lemma StoredIsResolved(t: Tree, d: nat, hi: nat, k: nat, n: nat, written: bool, i: nat, visits: seq<Ref>)
    requires WellFormed(t, d, 0, hi) && k < |Flat(t, d)| && StoredFor(Flat(t, d)[k], n, written) && i < n
    ensures var e := Flat(t, d)[k];
            && Physical(Lookup(t, e.block + i)) == Some(e.start + i)
            && (WalkedAll(t, d, visits) ==> multiset(visits)[DataRef(e.block + i, e.start + i)] == 1)
  {
    LookupStored(t, d, 0, hi, k, n, written, i);
  }

  // ---- Truncation ----

  /** No subtree freed whole is large enough to be taken for a cycle. */
  ghost predicate Fits(t: Tree, d: nat, cut: nat)
    decreases d, 1
  {
    t.Index? && 0 < d ==> forall i :: 0 <= i < |t.entries| ==> EntryFitsGuard(t, d, cut, i)
  }

  ghost predicate EntryFitsGuard(t: Tree, d: nat, cut: nat, i: nat)
    requires t.Index? && 0 < d && i < |t.entries|
    decreases d, 0
  {
    var e := t.entries[i];
    if e.first >= cut then !GivenUp(NodeCount(e.sub, d - 1))
    else if i + 1 < |t.entries| && t.entries[i + 1].first <= cut then true
    else Fits(e.sub, d - 1, cut)
  }

  /** Where truncating an index node stands before entry `i`. */
  ghost predicate Truncating(was: Store, store: Store, t: Tree, d: nat, cut: nat, idxs: seq<Idx>, i: nat, kept: seq<Idx>)
  {
    && 0 < d && t.Index? && i <= |idxs| == |t.entries| && Unshared(EntriesBlocks(t.entries, d))
    && AllRead(store, idxs, d, t.entries, i) && AllRead(store, kept, d, CutEntries(t, cut, i), 0)
    && OnlyIn(was, store, FirstBlocks(t.entries, d, i))
  }

  /** The indices from the `i`-th on read as the entries. */
  ghost predicate AllRead(store: Store, idxs: seq<Idx>, d: nat, entries: seq<Entry>, i: nat)
    requires 0 < d
  {
    |idxs| == |entries| && forall j {:trigger ReadsAt(store, idxs[j], d, entries[j])} :: i <= j < |idxs| ==> ReadsAt(store, idxs[j], d, entries[j])
  }

  lemma AllReadAtFirst(store: Store, idxs: seq<Idx>, d: nat)
    requires Loads(store, IndexNode(d, idxs), d)
    ensures AllRead(store, idxs, d, Load(store, IndexNode(d, idxs), d).entries, 0)
  {
    var entries := Load(store, IndexNode(d, idxs), d).entries;
    forall j | 0 <= j < |idxs| ensures ReadsAt(store, idxs[j], d, entries[j]) {
      assert LoadsAt(store, idxs[j], d);
    }
  }

  /** Entry `i` cut: what is left of it, if anything, is read from the store. */
  ghost predicate EntryCut(was: Store, store: Store, t: Tree, d: nat, cut: nat, i: nat, idx: Idx, keep: bool)
    requires 0 < d && t.Index? && i < |t.entries|
  {
    && OnlyIn(was, store, EntryBlocks(t.entries[i], d))
    && (keep <==> CutEntry(t, cut, i) != [])
    && (keep ==> ReadsAt(store, idx, d, CutEntry(t, cut, i)[0]))
  }

  lemma KeptApart(store: Store, store': Store, t: Tree, d: nat, cut: nat, i: nat, j: nat, idx: Idx)
    requires 0 < d && t.Index? && i < |t.entries| && Unshared(EntriesBlocks(t.entries, d)) && j < |CutEntries(t, cut, i)|
    requires ReadsAt(store, idx, d, CutEntries(t, cut, i)[j]) && OnlyIn(store, store', EntryBlocks(t.entries[i], d))
    ensures ReadsAt(store', idx, d, CutEntries(t, cut, i)[j])
  {
    var kept := CutEntries(t, cut, i);
    CutEntriesOwn(t, d, cut, i);
    EntryIsOwned(kept, d, |kept|, j);
    EntryApart(t.entries, d, i);
    ReadsAtFrame(store, store', idx, d, kept[j], EntryBlocks(t.entries[i], d));
  }

  lemma LaterReads(store: Store, store': Store, t: Tree, d: nat, i: nat, j: nat, idx: Idx)
    requires 0 < d && t.Index? && i < j < |t.entries| && Unshared(EntriesBlocks(t.entries, d))
    requires ReadsAt(store, idx, d, t.entries[j]) && OnlyIn(store, store', EntryBlocks(t.entries[i], d))
    ensures ReadsAt(store', idx, d, t.entries[j])
  {
    LaterApart(t.entries, d, i, j);
    ReadsAtFrame(store, store', idx, d, t.entries[j], EntryBlocks(t.entries[i], d));
  }

  lemma KeptOn(store: Store, store': Store, t: Tree, d: nat, cut: nat, i: nat, kept: seq<Idx>, idx: Idx, keep: bool)
    requires 0 < d && t.Index? && i < |t.entries| && Unshared(EntriesBlocks(t.entries, d))
    requires AllRead(store, kept, d, CutEntries(t, cut, i), 0) && EntryCut(store, store', t, d, cut, i, idx, keep)
    ensures AllRead(store', if keep then kept + [idx] else kept, d, CutEntries(t, cut, i + 1), 0)
  {
    var kept' := if keep then kept + [idx] else kept;
    var es, es' := CutEntries(t, cut, i), CutEntries(t, cut, i + 1);
    assert es' == es + CutEntry(t, cut, i);
    forall j | 0 <= j < |kept'| ensures ReadsAt(store', kept'[j], d, es'[j]) {
      if j < |kept| {
        KeptApart(store, store', t, d, cut, i, j, kept[j]);
      }
    }
  }

  lemma LaterOn(store: Store, store': Store, t: Tree, d: nat, idxs: seq<Idx>, i: nat)
    requires 0 < d && t.Index? && i < |t.entries| && Unshared(EntriesBlocks(t.entries, d))
    requires AllRead(store, idxs, d, t.entries, i) && OnlyIn(store, store', EntryBlocks(t.entries[i], d))
    ensures AllRead(store', idxs, d, t.entries, i + 1)
  {
    forall j | i + 1 <= j < |idxs| ensures ReadsAt(store', idxs[j], d, t.entries[j]) {
      LaterReads(store, store', t, d, i, j, idxs[j]);
    }
  }

  lemma OnlyInMore(was: Store, mid: Store, store: Store, entries: seq<Entry>, d: nat, i: nat)
    requires 0 < d && i < |entries| && OnlyIn(was, mid, FirstBlocks(entries, d, i)) && OnlyIn(mid, store, EntryBlocks(entries[i], d))
    ensures OnlyIn(was, store, FirstBlocks(entries, d, i + 1))
  {
  }

  /** Cutting one entry disturbs neither those kept before it nor those to come. */
  lemma TruncatingOn(was: Store, mid: Store, store: Store, t: Tree, d: nat, cut: nat, idxs: seq<Idx>, i: nat, kept: seq<Idx>, keep: bool)
    requires Truncating(was, mid, t, d, cut, idxs, i, kept) && i < |idxs| && EntryCut(mid, store, t, d, cut, i, idxs[i], keep)
    ensures Truncating(was, store, t, d, cut, idxs, i + 1, if keep then kept + [idxs[i]] else kept)
  {
    KeptOn(mid, store, t, d, cut, i, kept, idxs[i], keep);
    LaterOn(mid, store, t, d, idxs, i);
    OnlyInMore(was, mid, store, t.entries, d, i);
  }

  /** A child cut in place: stored over its block, it reads as the cut, and only its own blocks have changed. */
  lemma ChildStored(was: Store, store: Store, idx: Idx, d: nat, e: Entry, child: Node, cut: nat)
    requires 0 < d && ReadsAt(was, idx, d, e) && Unshared(EntryBlocks(e, d))
    requires OnlyIn(was, store, Blocks(e.sub, d - 1)) && Reads(store, child, d - 1, Cut(e.sub, cut))
    ensures OnlyIn(was, store, EntryBlocks(e, d)) && OnlyIn(was, store[idx.leaf := child], EntryBlocks(e, d))
    ensures ReadsAt(store[idx.leaf := child], idx, d, e.(sub := Cut(e.sub, cut)))
  {
    var sub, store' := Cut(e.sub, cut), store[idx.leaf := child];
    UnsharedPart(multiset{e.block}, Blocks(e.sub, d - 1), EntryBlocks(e, d));
    CutOwns(e.sub, d - 1, cut);
    ReadsFrame(store, store', child, d - 1, sub, multiset{e.block});
  }

  lemma ReadsEmpty(store: Store, node: Node, d: nat, t: Tree)
    requires Reads(store, node, d, t)
    ensures Empty(t) <==> EntryCount(node) == 0
  {
  }

  lemma OnlyInWider(was: Store, store: Store, a: multiset<nat>, b: multiset<nat>)
    requires OnlyIn(was, store, a) && a <= b
    ensures OnlyIn(was, store, b)
  {
  }

  lemma OnlyInWhole(was: Store, store: Store, t: Tree, d: nat, n: nat)
    requires t.Index? && 0 < d && n <= |t.entries| && OnlyIn(was, store, FirstBlocks(t.entries, d, n))
    ensures OnlyIn(was, store, Blocks(t, d))
  {
    PrefixIsOwned(t.entries, d, n, |t.entries|);
    OnlyInWider(was, store, FirstBlocks(t.entries, d, n), Blocks(t, d));
  }

  lemma TruncatingStart(store: Store, t: Tree, d: nat, cut: nat, idxs: seq<Idx>)
    requires 0 < d && Reads(store, IndexNode(d, idxs), d, t) && Unshared(Blocks(t, d))
    ensures Truncating(store, store, t, d, cut, idxs, 0, [])
  {
    AllReadAtFirst(store, idxs, d);
  }

  lemma TruncatingDone(was: Store, store: Store, t: Tree, d: nat, cut: nat, idxs: seq<Idx>, kept: seq<Idx>)
    requires Truncating(was, store, t, d, cut, idxs, |idxs|, kept)
    ensures Reads(store, IndexNode(d, kept), d, Cut(t, cut)) && OnlyIn(was, store, Blocks(t, d))
  {
    ReadsNode(store, kept, d, CutEntries(t, cut, |idxs|));
  }

  lemma EntryUnshared(entries: seq<Entry>, d: nat, i: nat)
    requires 0 < d && i < |entries| && Unshared(EntriesBlocks(entries, d))
    ensures Unshared(EntryBlocks(entries[i], d))
  {
    EntryIsOwned(entries, d, |entries|, i);
    UnsharedPart(EntryBlocks(entries[i], d), multiset{}, EntriesBlocks(entries, d));
  }

  /** A child left empty is freed with its block; another keeps it. */
  lemma ChildBalance(t: Tree, d: nat, cut: nat, i: nat, freed: multiset<nat>, freed': multiset<nat>)
    requires 0 < d && t.Index? && i < |t.entries| && t.entries[i].first < cut
    requires i + 1 < |t.entries| ==> t.entries[i + 1].first > cut
    requires var sub := t.entries[i].sub; freed' + Blocks(Cut(sub, cut), d - 1) == freed + Blocks(sub, d - 1)
    ensures var e := t.entries[i];
            if Empty(Cut(e.sub, cut)) then freed' + multiset{e.block} + EntriesBlocks(CutEntry(t, cut, i), d) == freed + EntryBlocks(e, d)
            else freed' + EntriesBlocks(CutEntry(t, cut, i), d) == freed + EntryBlocks(e, d)
  {
    var e := t.entries[i];
    var e' := e.(sub := Cut(e.sub, cut));
    OneEntry(e', d);
    Regroup(freed, freed, freed', multiset{e.block}, Blocks(e'.sub, d - 1), multiset{e.block}, Blocks(e.sub, d - 1));
    EmptyOwnsNothing(e'.sub, d - 1);
  }

  lemma EmptyOwnsNothing(t: Tree, d: nat)
    ensures Empty(t) ==> Blocks(t, d) == multiset{}
  {
  }

  /** What is freed and kept of the first `i` entries is what they owned. */
  ghost predicate Balanced(t: Tree, d: nat, cut: nat, i: nat, freed: multiset<nat>, freed': multiset<nat>)
    requires 0 < d && t.Index? && i <= |t.entries|
  {
    freed' + EntriesBlocks(CutEntries(t, cut, i), d) == freed + FirstBlocks(t.entries, d, i)
  }

  lemma SlotBalance(t: Tree, d: nat, cut: nat, i: nat, freed: multiset<nat>, freed': multiset<nat>, freed'': multiset<nat>)
    requires 0 < d && t.Index? && i < |t.entries|
    requires Balanced(t, d, cut, i, freed, freed')
    requires freed'' + EntriesBlocks(CutEntry(t, cut, i), d) == freed' + EntryBlocks(t.entries[i], d)
    ensures Balanced(t, d, cut, i + 1, freed, freed'')
  {
    EntriesJoin(CutEntries(t, cut, i), CutEntry(t, cut, i), d);
    Regroup(freed, freed', freed'', EntriesBlocks(CutEntries(t, cut, i), d), EntriesBlocks(CutEntry(t, cut, i), d),
            FirstBlocks(t.entries, d, i), EntryBlocks(t.entries[i], d));
  }

  function Physical(h: Option<Hit>): Option<nat>
  {
    match h
    case None => None
    case Some(hit) => Some(hit.physical)
  }

  /** A truncated tree: well formed, the old mapping below the cut and nothing from it on, every block either kept or
    * freed once. */
  ghost predicate TruncatedTo(t: Tree, d: nat, t': Tree, d': nat, hi: nat, cut: nat, freed: multiset<nat>)
  {
    && WellFormed(t', d', 0, hi)
    && (forall l: nat :: Lookup(t', l) == if l < cut then Lookup(t, l) else None)
    && freed + Blocks(t', d') == Blocks(t, d) && Unshared(freed) && freed !! Blocks(t', d')
    && |freed| == |Blocks(t, d)| - |Blocks(t', d')|
  }

  lemma CutTruncates(t: Tree, d: nat, hi: nat, cut: nat, freed: multiset<nat>)
    requires WellFormed(t, d, 0, hi) && Unshared(Blocks(t, d)) && freed + Blocks(Cut(t, cut), d) == Blocks(t, d)
    ensures TruncatedTo(t, d, Cut(t, cut), d, hi, cut, freed)
    ensures Empty(Cut(t, cut)) ==> TruncatedTo(t, d, Leaf([]), 0, hi, cut, freed)
  {
    var t' := Cut(t, cut);
    forall l: nat ensures Lookup(t', l) == if l < cut then Lookup(t, l) else None {
      CutLookup(t, d, 0, hi, cut, l);
    }
    CutWellFormed(t, d, 0, hi, cut);
    UnsharedPart(freed, Blocks(t', d), Blocks(t, d));
    assert |freed + Blocks(t', d)| == |freed| + |Blocks(t', d)|;
    if Empty(t') {
      EmptyOwnsNothing(t', d);
      forall l: nat ensures Lookup(Leaf([]), l) == Lookup(t', l) {
      }
    }
  }

  function EntryCount(node: Node): nat
  {
    if node.LeafNode? then |node.exts| else |node.idxs|
  }

  /** Blocks from the `n`-th on freed, where `n` are kept. */
  lemma ExtentFreed(e: Extent, cut: nat, freed: multiset<nat>, n: nat, rest: nat, freed': multiset<nat>)
    requires n == KeptLen(e, cut) && rest == e.EffectiveLen() - n && freed' == freed + Run(e.start + n, rest)
    ensures freed' + ExtentsBlocks(CutExtent(e, cut)) == freed + ExtentBlocks(e)
  {
    CutExtentBlocks(e, cut);
    FreedRest(freed, freed', Run(e.start + n, rest), ExtentsBlocks(CutExtent(e, cut)), ExtentBlocks(e));
  }

  lemma FreedRest(freed: multiset<nat>, freed': multiset<nat>, dropped: multiset<nat>, kept: multiset<nat>, whole: multiset<nat>)
    requires freed' == freed + dropped && dropped + kept == whole
    ensures freed' + kept == freed + whole
  {
    AddAssociates(freed, dropped, kept);
  }

  /** The list extended with a run of blocks. */
  function Extend(freed: seq<nat>, start: nat, len: nat): (r: seq<nat>)
    ensures multiset(r) == multiset(freed) + Run(start, len)
  {
    if len == 0 then RunOfNone(start); freed
    else RunLast(start, len); Extend(freed, start, len - 1) + [start + len - 1]
  }

  class ExtentDevice {
    var store: Store

    constructor (contents: Store)
      ensures store == contents
    {
      store := contents;
    }

    /** Frees the extents of a leaf. */
    method CollectLeaf(exts: seq<Extent>, freed: seq<nat>) returns (freed': seq<nat>)
      ensures multiset(freed') == multiset(freed) + ExtentsBlocks(exts)
    {
      freed' := freed;
      for i := 0 to |exts|
        invariant multiset(freed') == multiset(freed) + FirstExtents(exts, i)
      {
        freed' := Extend(freed', exts[i].start, exts[i].EffectiveLen());
      }
    }

    /** Puts the nodes under an index node on the stack. */
    method CollectIndex(idxs: seq<Idx>, d: nat, stack: seq<nat>, ghost freed: multiset<nat>, ghost guard: nat, ghost total: multiset<nat>, ghost nodes: nat)
      returns (stack': seq<nat>)
      requires Loads(store, IndexNode(d, idxs), d) && Freeing(store, stack, freed, guard, total, nodes)
      ensures var entries := Load(store, IndexNode(d, idxs), d).entries;
              Freeing(store, stack', freed, guard, total + EntriesBlocks(entries, d), nodes + EntriesNodes(entries, d))
    {
      ghost var entries := Load(store, IndexNode(d, idxs), d).entries;
      stack' := stack;
      AddNothing(total);
      for i := 0 to |idxs|
        invariant Freeing(store, stack', freed, guard, total + FirstBlocks(entries, d, i), nodes + FirstNodes(entries, d, i))
      {
        assert LoadsAt(store, idxs[i], d) && entries[i] == LoadAt(store, idxs[i], d);
        FreeingEntry(store, stack', freed, guard, total, nodes, idxs[i], d, entries, i);
        stack' := stack' + [idxs[i].leaf];
      }
    }

    /** Frees one node's block and extents, or puts the nodes under it on the stack. */
    method CollectNode(b: nat, stack: seq<nat>, freed: seq<nat>, ghost guard: nat, ghost total: multiset<nat>, ghost nodes: nat)
      returns (stack': seq<nat>, freed': seq<nat>)
      requires Rooted(store, b) && Freeing(store, stack, multiset(freed), guard, total, nodes)
      ensures Freeing(store, stack', multiset(freed'), guard + 1, total + TreeBlocks(store, b), nodes + TreeNodes(store, b))
    {
      freed' := freed + [b];
      FreeingFree(store, stack, multiset(freed), guard, total, nodes, multiset{b});
      ghost var mid := total + multiset{b};
      var node := store[b];
      match node
      case LeafNode(exts) =>
        stack' := stack;
        FreeingFree(store, stack, multiset(freed'), guard, mid, nodes, ExtentsBlocks(exts));
        freed' := CollectLeaf(exts, freed');
        assert mid + ExtentsBlocks(exts) == total + TreeBlocks(store, b);
      case IndexNode(depth, idxs) =>
        stack' := CollectIndex(idxs, depth, stack, multiset(freed'), guard, mid, nodes);
        ghost var entries := Load(store, node, depth).entries;
        assert mid + EntriesBlocks(entries, depth) == total + TreeBlocks(store, b);
    }

    /** Frees a subtree: its root's block, the blocks of the nodes below, and their extents; fails past a million nodes. */
    method CollectSubtree(block: nat, freed: seq<nat>) returns (ok: bool, freed': seq<nat>)
      requires Rooted(store, block)
      ensures ok <==> !GivenUp(TreeNodes(store, block))
      ensures ok ==> multiset(freed') == multiset(freed) + TreeBlocks(store, block)
    {
      ghost var total, nodes := multiset(freed) + TreeBlocks(store, block), TreeNodes(store, block);
      freed' := freed;
      var stack, guard := [block], 0;
      FreeingStart(store, block, multiset(freed));
      while stack != []
        invariant Freeing(store, stack, multiset(freed'), guard, total, nodes) && guard <= GUARD
        decreases nodes - guard
      {
        var b := stack[|stack| - 1];
        ghost var total', nodes' := FreeingPop(store, stack, multiset(freed'), guard, total, nodes);
        guard := guard + 1;
        if guard > GUARD {
          return false, freed';
        }
        stack, freed' := CollectNode(b, stack[..|stack| - 1], freed', guard - 1, total', nodes');
      }
      assert multiset(freed') + multiset{} == multiset(freed');
      ok := true;
    }

    /** Truncates the extents of a leaf. */
    method TruncateLeaf(exts: seq<Extent>, cut: nat, freed: seq<nat>) returns (kept: seq<Extent>, freed': seq<nat>)
      ensures kept == CutExtents(exts, cut)
      ensures multiset(freed') + ExtentsBlocks(kept) == multiset(freed) + ExtentsBlocks(exts)
    {
      kept, freed' := [], freed;
      for i := 0 to |exts|
        invariant kept == CutExtents(exts[..i], cut)
        invariant multiset(freed') + ExtentsBlocks(kept) == multiset(freed) + FirstExtents(exts, i)
      {
        assert exts[..i + 1][..i] == exts[..i];
        ghost var freed0, kept0 := freed', kept;
        var e: Extent;
        var keep;
        keep, e, freed' := TruncateExtent(exts[i], cut, freed');
        kept := if keep then kept + [e] else kept;
        assert kept == kept0 + CutExtent(exts[i], cut);
        ExtentsJoin(kept0, CutExtent(exts[i], cut));
        Regroup(multiset(freed), multiset(freed0), multiset(freed'), ExtentsBlocks(kept0), ExtentsBlocks(CutExtent(exts[i], cut)),
                FirstExtents(exts, i), ExtentBlocks(exts[i]));
      }
      assert exts[..|exts|] == exts;
    }

    method TruncateExtent(ext: Extent, cut: nat, freed: seq<nat>) returns (keep: bool, ext': Extent, freed': seq<nat>)
      ensures CutExtent(ext, cut) == if keep then [ext'] else []
      ensures multiset(freed') + ExtentsBlocks(CutExtent(ext, cut)) == multiset(freed) + ExtentBlocks(ext)
    {
      freed', ext' := freed, ext;
      var len := ext.EffectiveLen();
      if ext.block >= cut {
        freed' := Extend(freed, ext.start, len);
        ExtentFreed(ext, cut, multiset(freed), 0, len, multiset(freed'));
        return false, ext, freed';
      }
      if ext.block + len > cut {
        var left := cut - ext.block;
        freed' := Extend(freed, ext.start + left, len - left);
        ExtentFreed(ext, cut, multiset(freed), left, len - left, multiset(freed'));
        var uninit := if ext.IsUninit() then INIT_MAX_LEN else 0;
        return true, ext.(len := left + uninit), freed';
      }
      RunOfNone(ext.start + len);
      AddNothing(multiset(freed));
      ExtentFreed(ext, cut, multiset(freed), len, 0, multiset(freed));
      keep := true;
    }

    /** A child of a node, past part of which the tree is cut. */
    method TruncateChild(ghost t: Tree, ghost i: nat, idx: Idx, d: nat, cut: nat, freed: seq<nat>) returns (ok: bool, keep: bool, freed': seq<nat>)
      requires 0 < d && t.Index? && i < |t.entries| && ReadsAt(store, idx, d, t.entries[i])
      requires Unshared(EntryBlocks(t.entries[i], d)) && Unshared(Blocks(t.entries[i].sub, d - 1))
      requires t.entries[i].first < cut && (i + 1 < |t.entries| ==> t.entries[i + 1].first > cut)
      modifies this
      ensures ok <==> EntryFitsGuard(t, d, cut, i)
      ensures OnlyIn(old(store), store, EntryBlocks(t.entries[i], d))
      ensures ok ==> EntryCut(old(store), store, t, d, cut, i, idx, keep)
      ensures ok ==> multiset(freed') + EntriesBlocks(CutEntry(t, cut, i), d) == multiset(freed) + EntryBlocks(t.entries[i], d)
      decreases d, 0
    {
      ghost var e, was := t.entries[i], store;
      var child;
      ok, child, freed' := TruncateNode(store[idx.leaf], d - 1, cut, freed);
      OnlyInWider(was, store, Blocks(e.sub, d - 1), EntryBlocks(e, d));
      keep := false;
      if ok {
        ChildStored(was, store, idx, d, e, child, cut);
        ReadsEmpty(store, child, d - 1, Cut(e.sub, cut));
        ChildBalance(t, d, cut, i, multiset(freed), multiset(freed'));
        if EntryCount(child) == 0 {
          freed' := freed' + [idx.leaf];
        } else {
          store := store[idx.leaf := child];
          keep := true;
        }
      }
    }

    /** One entry of an index node: freed whole, kept whole, or cut. */
    method TruncateEntry(ghost t: Tree, idxs: seq<Idx>, i: nat, d: nat, cut: nat, freed: seq<nat>) returns (ok: bool, keep: bool, freed': seq<nat>)
      requires 0 < d && t.Index? && i < |t.entries| && AllRead(store, idxs, d, t.entries, i)
      requires Unshared(EntryBlocks(t.entries[i], d)) && Unshared(Blocks(t.entries[i].sub, d - 1))
      modifies this
      ensures ok <==> EntryFitsGuard(t, d, cut, i)
      ensures OnlyIn(old(store), store, EntryBlocks(t.entries[i], d))
      ensures ok ==> EntryCut(old(store), store, t, d, cut, i, idxs[i], keep)
      ensures ok ==> multiset(freed') + EntriesBlocks(CutEntry(t, cut, i), d) == multiset(freed) + EntryBlocks(t.entries[i], d)
      decreases d, 1
    {
      var idx := idxs[i];
      assert ReadsAt(store, idx, d, t.entries[i]);
      assert i + 1 < |idxs| ==> ReadsAt(store, idxs[i + 1], d, t.entries[i + 1]);
      ok, keep, freed' := true, true, freed;
      if idx.block >= cut {
        RootedAt(store, idx, d);
        ok, freed' := CollectSubtree(idx.leaf, freed);
        keep := false;
      } else if i + 1 < |idxs| && idxs[i + 1].block <= cut {
        OneEntry(t.entries[i], d);
      } else {
        ok, keep, freed' := TruncateChild(t, i, idx, d, cut, freed);
      }
    }

    /** Truncates the entries of an index node, and the nodes under them in place. */
    method TruncateIndex(ghost t: Tree, idxs: seq<Idx>, d: nat, cut: nat, freed: seq<nat>) returns (ok: bool, kept: seq<Idx>, freed': seq<nat>)
      requires 0 < d && Reads(store, IndexNode(d, idxs), d, t) && Unshared(Blocks(t, d))
      modifies this
      ensures ok <==> Fits(t, d, cut)
      ensures OnlyIn(old(store), store, Blocks(t, d))
      ensures ok ==> Reads(store, IndexNode(d, kept), d, Cut(t, cut))
      ensures ok ==> multiset(freed') + Blocks(Cut(t, cut), d) == multiset(freed) + Blocks(t, d)
      decreases d, 3
    {
      ghost var was := store;
      kept, freed' := [], freed;
      TruncatingStart(store, t, d, cut, idxs);
      for i := 0 to |idxs|
        invariant Truncating(was, store, t, d, cut, idxs, i, kept) && Balanced(t, d, cut, i, multiset(freed), multiset(freed'))
        invariant forall j :: 0 <= j < i ==> EntryFitsGuard(t, d, cut, j)
      {
        ok, kept, freed' := TruncateSlot(was, t, idxs, i, d, cut, kept, freed, freed');
        if !ok {
          OnlyInWhole(was, store, t, d, i + 1);
          return false, kept, freed';
        }
      }
      TruncatingDone(was, store, t, d, cut, idxs, kept);
      ok := true;
    }

    method TruncateSlot(ghost was: Store, ghost t: Tree, idxs: seq<Idx>, i: nat, d: nat, cut: nat, kept: seq<Idx>, ghost freed0: seq<nat>, freed: seq<nat>)
      returns (ok: bool, kept': seq<Idx>, freed': seq<nat>)
      requires Truncating(was, store, t, d, cut, idxs, i, kept) && i < |idxs|
      requires Balanced(t, d, cut, i, multiset(freed0), multiset(freed))
      modifies this
      ensures ok <==> EntryFitsGuard(t, d, cut, i)
      ensures OnlyIn(was, store, FirstBlocks(t.entries, d, i + 1))
      ensures ok ==> Truncating(was, store, t, d, cut, idxs, i + 1, kept') && Balanced(t, d, cut, i + 1, multiset(freed0), multiset(freed'))
      decreases d, 2
    {
      ghost var mid := store;
      EntryApart(t.entries, d, i);
      EntryUnshared(t.entries, d, i);
      var keep;
      ok, keep, freed' := TruncateEntry(t, idxs, i, d, cut, freed);
      kept' := if keep then kept + [idxs[i]] else kept;
      OnlyInMore(was, mid, store, t.entries, d, i);
      if ok {
        TruncatingOn(was, mid, store, t, d, cut, idxs, i, kept, keep);
        SlotBalance(t, d, cut, i, multiset(freed0), multiset(freed), multiset(freed'));
      }
    }

    /** Truncates one node, and everything under it in place. */
    method TruncateNode(node: Node, ghost d: nat, cut: nat, freed: seq<nat>) returns (ok: bool, node': Node, freed': seq<nat>)
      requires Loads(store, node, d) && Unshared(Blocks(Load(store, node, d), d))
      modifies this
      ensures var t := Load(old(store), node, d);
              && (ok <==> Fits(t, d, cut))
              && OnlyIn(old(store), store, Blocks(t, d))
              && (ok ==> Reads(store, node', d, Cut(t, cut)))
              && (ok ==> multiset(freed') + Blocks(Cut(t, cut), d) == multiset(freed) + Blocks(t, d))
      decreases d, 4
    {
      match node
      case LeafNode(exts) =>
        var kept;
        kept, freed' := TruncateLeaf(exts, cut, freed);
        return true, LeafNode(kept), freed';
      case IndexNode(depth, idxs) =>
        var kept;
        ok, kept, freed' := TruncateIndex(Load(store, node, d), idxs, depth, cut, freed);
        node' := IndexNode(depth, kept);
    }

    /** Truncates an inode's tree; where no entry is left the root goes back to depth 0. */
    method Truncate(root: Node, ghost d: nat, ghost hi: nat, cut: nat) returns (ok: bool, root': Node, freed: seq<nat>)
      requires Loads(store, root, d) && Unshared(Blocks(Load(store, root, d), d)) && WellFormed(Load(store, root, d), d, 0, hi)
      modifies this
      ensures ok <==> Fits(Load(old(store), root, d), d, cut)
      ensures OnlyIn(old(store), store, Blocks(Load(old(store), root, d), d))
      ensures ok ==> Loads(store, root', DepthOf(root'))
      ensures ok ==> TruncatedTo(Load(old(store), root, d), d, Load(store, root', DepthOf(root')), DepthOf(root'), hi, cut, multiset(freed))
    {
      ghost var t := Load(store, root, d);
      ok, root', freed := TruncateNode(root, d, cut, []);
      if ok {
        CutTruncates(t, d, hi, cut, multiset(freed));
        ReadsEmpty(store, root', d, Cut(t, cut));
        if EntryCount(root') == 0 && root'.IndexNode? && root'.depth > 0 {
          root' := LeafNode([]);
        }
      }
    }

    /** The extent of a leaf that covers a logical block. */
    method FindExtent(exts: seq<Extent>, logical: nat) returns (r: Option<nat>)
      ensures r == Physical(FindIn(exts, logical))
    {
      assert exts[0..] == exts;
      for i := 0 to |exts|
        invariant FindIn(exts, logical) == FindIn(exts[i..], logical)
      {
        assert exts[i..][1..] == exts[i + 1..];
        var ext := exts[i];
        if logical >= ext.block && logical < ext.block + ext.EffectiveLen() {
          return Some(ext.start + (logical - ext.block));
        }
      }
      r := None;
    }

    /** The node to go down to for a logical block, if any index starts early enough. */
    method PickIndex(idxs: seq<Idx>, ghost entries: seq<Entry>, logical: nat) returns (r: Option<nat>)
      requires |idxs| == |entries| && forall i :: 0 <= i < |idxs| ==> idxs[i].block == entries[i].first
      ensures r == if UpTo(entries, logical) == 0 then None else Some(idxs[UpTo(entries, logical) - 1].leaf)
    {
      r := None;
      for i := 0 to |idxs|
        invariant i <= UpTo(entries, logical)
        invariant r == if i == 0 then None else Some(idxs[i - 1].leaf)
      {
        if idxs[i].block > logical {
          return;
        }
        r := Some(idxs[i].leaf);
      }
    }

    /** Resolves a logical block down the tree. */
    method ResolveExtent(root: Node, ghost d: nat, logical: nat) returns (r: Option<nat>)
      requires Loads(store, root, d)
      ensures r == Physical(Lookup(Load(store, root, d), logical))
    {
      var node := root;
      ghost var k := d;
      while node.IndexNode?
        invariant Loads(store, node, k)
        invariant Lookup(Load(store, root, d), logical) == Lookup(Load(store, node, k), logical)
        decreases k
      {
        ghost var entries := Load(store, node, k).entries;
        var next := PickIndex(node.idxs, entries, logical);
        match next
        case None =>
          return None;
        case Some(child) =>
          assert LoadsAt(store, node.idxs[UpTo(entries, logical) - 1], k);
          node := store[child];
          k := k - 1;
      }
      r := FindExtent(node.exts, logical);
    }

    /** The extents of a leaf, block by block. */
    method WalkLeaf(exts: seq<Extent>, stack: seq<Node>, visits: seq<Ref>, ghost guard: nat, ghost total: Bag, ghost nodes: nat)
      returns (visits': seq<Ref>)
      requires Walking(store, stack, visits, guard, total, nodes)
      ensures Walking(store, stack, visits', guard, Plus(total, LeafRefs(exts)), nodes)
    {
      visits' := visits;
      PlusNothing(total);
      for i := 0 to |exts|
        invariant Walking(store, stack, visits', guard, Plus(total, FirstLeafRefs(exts, i)), nodes)
      {
        WalkExtent(total, exts, i);
        visits' := WalkOneExtent(exts[i], stack, visits', guard, Plus(total, FirstLeafRefs(exts, i)), nodes);
      }
    }

    method WalkOneExtent(ext: Extent, stack: seq<Node>, visits: seq<Ref>, ghost guard: nat, ghost total: Bag, ghost nodes: nat)
      returns (visits': seq<Ref>)
      requires Walking(store, stack, visits, guard, total, nodes)
      ensures Walking(store, stack, visits', guard, Plus(total, ExtentRefs(ext)), nodes)
    {
      visits' := visits;
      PlusNothing(total);
      var len, block, start := ext.EffectiveLen(), ext.block, ext.start;
      for k := 0 to len
        invariant Walking(store, stack, visits', guard, Plus(total, RunRefs(block, start, k)), nodes)
      {
        var r := DataRef(block + k, start + k);
        WalkRun(store, stack, visits', guard, total, nodes, block, start, k, r);
        visits' := visits' + [r];
      }
    }

    /** The entries of an index node. */
    method WalkIndex(idxs: seq<Idx>, d: nat, stack: seq<Node>, visits: seq<Ref>, ghost guard: nat, ghost total: Bag, ghost nodes: nat)
      returns (stack': seq<Node>, visits': seq<Ref>)
      requires Loads(store, IndexNode(d, idxs), d) && Walking(store, stack, visits, guard, total, nodes)
      ensures var entries := Load(store, IndexNode(d, idxs), d).entries;
              Walking(store, stack', visits', guard, Plus(total, EntriesRefs(entries, d)), nodes + EntriesNodes(entries, d))
    {
      ghost var entries := Load(store, IndexNode(d, idxs), d).entries;
      AllReadAtFirst(store, idxs, d);
      stack', visits' := WalkIdxs(idxs, d, entries, stack, visits, guard, total, nodes);
    }

    method WalkIdxs(idxs: seq<Idx>, ghost d: nat, ghost entries: seq<Entry>, stack: seq<Node>, visits: seq<Ref>,
                    ghost guard: nat, ghost total: Bag, ghost nodes: nat) returns (stack': seq<Node>, visits': seq<Ref>)
      requires 0 < d && AllRead(store, idxs, d, entries, 0) && Walking(store, stack, visits, guard, total, nodes)
      ensures Walking(store, stack', visits', guard, Plus(total, EntriesRefs(entries, d)), nodes + EntriesNodes(entries, d))
    {
      stack', visits' := stack, visits;
      NoEntryWalked(store, stack, visits, guard, total, nodes, d, entries);
      for i := 0 to |idxs|
        invariant EntriesWalked(store, stack', visits', guard, total, nodes, d, entries, i)
      {
        assert ReadsAt(store, idxs[i], d, entries[i]);
        stack', visits' := WalkIdx(idxs[i], d, entries, i, stack', visits', guard, total, nodes);
      }
    }

    method WalkIdx(idx: Idx, ghost d: nat, ghost entries: seq<Entry>, ghost i: nat, stack: seq<Node>, visits: seq<Ref>,
                   ghost guard: nat, ghost total: Bag, ghost nodes: nat) returns (stack': seq<Node>, visits': seq<Ref>)
      requires 0 < d && i < |entries| && LoadsAt(store, idx, d) && entries[i] == LoadAt(store, idx, d)
      requires EntriesWalked(store, stack, visits, guard, total, nodes, d, entries, i)
      ensures EntriesWalked(store, stack', visits', guard, total, nodes, d, entries, i + 1)
    {
      WalkEntry(store, stack, visits, guard, total, nodes, idx, d, entries, i);
      visits' := visits + [MetaRef(idx.leaf)];
      stack' := stack + [store[idx.leaf]];
    }

    method WalkNode(node: Node, stack: seq<Node>, visits: seq<Ref>, ghost guard: nat, ghost total: Bag, ghost nodes: nat)
      returns (stack': seq<Node>, visits': seq<Ref>)
      requires LoadsWhole(store, node) && Walking(store, stack, visits, guard, total, nodes)
      ensures Walking(store, stack', visits', guard + 1, Plus(total, NodeRefs(store, node)), nodes + NodesUnder(store, node))
    {
      match node
      case LeafNode(exts) =>
        stack' := stack;
        visits' := WalkLeaf(exts, stack, visits, guard, total, nodes);
      case IndexNode(depth, idxs) =>
        stack', visits' := WalkIndex(idxs, depth, stack, visits, guard, total, nodes);
    }

    /** Every block of an inode's tree, data and nodes; fails past a million nodes. */
    method WalkExtents(root: Node, ghost hi: nat) returns (ok: bool, visits: seq<Ref>)
      requires LoadsWhole(store, root) && WellFormed(Load(store, root, DepthOf(root)), DepthOf(root), 0, hi)
      ensures ok <==> !GivenUp(NodesUnder(store, root))
      ensures ok ==> WalkedAll(Load(store, root, DepthOf(root)), DepthOf(root), visits)
    {
      ghost var total, nodes := NodeRefs(store, root), NodesUnder(store, root);
      visits := [];
      var stack, guard := [root], 0;
      WalkStart(store, root);
      while stack != []
        invariant Walking(store, stack, visits, guard, total, nodes) && guard <= GUARD
        decreases nodes - guard
      {
        var node := stack[|stack| - 1];
        ghost var total', nodes' := WalkPop(store, stack, visits, guard, total, nodes);
        guard := guard + 1;
        if guard > GUARD {
          return false, visits;
        }
        stack, visits := WalkNode(node, stack[..|stack| - 1], visits, guard - 1, total', nodes');
      }
      WalkEnd(store, visits, guard, total, nodes);
      TreeIsWalked(Load(store, root, DepthOf(root)), DepthOf(root), hi, visits);
      ok := true;
    }
  }
}
