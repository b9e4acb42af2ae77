// The blocks a walk of an extent tree visits, and what they say about it.
module ExtentVisits {
  import opened Options
  import opened BlockRefs
  import opened ExtentTree
  import opened ExtentStore

  /** The blocks of a run of `n`. */
  function RunRefs(block: nat, start: nat, n: nat): Bag
  {
    if n == 0 then NOTHING else Plus(RunRefs(block, start, n - 1), One(DataRef(block + n - 1, start + n - 1)))
  }

  function ExtentRefs(e: Extent): Bag
  {
    RunRefs(e.block, e.start, e.EffectiveLen())
  }

  function LeafRefs(exts: seq<Extent>): Bag
  {
    FirstLeafRefs(exts, |exts|)
  }

  function FirstLeafRefs(exts: seq<Extent>, n: nat): Bag
    requires n <= |exts|
  {
    if n == 0 then NOTHING else Plus(FirstLeafRefs(exts, n - 1), ExtentRefs(exts[n - 1]))
  }

  /** Everything in a tree of depth `d`: data blocks, and the nodes under its entries. */
  function TreeRefs(t: Tree, d: nat): Bag
    decreases d, 2
  {
    match t
    case Leaf(exts) => LeafRefs(exts)
    case Index(entries) => if d == 0 then NOTHING else FirstRefs(entries, d, |entries|)
  }

  function EntriesRefs(entries: seq<Entry>, d: nat): Bag
    requires 0 < d
  {
    FirstRefs(entries, d, |entries|)
  }

  /** Everything under the first `n` entries. */
  function FirstRefs(entries: seq<Entry>, d: nat, n: nat): Bag
    requires 0 < d && n <= |entries|
    decreases d, 1, n
  {
    if n == 0 then NOTHING else Plus(FirstRefs(entries, d, n - 1), EntryRefs(entries[n - 1], d))
  }

  function EntryRefs(e: Entry, d: nat): Bag
    requires 0 < d
    decreases d, 0
  {
    Plus(One(MetaRef(e.block)), TreeRefs(e.sub, d - 1))
  }

  // ---- The blocks visited are the blocks owned ----

  lemma {:induction false} RunRefsBlocks(block: nat, start: nat, n: nat)
    ensures RunRefs(block, start, n).blocks == Run(start, n)
  {
    if n == 0 {
      RunOfNone(start);
    } else {
      RunRefsBlocks(block, start, n - 1);
      OneMoreRef(block, start, n, DataRef(block + n - 1, start + n - 1));
    }
  }

  lemma RunOneMore(block: nat, start: nat, k: nat, r: Ref)
    requires r == DataRef(block + k, start + k)
    ensures RunRefs(block, start, k + 1) == Plus(RunRefs(block, start, k), One(r))
  {
  }

  lemma OneMoreRef(block: nat, start: nat, n: nat, r: Ref)
    requires 0 < n && r == DataRef(block + n - 1, start + n - 1)
    ensures RunRefs(block, start, n).refs == RunRefs(block, start, n - 1).refs + multiset{r}
    ensures RunRefs(block, start, n).blocks == RunRefs(block, start, n - 1).blocks + multiset{r.physical}
    ensures Run(start, n) == Run(start, n - 1) + multiset{r.physical}
  {
    RunLast(start, n);
  }

  lemma {:induction false} LeafRefsBlocks(exts: seq<Extent>, n: nat)
    requires n <= |exts|
    ensures FirstLeafRefs(exts, n).blocks == FirstExtents(exts, n)
  {
    if n > 0 {
      var e := exts[n - 1];
      LeafRefsBlocks(exts, n - 1);
      RunRefsBlocks(e.block, e.start, e.EffectiveLen());
    }
  }

  lemma {:induction false} TreeRefsBlocks(t: Tree, d: nat)
    ensures TreeRefs(t, d).blocks == Blocks(t, d)
    decreases d, 1, 0
  {
    if t.Leaf? {
      LeafRefsBlocks(t.exts, |t.exts|);
    } else if d > 0 {
      EntriesRefsBlocks(t.entries, d, |t.entries|);
    }
  }

  lemma {:induction false} EntriesRefsBlocks(entries: seq<Entry>, d: nat, n: nat)
    requires 0 < d && n <= |entries|
    ensures FirstRefs(entries, d, n).blocks == FirstBlocks(entries, d, n)
    decreases d, 0, n
  {
    if n > 0 {
      EntriesRefsBlocks(entries, d, n - 1);
      TreeRefsBlocks(entries[n - 1].sub, d - 1);
    }
  }

  // ---- The data visits are the graph of the mapping ----

  /** Whether the extents map logical block `l` to `p`. */
  function Maps(h: Option<Hit>, p: nat): nat
  {
    if h.Some? && h.value.physical == p then 1 else 0
  }

  lemma {:induction false} RunRefsGraph(block: nat, start: nat, n: nat, l: nat, p: nat)
    ensures RunRefs(block, start, n).refs[DataRef(l, p)] == if block <= l < block + n && p == start + (l - block) then 1 else 0
  {
    if n > 0 {
      RunRefsGraph(block, start, n - 1, l, p);
      RunCount(block, start, n, l, p);
    }
  }

  lemma RunCount(block: nat, start: nat, n: nat, l: nat, p: nat)
    requires 0 < n
    ensures RunRefs(block, start, n).refs[DataRef(l, p)] ==
            RunRefs(block, start, n - 1).refs[DataRef(l, p)] + (if l == block + n - 1 && p == start + n - 1 then 1 else 0)
  {
    var r := DataRef(block + n - 1, start + n - 1);
    OneMoreRef(block, start, n, r);
    CountOne(RunRefs(block, start, n - 1).refs, r, DataRef(l, p));
  }

  lemma CountOne(m: multiset<Ref>, r: Ref, x: Ref)
    ensures (m + multiset{r})[x] == m[x] + (if x == r then 1 else 0)
  {
  }

  lemma ExtentGraph(e: Extent, l: nat, p: nat)
    ensures ExtentRefs(e).refs[DataRef(l, p)] == Maps(FindIn([e], l), p)
  {
    RunRefsGraph(e.block, e.start, e.EffectiveLen(), l, p);
  }

  /** What two lists map together, when no block is in both. */
  lemma MapsJoin(a: seq<Extent>, b: seq<Extent>, l: nat, p: nat)
    requires FindIn(a, l) == None || FindIn(b, l) == None
    ensures Maps(FindIn(a + b, l), p) == Maps(FindIn(a, l), p) + Maps(FindIn(b, l), p)
  {
    FindJoin(a, b, l);
  }

  lemma {:induction false} LeafRefsGraph(exts: seq<Extent>, lo: nat, hi: nat, n: nat, l: nat, p: nat)
    requires Ordered(exts, lo, hi) && n <= |exts|
    ensures FirstLeafRefs(exts, n).refs[DataRef(l, p)] == Maps(FindIn(exts[..n], l), p)
  {
    if n > 0 {
      var front, last := exts[..n - 1], exts[n - 1];
      assert exts[..n] == front + [last];
      LeafRefsGraph(exts, lo, hi, n - 1, l, p);
      ExtentGraph(last, l, p);
      if last.block <= l {
        FindNone(front, l);
      }
      MapsJoin(front, [last], l, p);
    }
  }

  lemma {:induction false} TreeRefsGraph(t: Tree, d: nat, lo: nat, hi: nat, l: nat, p: nat)
    requires WellFormed(t, d, lo, hi)
    ensures TreeRefs(t, d).refs[DataRef(l, p)] == Maps(FindIn(Flat(t, d), l), p)
    decreases d, 1, 0
  {
    if t.Leaf? {
      assert t.exts[..|t.exts|] == t.exts;
      LeafRefsGraph(t.exts, lo, hi, |t.exts|, l, p);
    } else {
      assert t.entries[..|t.entries|] == t.entries;
      EntriesRefsGraph(t, d, lo, hi, |t.entries|, l, p);
    }
  }

  lemma {:induction false} EntriesRefsGraph(t: Tree, d: nat, lo: nat, hi: nat, n: nat, l: nat, p: nat)
    requires WellFormed(t, d, lo, hi) && t.Index? && n <= |t.entries|
    ensures FirstRefs(t.entries, d, n).refs[DataRef(l, p)] == Maps(FindIn(FlatEntries(t.entries[..n], d), l), p)
    decreases d, 0, n
  {
    if n > 0 {
      var e, next := t.entries[n - 1], Next(t.entries, n - 1, hi);
      assert EntryFits(t.entries, n - 1, d, lo, hi);
      EntriesRefsGraph(t, d, lo, hi, n - 1, l, p);
      TreeRefsGraph(e.sub, d - 1, e.first, next, l, p);
      OneEntryFinds(t, d, lo, hi, n, l);
      EntriesCount(t.entries, d, n, DataRef(l, p));
      FlatLast(t.entries, d, n);
      MapsJoin(FlatEntries(t.entries[..n - 1], d), Flat(e.sub, d - 1), l, p);
    }
  }

  lemma EntriesCount(entries: seq<Entry>, d: nat, n: nat, r: Ref)
    requires 0 < d && 0 < n <= |entries| && r.DataRef?
    ensures FirstRefs(entries, d, n).refs[r] == FirstRefs(entries, d, n - 1).refs[r] + TreeRefs(entries[n - 1].sub, d - 1).refs[r]
  {
  }

  /** A logical block is under an entry or under those before it, not both. */
  lemma OneEntryFinds(t: Tree, d: nat, lo: nat, hi: nat, n: nat, l: nat)
    requires WellFormed(t, d, lo, hi) && t.Index? && 0 < n <= |t.entries|
    ensures FindIn(FlatEntries(t.entries[..n - 1], d), l) == None || FindIn(Flat(t.entries[n - 1].sub, d - 1), l) == None
  {
    var e := t.entries[n - 1];
    assert EntryFits(t.entries, n - 1, d, lo, hi);
    if e.first <= l {
      if 1 < n {
        assert EntryFits(t.entries, n - 2, d, lo, hi);
      }
      FindBefore(t, d, lo, hi, n - 1, l);
    } else {
      FindOutside(e.sub, d - 1, e.first, Next(t.entries, n - 1, hi), l);
    }
  }
}
