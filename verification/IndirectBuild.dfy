// Building a block map: a file's blocks reached through direct pointers and
// single, double and triple indirect blocks.
module IndirectBuild {
  import opened Options
  import opened Arith
  import opened IndirectTree
  import opened IndirectInode

  // ---- Trees that map a list of blocks ----

  /** What logical block `l` of a file of `count` blocks is mapped to, `data` being its blocks so far. */
  ghost predicate MapsTo(r: Option<nat>, data: seq<nat>, count: nat, l: nat)
  {
    (l < |data| ==> r == Some(data[l])) && (count <= l ==> r == None)
  }

  ghost predicate GetsRight(t: Tree, per: nat, d: nat, data: seq<nat>, count: nat, from: nat, idx: nat)
    requires 0 < per
  {
    MapsTo(Get(t, per, d, idx), data, count, from + idx)
  }

  /** The tree maps the file's blocks from logical block `from` on. */
  ghost predicate Covers(t: Tree, per: nat, d: nat, data: seq<nat>, count: nat, from: nat)
    requires 0 < per
  {
    Shape(t, per, d) && forall idx: nat :: idx < Span(per, d) ==> GetsRight(t, per, d, data, count, from, idx)
  }

  /** Where a tree of depth `d` that starts at logical block `from` of a file ends. */
  function EndOf(per: nat, d: nat, from: nat, count: nat): nat
  {
    if from + Span(per, d) < count then from + Span(per, d) else count
  }

  lemma HoleCovers(per: nat, d: nat, data: seq<nat>, count: nat, from: nat)
    requires 0 < per && |data| <= count <= from
    ensures Covers(Hole, per, d, data, count, from)
  {
    forall idx: nat | idx < Span(per, d) ensures GetsRight(Hole, per, d, data, count, from, idx) {
    }
  }

  lemma DataCovers(per: nat, data: seq<nat>, count: nat, from: nat)
    requires 0 < per && from < |data| <= count && data[from] != 0
    ensures Covers(Data(data[from]), per, 0, data, count, from)
  {
    forall idx: nat | idx < Span(per, 0) ensures GetsRight(Data(data[from]), per, 0, data, count, from, idx) {
    }
  }

  /** A finished tree goes on mapping the file while the file grows past it. */
  lemma CoversMore(t: Tree, per: nat, d: nat, data: seq<nat>, more: seq<nat>, count: nat, from: nat)
    requires 0 < per && Covers(t, per, d, data, count, from) && EndOf(per, d, from, count) <= |data| <= |more| <= count && data <= more
    ensures Covers(t, per, d, more, count, from)
  {
    forall idx: nat | idx < Span(per, d) ensures GetsRight(t, per, d, more, count, from, idx) {
      assert GetsRight(t, per, d, data, count, from, idx);
    }
  }

  /** The pointers of a node, each mapping its own share of the file. */
  ghost predicate KidsCover(kids: seq<Tree>, per: nat, d: nat, data: seq<nat>, count: nat, from: nat)
    requires 0 < per && 0 < d
  {
    forall j {:trigger kids[j]} :: 0 <= j < |kids| ==> Covers(kids[j], per, d - 1, data, count, KidBase(per, d, from, j))
  }

  lemma NodeGets(t: Tree, per: nat, d: nat, data: seq<nat>, count: nat, from: nat, idx: nat)
    requires 0 < per && 0 < d && t.Node? && |t.kids| == per && KidsCover(t.kids, per, d, data, count, from) && idx < Span(per, d)
    ensures GetsRight(t, per, d, data, count, from, idx)
  {
    var i, lo := PickKid(per, d, from, from + idx);
    KidCovers(t.kids, per, d, data, count, from, i, lo);
    KidGetsRight(t, per, d, data, count, from, idx, from + idx, i, lo);
  }

  lemma KidCovers(kids: seq<Tree>, per: nat, d: nat, data: seq<nat>, count: nat, from: nat, i: nat, lo: nat)
    requires 0 < per && 0 < d && KidsCover(kids, per, d, data, count, from) && i < |kids| && lo == KidBase(per, d, from, i)
    ensures Covers(kids[i], per, d - 1, data, count, lo)
  {
  }

  lemma PickKid(per: nat, d: nat, from: nat, l: nat) returns (i: nat, lo: nat)
    requires 0 < per && 0 < d && from <= l < from + Span(per, d)
    ensures i < per && lo == KidBase(per, d, from, i) && lo <= l < lo + Span(per, d - 1)
  {
    KidOf(per, d, l - from);
    i := BlockOf(Span(per, d - 1), l - from);
    lo := KidBase(per, d, from, i);
  }

  lemma KidGetsRight(t: Tree, per: nat, d: nat, data: seq<nat>, count: nat, from: nat, idx: nat, l: nat, i: nat, lo: nat)
    requires 0 < per && 0 < d && t.Node? && i < |t.kids| == per && lo == KidBase(per, d, from, i) && l == from + idx
    requires Covers(t.kids[i], per, d - 1, data, count, lo) && lo <= l < lo + Span(per, d - 1)
    ensures MapsTo(Get(t, per, d, idx), data, count, l)
  {
    KidGets(t, per, d, from, i + 1, l, lo, lo + Span(per, d - 1));
    CoversAt(t.kids[i], per, d - 1, data, count, lo, l - lo, l);
  }

  lemma CoversAt(t: Tree, per: nat, d: nat, data: seq<nat>, count: nat, from: nat, idx: nat, l: nat)
    requires 0 < per && Covers(t, per, d, data, count, from) && idx < Span(per, d) && l == from + idx
    ensures MapsTo(Get(t, per, d, idx), data, count, l)
  {
    assert GetsRight(t, per, d, data, count, from, idx);
  }

  lemma NodeCovers(b: nat, kids: seq<Tree>, per: nat, d: nat, data: seq<nat>, count: nat, from: nat)
    requires 0 < per && 0 < d && b != 0 && |kids| == per && KidsCover(kids, per, d, data, count, from)
    ensures Covers(Node(b, kids), per, d, data, count, from)
  {
    var t := Node(b, kids);
    forall idx: nat | idx < Span(per, d) ensures GetsRight(t, per, d, data, count, from, idx) {
      NodeGets(t, per, d, data, count, from, idx);
    }
  }

  // ---- Trees in a store that grows ----

  ghost predicate Grows(store: Store, store': Store)
  {
    forall b :: b in store ==> b in store' && store'[b] == store[b]
  }

  lemma ReadsGrown(store: Store, store': Store, per: nat, ptr: nat, d: nat, t: Tree)
    requires Reads(store, per, ptr, d, t) && Grows(store, store')
    ensures Reads(store', per, ptr, d, t)
  {
    LoadFrame(store, store', per, ptr, d);
  }

  ghost predicate AllRead(store: Store, per: nat, d: nat, ptrs: seq<nat>, kids: seq<Tree>)
  {
    |ptrs| == |kids| && forall j :: 0 <= j < |ptrs| ==> Reads(store, per, ptrs[j], d, kids[j])
  }

  lemma AllReadGrown(store: Store, store': Store, per: nat, d: nat, ptrs: seq<nat>, kids: seq<Tree>)
    requires AllRead(store, per, d, ptrs, kids) && Grows(store, store')
    ensures AllRead(store', per, d, ptrs, kids)
  {
    forall j | 0 <= j < |ptrs| ensures Reads(store', per, ptrs[j], d, kids[j]) {
      ReadsGrown(store, store', per, ptrs[j], d, kids[j]);
    }
  }

  /** A list filled out with zeros to the size of a block. */
  function Pad(ptrs: seq<nat>, per: nat): (r: seq<nat>)
    requires |ptrs| <= per
    ensures |r| == per && r[..|ptrs|] == ptrs && forall j :: |ptrs| <= j < per ==> r[j] == 0
  {
    ptrs + seq(per - |ptrs|, _ => 0)
  }

  ghost function PadTrees(kids: seq<Tree>, per: nat): (r: seq<Tree>)
    requires |kids| <= per
    ensures |r| == per && r[..|kids|] == kids && forall j :: |kids| <= j < per ==> r[j] == Hole
  {
    kids + seq(per - |kids|, _ => Hole)
  }

  /** A node's block written: the node reads as its pointers' trees, holes after the last. */
  lemma NodeStored(store: Store, per: nat, d: nat, b: nat, ptrs: seq<nat>, kids: seq<Tree>)
    requires b != 0 && d > 0 && b !in store && |ptrs| <= per && AllRead(store, per, d - 1, ptrs, kids)
    ensures Reads(store[b := Pad(ptrs, per)], per, b, d, Node(b, PadTrees(kids, per)))
  {
    var store', all, trees := store[b := Pad(ptrs, per)], Pad(ptrs, per), PadTrees(kids, per);
    forall j | 0 <= j < per ensures Reads(store', per, all[j], d - 1, trees[j]) {
      if j < |ptrs| {
        assert all[j] == all[..|ptrs|][j] == ptrs[j] && trees[j] == trees[..|kids|][j] == kids[j];
        ReadsGrown(store, store', per, ptrs[j], d - 1, kids[j]);
      }
    }
    NodeReads(store', per, b, d, trees);
  }

  // ---- Building ----

  /** Where `n` trees of depth `d - 1`, one after another from logical block `from`, end. */
  function EndAfter(per: nat, d: nat, from: nat, n: nat, count: nat): nat
    requires 0 < d
  {
    if KidBase(per, d, from, n) < count then KidBase(per, d, from, n) else count
  }

  /** A node being built: the pointers so far, what they map, and the next block of the file. */
  ghost predicate Building(store: Store, per: nat, d: nat, ptrs: seq<nat>, kids: seq<Tree>, data: seq<nat>, count: nat, from: nat, next: nat)
    requires 0 < per && 0 < d
  {
    && AllRead(store, per, d - 1, ptrs, kids) && |ptrs| <= per && KidsCover(kids, per, d, data, count, from)
    && next == EndAfter(per, d, from, |ptrs|, count) <= |data| <= count && from < count
  }

  lemma BuildingOn(store: Store, store': Store, per: nat, d: nat, ptrs: seq<nat>, kids: seq<Tree>, data: seq<nat>, data': seq<nat>,
                   count: nat, from: nat, next: nat, ptr: nat, t: Tree)
    requires 0 < per && 0 < d && Building(store, per, d, ptrs, kids, data, count, from, next) && |ptrs| < per && next < count
    requires Grows(store, store') && Reads(store', per, ptr, d - 1, t) && Covers(t, per, d - 1, data', count, next)
    requires data <= data' && EndOf(per, d - 1, next, count) <= |data'| <= count
    ensures Building(store', per, d, ptrs + [ptr], kids + [t], data', count, from, EndOf(per, d - 1, next, count))
  {
    AllReadGrown(store, store', per, d - 1, ptrs, kids);
    var kids' := kids + [t];
    forall j | 0 <= j < |kids'| ensures Covers(kids'[j], per, d - 1, data', count, KidBase(per, d, from, j)) {
      if j < |kids| {
        StartMonotone(Span(per, d - 1), j + 1, |kids|);
        CoversMore(kids[j], per, d - 1, data, data', count, KidBase(per, d, from, j));
      }
    }
    assert KidBase(per, d, from, |kids| + 1) == KidBase(per, d, from, |kids|) + Span(per, d - 1);
  }

  /** The node done: all its pointers used, or the file at its end. */
  lemma Built(store: Store, per: nat, d: nat, b: nat, ptrs: seq<nat>, kids: seq<Tree>, data: seq<nat>, count: nat, from: nat, next: nat)
    requires 0 < per && 0 < d && b != 0 && b !in store && Building(store, per, d, ptrs, kids, data, count, from, next)
    requires |ptrs| == per || next == count
    ensures var t := Node(b, PadTrees(kids, per));
            && Reads(store[b := Pad(ptrs, per)], per, b, d, t) && Covers(t, per, d, data, count, from)
            && next == EndOf(per, d, from, count)
  {
    NodeStored(store, per, d, b, ptrs, kids);
    var all := PadTrees(kids, per);
    forall j | 0 <= j < |all| ensures Covers(all[j], per, d - 1, data, count, KidBase(per, d, from, j)) {
      if j < |kids| {
        assert all[j] == all[..|kids|][j] == kids[j];
      } else {
        StartMonotone(Span(per, d - 1), |kids|, j);
        HoleCovers(per, d - 1, data, count, KidBase(per, d, from, j));
      }
    }
    NodeCovers(b, all, per, d, data, count, from);
    StartMonotone(Span(per, d - 1), |ptrs|, per);
  }

  // ---- A whole inode ----

  /** The first `k` pointers of an inode map the file up to logical block `next`. */
  ghost predicate SlotsBuilt(store: Store, per: nat, ptrs: seq<nat>, trees: seq<Tree>, data: seq<nat>, count: nat, k: nat, next: nat)
    requires 0 < per
  {
    && |ptrs| == |trees| == N_BLOCKS && k <= N_BLOCKS && |data| <= count
    && SlotsRead(store, per, ptrs, trees) && SlotsCover(per, trees, data, count, k)
    && next == (if SlotBase(per, k) < count then SlotBase(per, k) else count) <= |data|
  }

  ghost predicate SlotsRead(store: Store, per: nat, ptrs: seq<nat>, trees: seq<Tree>)
  {
    |ptrs| == |trees| == N_BLOCKS && forall j {:trigger trees[j]} {:trigger ptrs[j]} :: 0 <= j < N_BLOCKS ==> Reads(store, per, ptrs[j], DepthOf(j), trees[j])
  }

  ghost predicate SlotsCover(per: nat, trees: seq<Tree>, data: seq<nat>, count: nat, k: nat)
    requires 0 < per && k <= |trees|
  {
    forall j {:trigger trees[j]} :: 0 <= j < k ==> Covers(trees[j], per, DepthOf(j), data, count, SlotBase(per, j))
  }

  lemma SlotsReadOn(store: Store, store': Store, per: nat, ptrs: seq<nat>, trees: seq<Tree>, k: nat, ptr: nat, t: Tree)
    requires SlotsRead(store, per, ptrs, trees) && k < N_BLOCKS && Grows(store, store') && Reads(store', per, ptr, DepthOf(k), t)
    ensures SlotsRead(store', per, ptrs[k := ptr], trees[k := t])
  {
    var ptrs', trees' := ptrs[k := ptr], trees[k := t];
    forall j | 0 <= j < N_BLOCKS ensures Reads(store', per, ptrs'[j], DepthOf(j), trees'[j]) {
      if j != k {
        ReadsGrown(store, store', per, ptrs[j], DepthOf(j), trees[j]);
      }
    }
  }

  lemma SlotsCoverOn(per: nat, trees: seq<Tree>, data: seq<nat>, data': seq<nat>, count: nat, k: nat, t: Tree)
    requires 0 < per && k < |trees| && SlotsCover(per, trees, data, count, k) && data <= data' && |data'| <= count
    requires SlotBase(per, k) <= |data| || |data| == count
    requires Covers(t, per, DepthOf(k), data', count, SlotBase(per, k))
    ensures SlotsCover(per, trees[k := t], data', count, k + 1)
  {
    var trees' := trees[k := t];
    forall j | 0 <= j < k + 1 ensures Covers(trees'[j], per, DepthOf(j), data', count, SlotBase(per, j)) {
      if j < k {
        assert Covers(trees[j], per, DepthOf(j), data, count, SlotBase(per, j));
        SlotCoversMore(trees[j], per, data, data', count, j, k);
      }
    }
  }

  lemma SlotCoversMore(t: Tree, per: nat, data: seq<nat>, data': seq<nat>, count: nat, j: nat, k: nat)
    requires 0 < per && j < k && Covers(t, per, DepthOf(j), data, count, SlotBase(per, j)) && data <= data' && |data'| <= count
    requires SlotBase(per, k) <= |data| || |data| == count
    ensures Covers(t, per, DepthOf(j), data', count, SlotBase(per, j))
  {
    SlotBaseMonotone(per, j + 1, k);
    SlotEnds(per, j, count);
    CoversMore(t, per, DepthOf(j), data, data', count, SlotBase(per, j));
  }

  lemma SlotEnds(per: nat, j: nat, count: nat)
    ensures EndOf(per, DepthOf(j), SlotBase(per, j), count) <= SlotBase(per, j + 1)
    ensures EndOf(per, DepthOf(j), SlotBase(per, j), count) <= count
  {
  }

  /** One more pointer: a tree that goes on where the file stands, or nothing left to map. */
  lemma SlotsOn(store: Store, store': Store, per: nat, ptrs: seq<nat>, trees: seq<Tree>, data: seq<nat>, data': seq<nat>, count: nat,
                k: nat, next: nat, ptr: nat, t: Tree)
    requires 0 < per && SlotsBuilt(store, per, ptrs, trees, data, count, k, next) && k < N_BLOCKS
    requires Grows(store, store') && data <= data' && |data'| <= count && Reads(store', per, ptr, DepthOf(k), t)
    requires if next < count then Covers(t, per, DepthOf(k), data', count, next) && EndOf(per, DepthOf(k), next, count) <= |data'|
             else t == Hole
    ensures SlotsBuilt(store', per, ptrs[k := ptr], trees[k := t], data', count, k + 1,
                       if next < count then EndOf(per, DepthOf(k), next, count) else next)
  {
    SlotsReadOn(store, store', per, ptrs, trees, k, ptr, t);
    if next >= count {
      HoleCovers(per, DepthOf(k), data', count, SlotBase(per, k));
    }
    SlotsCoverOn(per, trees, data, data', count, k, t);
  }

  /** A map of a file: logical block `l` is its `l`-th block, and there is nothing past its end. */
  ghost predicate MapOf(store: Store, per: nat, ptrs: seq<nat>, data: seq<nat>)
    requires 0 < per
  {
    && MapReadable(store, per, ptrs)
    && forall l: nat :: Mapped(Roots(store, per, ptrs), per, 0, l) == if l < |data| then Some(data[l]) else None
  }

  lemma {:induction false} SlotsMap(t: Tree, per: nat, data: seq<nat>, k: nat, l: nat)
    requires 0 < per && t.Node? && |t.kids| == N_BLOCKS && SlotsCover(per, t.kids, data, |data|, N_BLOCKS)
    requires |data| <= SlotBase(per, N_BLOCKS) && k <= N_BLOCKS && SlotBase(per, k) <= l
    ensures Mapped(t, per, k, l) == if l < |data| then Some(data[l]) else None
    decreases N_BLOCKS - k
  {
    if k < N_BLOCKS {
      if l < SlotBase(per, k + 1) {
        assert Covers(t.kids[k], per, DepthOf(k), data, |data|, SlotBase(per, k));
        CoversAt(t.kids[k], per, DepthOf(k), data, |data|, SlotBase(per, k), l - SlotBase(per, k), l);
      } else {
        SlotsMap(t, per, data, k + 1, l);
      }
    }
  }

  lemma SlotsAreMap(store: Store, per: nat, ptrs: seq<nat>, trees: seq<Tree>, data: seq<nat>)
    requires 0 < per && SlotsBuilt(store, per, ptrs, trees, data, |data|, N_BLOCKS, |data|)
    ensures MapOf(store, per, ptrs, data)
  {
    forall j | 0 <= j < N_BLOCKS
      ensures Readable(store, per, ptrs[j], DepthOf(j)) && Load(store, per, ptrs[j], DepthOf(j)) == trees[j]
    {
      assert Reads(store, per, ptrs[j], DepthOf(j), trees[j]);
    }
    var t := Roots(store, per, ptrs);
    assert t.kids == trees;
    forall l: nat ensures Mapped(t, per, 0, l) == if l < |data| then Some(data[l]) else None {
      SlotsMap(t, per, data, 0, l);
    }
  }

  lemma NoSlots(store: Store, per: nat, data: seq<nat>, count: nat)
    requires 0 < per && |data| <= count
    ensures SlotsBuilt(store, per, seq(N_BLOCKS, _ => 0), seq(N_BLOCKS, _ => Hole), data, count, 0, 0)
  {
  }

  // ---- From a list of blocks ----

  /** Blocks to use for indirect blocks: none twice, none zero, none already used. */
  ghost predicate Fresh(supply: seq<nat>, store: Store)
  {
    && (forall i :: 0 <= i < |supply| ==> supply[i] != 0 && supply[i] !in store)
    && (forall i, j :: 0 <= i < j < |supply| ==> supply[i] != supply[j])
  }

  class Builder {
    const per: nat
    const data: seq<nat>
    var store: Store
    var supply: seq<nat>
    var next: nat

    constructor (per: nat, data: seq<nat>, supply: seq<nat>)
      requires 0 < per && (forall i :: 0 <= i < |data| ==> data[i] != 0) && Fresh(supply, map[])
      ensures Valid() && this.per == per && this.data == data && this.supply == supply && store == map[] && next == 0
    {
      this.per, this.data, this.supply, store, next := per, data, supply, map[], 0;
    }

    ghost predicate Valid()
      reads this
    {
      0 < per && next <= |data| && (forall i :: 0 <= i < |data| ==> data[i] != 0) && Fresh(supply, store)
    }

    /** Some of the supply has been used, and the store holds nothing else that is new. */
    ghost predicate UsedFrom(was: seq<nat>, before: Store)
      reads this
    {
      && Grows(before, store) && |supply| <= |was| && supply == was[|was| - |supply|..]
      && forall b :: b in store ==> b in before || (b in was && b !in supply)
    }

    /** The next tree of depth `d`; fails when there is no block for an indirect block. */
    method BuildTree(d: nat) returns (ok: bool, ptr: nat, ghost t: Tree)
      requires Valid() && next < |data|
      modifies this
      ensures Valid() && UsedFrom(old(supply), old(store)) && (!ok ==> supply == [])
      ensures ok ==> next == EndOf(per, d, old(next), |data|) && Reads(store, per, ptr, d, t) && Covers(t, per, d, data, |data|, old(next))
      decreases d, 1
    {
      if d == 0 {
        ptr := data[next];
        t := Data(ptr);
        DataCovers(per, data, |data|, next);
        next := next + 1;
        return true, ptr, t;
      }
      if supply == [] {
        return false, 0, Hole;
      }
      ptr := supply[0];
      supply := supply[1..];
      t := Hole;
      var ptrs;
      ghost var kids;
      ghost var from, was := next, supply;
      ok, ptrs, kids := BuildKids(d);
      if ok {
        assert ptr !in store;
        Built(store, per, d, ptr, ptrs, kids, data, |data|, from, next);
        t := Node(ptr, PadTrees(kids, per));
        store := store[ptr := Pad(ptrs, per)];
      }
    }

    /** The pointers of one indirect block. */
    method BuildKids(d: nat) returns (ok: bool, ptrs: seq<nat>, ghost kids: seq<Tree>)
      requires Valid() && next < |data| && 0 < d
      modifies this
      ensures Valid() && UsedFrom(old(supply), old(store)) && (!ok ==> supply == [])
      ensures ok ==> Building(store, per, d, ptrs, kids, data, |data|, old(next), next) && (|ptrs| == per || next == |data|)
      decreases d, 0
    {
      ghost var from, was, before := next, supply, store;
      ptrs, kids := [], [];
      while next < |data| && |ptrs| < per
        invariant Valid() && UsedFrom(was, before)
        invariant Building(store, per, d, ptrs, kids, data, |data|, from, next)
        decreases per - |ptrs|
      {
        ghost var mid, at := store, next;
        var ptr;
        ghost var t;
        ok, ptr, t := BuildTree(d - 1);
        if !ok {
          return false, ptrs, kids;
        }
        BuildingOn(mid, store, per, d, ptrs, kids, data, data, |data|, from, at, ptr, t);
        ptrs, kids := ptrs + [ptr], kids + [t];
      }
      ok := true;
    }

    /** Maps the whole list, filling each pointer of an inode in turn. */
    method Build() returns (ok: bool, ptrs: seq<nat>)
      requires Valid() && next == 0
      modifies this
      ensures ok ==> MapOf(store, per, ptrs, data)
      ensures !ok ==> supply == [] || |data| > SlotBase(per, N_BLOCKS)
    {
      ghost var trees := seq(N_BLOCKS, _ => Hole);
      ptrs := seq(N_BLOCKS, _ => 0);
      NoSlots(store, per, data, |data|);
      for k := 0 to N_BLOCKS
        invariant Valid() && SlotsBuilt(store, per, ptrs, trees, data, |data|, k, next)
      {
        if next < |data| {
          ghost var mid, at := store, next;
          var ptr;
          ghost var t;
          ok, ptr, t := BuildTree(DepthOf(k));
          if !ok {
            return false, ptrs;
          }
          SlotsOn(mid, store, per, ptrs, trees, data, data, |data|, k, at, ptr, t);
          ptrs, trees := ptrs[k := ptr], trees[k := t];
        } else {
          SlotsOn(store, store, per, ptrs, trees, data, data, |data|, k, next, 0, Hole);
          ptrs, trees := ptrs[k := 0], trees[k := Hole];
        }
      }
      ok := next >= |data|;
      if ok {
        SlotsAreMap(store, per, ptrs, trees, data);
      }
    }
  }
}
