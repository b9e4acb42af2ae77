// Allocating a block-mapped file: data blocks and the indirect blocks that
// reach them, each taken as it is first needed.
module IndirectFile {
  import opened BlockSets
  import opened IndirectTree
  import opened IndirectInode
  import opened IndirectBuild
  import FirstFit
  import Allocator

  /** Every block under a list of trees. */
  ghost function SumBlocks(kids: seq<Tree>): multiset<nat>
  {
    KidsBlocks(Node(0, kids), |kids|)
  }

  lemma SumMore(kids: seq<Tree>, t: Tree)
    ensures SumBlocks(kids + [t]) == SumBlocks(kids) + Blocks(t)
  {
    SameKidsSameBlocks(Node(0, kids + [t]), Node(0, kids), |kids|);
  }

  lemma SumOn(got: multiset<nat>, kids: seq<Tree>, t: Tree)
    ensures got + SumBlocks(kids + [t]) == got + SumBlocks(kids) + Blocks(t)
  {
    SumMore(kids, t);
    AddAssociates(got, SumBlocks(kids), Blocks(t));
  }

  /** Holes own nothing. */
  lemma {:induction false} HolesAfter(t: Tree, k: nat, n: nat)
    requires t.Node? && k <= n <= |t.kids| && HolesFrom(t.kids, k)
    ensures KidsBlocks(t, n) == KidsBlocks(t, k)
    decreases n
  {
    if k < n {
      HolesAfter(t, k, n - 1);
      assert t.kids[n - 1] == Hole;
      AddNothing(KidsBlocks(t, n - 1));
    }
  }

  lemma PaddedBlocks(b: nat, kids: seq<Tree>, per: nat)
    requires |kids| <= per
    ensures Blocks(Node(b, PadTrees(kids, per))) == multiset{b} + SumBlocks(kids)
  {
    var all := PadTrees(kids, per);
    assert forall j :: 0 <= j < |kids| ==> all[j] == all[..|kids|][j] == kids[j];
    SameKidsSameBlocks(Node(b, all), Node(0, kids), |kids|);
    HolesAfter(Node(b, all), |kids|, per);
  }

  /** Blocks taken so far: none twice, none handed out before, exactly what the allocator has recorded since, the indirect
    * blocks stored among them. */
  ghost predicate Accounted(got: multiset<nat>, store: Store, before: seq<Allocator.Run>, runs: seq<Allocator.Run>)
  {
    && (forall b :: got[b] <= 1) && (forall b :: b in store ==> b in got) && before <= runs
    && (forall b :: b in got ==> !Allocator.Contains(before, b))
    && (forall b: nat :: Allocator.Contains(runs, b) <==> Allocator.Contains(before, b) || b in got)
  }

  lemma AccountedMore(got: multiset<nat>, store: Store, before: seq<Allocator.Run>, runs: seq<Allocator.Run>, b: nat)
    requires Accounted(got, store, before, runs) && !Allocator.Contains(runs, b)
    ensures b !in got && b !in store && Accounted(got + multiset{b}, store, before, runs + [Allocator.Run(b, 1)])
  {
    var got', runs' := got + multiset{b}, runs + [Allocator.Run(b, 1)];
    forall x: nat ensures Allocator.Contains(runs', x) <==> Allocator.Contains(before, x) || x in got' {
      Allocator.ContainsMore(runs, Allocator.Run(b, 1), x);
    }
    assert before <= runs <= runs';
  }

  class FileAllocator {
    const per: nat
    const count: nat
    const alloc: Allocator.Allocator
    var cursor: nat
    var data: seq<nat>
    var store: Store
    ghost var got: multiset<nat>
    /** What had been handed out when the file was begun. */
    ghost const before: seq<Allocator.Run>

    constructor (per: nat, count: nat, alloc: Allocator.Allocator, goal: nat)
      requires 0 < per && alloc.Valid() && alloc.firstDataBlock <= goal && alloc.metadata(0)
      ensures Valid() && data == [] && store == map[] && got == multiset{}
      ensures this.per == per && this.count == count && this.alloc == alloc && before == alloc.runs
    {
      this.per, this.count, this.alloc, before := per, count, alloc, alloc.runs;
      cursor, data, store, got := goal, [], map[], multiset{};
    }

    ghost predicate Valid()
      reads this, alloc
    {
      && 0 < per && alloc.Valid() && alloc.firstDataBlock <= cursor && alloc.metadata(0)
      && |data| <= count && Accounted(got, store, before, alloc.runs)
    }

    ghost predicate Full()
      reads alloc
    {
      FirstFit.NoFit(alloc.TakenNow(), alloc.blocksCount, alloc.firstDataBlock, 1)
    }

    /** The next free block. */
    method Take() returns (ok: bool, block: nat)
      requires Valid()
      modifies this`cursor, this`got, alloc
      ensures Valid() && old(alloc.runs) <= alloc.runs && (ok ==> !Allocator.Contains(old(alloc.runs), block))
      ensures if ok then block != 0 && block !in old(got) && got == old(got) + multiset{block} else got == old(got) && Full()
    {
      var r := alloc.Alloc(cursor, 1);
      match r
      case None =>
        return false, 0;
      case Some(b) =>
        NotTaken(old(alloc.TakenNow()), alloc.blocksCount, b);
        AccountedMore(got, store, before, old(alloc.runs), b);
        cursor := b + 1;
        got := got + multiset{b};
        return true, b;
    }

    /** The next tree of depth `d`, its indirect blocks before what they point at. */
    method AllocTree(d: nat) returns (ok: bool, ptr: nat, ghost t: Tree)
      requires Valid() && |data| < count
      modifies this, alloc
      ensures Valid() && Extended(old(data), old(store), old(got), data, store, got) && (!ok ==> Full())
      ensures ok ==> |data| == EndOf(per, d, |old(data)|, count) && got == old(got) + Blocks(t)
      ensures ok ==> Reads(store, per, ptr, d, t) && Covers(t, per, d, data, count, |old(data)|)
      decreases d, 3
    {
      t := Hole;
      ghost var got0 := got;
      ok, ptr := Take();
      if !ok {
        return;
      }
      if d == 0 {
        DataTaken(data, store, got0, per, count, ptr);
        data := data + [ptr];
        t := Data(ptr);
      } else {
        ok, t := AllocNode(d, ptr, got0);
      }
    }

    /** What an indirect block points at, and then the block itself. */
    method AllocNode(d: nat, node: nat, ghost got0: multiset<nat>) returns (ok: bool, ghost t: Tree)
      requires Valid() && |data| < count && 0 < d && node != 0 && node !in got0 && got == got0 + multiset{node} && node !in store
      modifies this, alloc
      ensures Valid() && Extended(old(data), old(store), got0, data, store, got) && (!ok ==> Full())
      ensures ok ==> |data| == EndOf(per, d, |old(data)|, count) && got == got0 + Blocks(t)
      ensures ok ==> Reads(store, per, node, d, t) && Covers(t, per, d, data, count, |old(data)|)
      decreases d, 2
    {
      ghost var data0, store0, got1 := data, store, got;
      var ptrs;
      ghost var kids;
      t := Hole;
      ok, ptrs, kids := AllocKids(d);
      NodeTaken(data0, store0, got0, node, got1, data, store, got);
      if ok {
        var all := Pad(ptrs, per);
        NodeAccounted(data0, store0, got0, data, store, got, node, all, before, alloc.runs);
        NodeDone(store, per, d, node, ptrs, kids, data, count, |data0|, got0, got);
        t := Node(node, PadTrees(kids, per));
        store := store[node := all];
      }
    }

    /** The pointers of one indirect block. */
    method AllocKids(d: nat) returns (ok: bool, ptrs: seq<nat>, ghost kids: seq<Tree>)
      requires Valid() && |data| < count && 0 < d
      modifies this, alloc
      ensures Valid() && Extended(old(data), old(store), old(got), data, store, got) && (!ok ==> Full())
      ensures ok ==> Building(store, per, d, ptrs, kids, data, count, |old(data)|, |data|) && (|ptrs| == per || |data| == count)
      ensures ok ==> got == old(got) + SumBlocks(kids)
      decreases d, 1
    {
      ghost var from, got0, data0, store0 := |data|, got, data, store;
      ptrs, kids := [], [];
      assert got0 + multiset{} == got0;
      while |data| < count && |ptrs| < per
        invariant Valid() && Extended(data0, store0, got0, data, store, got)
        invariant Building(store, per, d, ptrs, kids, data, count, from, |data|)
        invariant got == got0 + SumBlocks(kids)
        decreases per - |ptrs|
      {
        ghost var data1, store1, got1 := data, store, got;
        ok, ptrs, kids := AllocKid(d, ptrs, kids, from, got0);
        ExtendedOn(data0, store0, got0, data1, store1, got1, data, store, got);
        if !ok {
          return false, ptrs, kids;
        }
      }
      ok := true;
    }

    /** Allocates the whole file: direct blocks, then what a single and a double indirect block reach. */
    method AllocFile() returns (ok: bool, ptrs: seq<nat>)
      requires Valid() && data == [] && store == map[] && got == multiset{}
      modifies this, alloc
      ensures Valid() && (!ok ==> Full() || count > SlotBase(per, LAST_SLOT))
      ensures before <= alloc.runs && forall b :: b in got ==> !Allocator.Contains(before, b)
      ensures ok ==> |data| == count && MapOf(store, per, ptrs, data)
      ensures ok ==> Owned(Roots(store, per, ptrs)) == got && Unshared(got)
    {
      ghost var trees := seq(N_BLOCKS, _ => Hole);
      ptrs := seq(N_BLOCKS, _ => 0);
      NoSlots(store, per, data, count);
      NoBlocks(trees);
      for k := 0 to LAST_SLOT
        invariant Valid() && SlotsBuilt(store, per, ptrs, trees, data, count, k, |data|)
        invariant HolesFrom(trees, k) && got == SumBlocks(trees)
      {
        ok, ptrs, trees := AllocSlot(k, ptrs, trees);
        if !ok {
          return;
        }
      }
      ok := |data| >= count;
      if ok {
        LastSlotEmpty(store, per, ptrs, trees, data);
        RootsOwn(store, per, ptrs, trees);
      }
    }

    /** One more pointer of the inode: nothing once the file is at its end. */
    method AllocSlot(k: nat, ptrs: seq<nat>, ghost trees: seq<Tree>) returns (ok: bool, ptrs': seq<nat>, ghost trees': seq<Tree>)
      requires Valid() && k < LAST_SLOT && SlotsBuilt(store, per, ptrs, trees, data, count, k, |data|)
      requires HolesFrom(trees, k) && got == SumBlocks(trees)
      modifies this, alloc
      ensures Valid() && (!ok ==> Full())
      ensures ok ==> SlotsBuilt(store, per, ptrs', trees', data, count, k + 1, |data|)
      ensures ok ==> HolesFrom(trees', k + 1) && got == SumBlocks(trees')
    {
      ghost var mid, at := store, data;
      var ptr := 0;
      ghost var t := Hole;
      ok := true;
      if |data| < count {
        ok, ptr, t := AllocTree(DepthOf(k));
      }
      ptrs', trees' := ptrs[k := ptr], trees[k := t];
      if ok {
        SlotFilled(mid, store, per, ptrs, trees, at, data, count, k, ptr, t);
      }
    }

    /** One more pointer of an indirect block. */
    method AllocKid(d: nat, ptrs: seq<nat>, ghost kids: seq<Tree>, ghost from: nat, ghost got0: multiset<nat>)
      returns (ok: bool, ptrs': seq<nat>, ghost kids': seq<Tree>)
      requires Valid() && |data| < count && 0 < d && |ptrs| < per
      requires Building(store, per, d, ptrs, kids, data, count, from, |data|) && got == got0 + SumBlocks(kids)
      modifies this, alloc
      ensures Valid() && Extended(old(data), old(store), old(got), data, store, got) && (!ok ==> Full())
      ensures ok ==> Building(store, per, d, ptrs', kids', data, count, from, |data|) && |ptrs'| == |ptrs| + 1
      ensures ok ==> got == got0 + SumBlocks(kids')
      decreases d, 0
    {
      ghost var mid, at := store, data;
      var ptr;
      ghost var t;
      ok, ptr, t := AllocTree(d - 1);
      ptrs', kids' := ptrs + [ptr], kids + [t];
      if ok {
        BuildingOn(mid, store, per, d, ptrs, kids, at, data, count, from, |at|, ptr, t);
        SumOn(got0, kids, t);
      }
    }
  }

  /** Where a file's pointers end when it has no triple indirect block. */
  const LAST_SLOT: nat := NDIR_BLOCKS + 2

  /** Twelve direct blocks, and what one and two levels of indirect blocks map. */
  lemma FileLimit(per: nat)
    ensures SlotBase(per, LAST_SLOT) == 12 + per + per * per
  {
    Bases(per);
  }

  /** The file and its indirect blocks have grown, with blocks not taken before. */
  ghost predicate Extended(data: seq<nat>, store: Store, got: multiset<nat>, data': seq<nat>, store': Store, got': multiset<nat>)
  {
    data <= data' && Grows(store, store') && got <= got' && forall b :: b in store' ==> b in store || b !in got
  }

  lemma ExtendedOn(data: seq<nat>, store: Store, got: multiset<nat>, data1: seq<nat>, store1: Store, got1: multiset<nat>,
                   data2: seq<nat>, store2: Store, got2: multiset<nat>)
    requires Extended(data, store, got, data1, store1, got1) && Extended(data1, store1, got1, data2, store2, got2)
    ensures Extended(data, store, got, data2, store2, got2)
  {
  }

  /** A block taken before what follows it is still to be stored. */
  lemma NodeTaken(data0: seq<nat>, store0: Store, got0: multiset<nat>, b: nat, got1: multiset<nat>, data: seq<nat>, store: Store, got: multiset<nat>)
    requires got1 == got0 + multiset{b} && b !in got0 && b !in store0 && Extended(data0, store0, got1, data, store, got)
    ensures b !in store && b in got && Extended(data0, store0, got0, data, store, got)
  {
    assert b in got1;
    assert got0 <= got1;
  }

  lemma DataTaken(data: seq<nat>, store: Store, got0: multiset<nat>, per: nat, count: nat, b: nat)
    requires 0 < per && b != 0 && |data| < count
    ensures var data', got, t := data + [b], got0 + multiset{b}, Data(b);
            && Extended(data, store, got0, data', store, got) && |data'| == EndOf(per, 0, |data|, count) && got == got0 + Blocks(t)
            && Reads(store, per, b, 0, t) && Covers(t, per, 0, data', count, |data|)
  {
    DataCovers(per, data + [b], count, |data|);
  }

  lemma NodeAccounted(data0: seq<nat>, store0: Store, got0: multiset<nat>, data: seq<nat>, store: Store, got: multiset<nat>,
                      b: nat, all: seq<nat>, before: seq<Allocator.Run>, runs: seq<Allocator.Run>)
    requires b !in store && b in got && b !in got0 && Extended(data0, store0, got0, data, store, got)
    requires Accounted(got, store, before, runs)
    ensures Extended(data0, store0, got0, data, store[b := all], got) && Accounted(got, store[b := all], before, runs)
  {
  }

  ghost predicate HolesFrom(trees: seq<Tree>, k: nat)
  {
    forall j :: k <= j < |trees| ==> trees[j] == Hole
  }

  lemma NoBlocks(trees: seq<Tree>)
    requires HolesFrom(trees, 0)
    ensures SumBlocks(trees) == multiset{}
  {
    HolesAfter(Node(0, trees), 0, |trees|);
  }

  /** A hole filled adds what it is filled with. */
  lemma SumAt(trees: seq<Tree>, k: nat, t: Tree)
    requires k < |trees| && HolesFrom(trees, k)
    ensures SumBlocks(trees[k := t]) == SumBlocks(trees) + Blocks(t) && HolesFrom(trees[k := t], k + 1)
  {
    var was, now := Node(0, trees), Node(0, trees[k := t]);
    HolesAfter(was, k, |trees|);
    HolesAfter(now, k + 1, |trees|);
    SameKidsSameBlocks(now, was, k);
  }

  /** One more pointer of the inode, its tree allocated or, past the end of the file, a hole. */
  lemma SlotFilled(store: Store, store': Store, per: nat, ptrs: seq<nat>, trees: seq<Tree>, data: seq<nat>, data': seq<nat>, count: nat,
                   k: nat, ptr: nat, t: Tree)
    requires 0 < per && SlotsBuilt(store, per, ptrs, trees, data, count, k, |data|) && k < N_BLOCKS && HolesFrom(trees, k)
    requires Grows(store, store') && data <= data' && |data'| <= count && Reads(store', per, ptr, DepthOf(k), t)
    requires if |data| < count then Covers(t, per, DepthOf(k), data', count, |data|) && |data'| == EndOf(per, DepthOf(k), |data|, count)
             else t == Hole
    ensures SlotsBuilt(store', per, ptrs[k := ptr], trees[k := t], data', count, k + 1, |data'|)
    ensures HolesFrom(trees[k := t], k + 1) && SumBlocks(trees[k := t]) == SumBlocks(trees) + Blocks(t)
  {
    SlotsOn(store, store', per, ptrs, trees, data, data', count, k, |data|, ptr, t);
    SumAt(trees, k, t);
  }

  /** With the file at its end, what is left of the pointers maps nothing. */
  lemma LastSlotEmpty(store: Store, per: nat, ptrs: seq<nat>, trees: seq<Tree>, data: seq<nat>)
    requires 0 < per && SlotsBuilt(store, per, ptrs, trees, data, |data|, LAST_SLOT, |data|) && HolesFrom(trees, LAST_SLOT)
    ensures SlotsRead(store, per, ptrs, trees) && MapOf(store, per, ptrs, data)
  {
    assert trees[LAST_SLOT] == Hole;
    assert Reads(store, per, ptrs[LAST_SLOT], DepthOf(LAST_SLOT), trees[LAST_SLOT]);
    SlotsOn(store, store, per, ptrs, trees, data, data, |data|, LAST_SLOT, |data|, 0, Hole);
    assert ptrs[LAST_SLOT := 0] == ptrs && trees[LAST_SLOT := Hole] == trees;
    SlotsAreMap(store, per, ptrs, trees, data);
  }

  lemma RootsOwn(store: Store, per: nat, ptrs: seq<nat>, trees: seq<Tree>)
    requires SlotsRead(store, per, ptrs, trees) && MapReadable(store, per, ptrs)
    ensures Owned(Roots(store, per, ptrs)) == SumBlocks(trees)
  {
    var t := Roots(store, per, ptrs);
    forall j | 0 <= j < N_BLOCKS ensures t.kids[j] == trees[j] {
      assert Reads(store, per, ptrs[j], DepthOf(j), trees[j]);
    }
    SameKidsSameBlocks(t, Node(0, trees), N_BLOCKS);
  }

  lemma NodeDone(store: Store, per: nat, d: nat, b: nat, ptrs: seq<nat>, kids: seq<Tree>, data: seq<nat>, count: nat, from: nat,
                 got0: multiset<nat>, got: multiset<nat>)
    requires 0 < per && 0 < d && b != 0 && b !in store && Building(store, per, d, ptrs, kids, data, count, from, |data|)
    requires (|ptrs| == per || |data| == count) && got == got0 + multiset{b} + SumBlocks(kids)
    ensures var t := Node(b, PadTrees(kids, per));
            && Reads(store[b := Pad(ptrs, per)], per, b, d, t) && Covers(t, per, d, data, count, from)
            && |data| == EndOf(per, d, from, count) && got == got0 + Blocks(t)
  {
    Built(store, per, d, b, ptrs, kids, data, count, from, |data|);
    PaddedBlocks(b, kids, per);
    AddAssociates(got0, multiset{b}, SumBlocks(kids));
  }

  lemma NotTaken(taken: nat -> bool, limit: nat, b: nat)
    requires FirstFit.Fits(taken, limit, b, 1)
    ensures !taken(b)
  {
  }
}
