// Releasing one orphaned inode: its map truncated or walked, and the blocks
// that come free returned to the bitmaps.
module Release {
  import opened BlockSets
  import opened Options
  import opened Arith
  import opened BlockRefs
  import Stats = AllocStats
  import ET = ExtentTree
  import ES = ExtentStore
  import EM = ExtentMap
  import II = IndirectInode
  import IM = IndirectMap

  /** Blocks an inode owned and does not keep are free; every other block is as it was. */
  ghost predicate Returned(stats: Stats.AllocStats, was: Stats.Ledger, owned: multiset<nat>, kept: multiset<nat>)
    requires 0 < stats.blocksPerGroup
    reads stats
  {
    forall b: nat :: stats.InRange(b) ==> BlockReturned(stats, was, owned, kept, b)
  }

  ghost predicate BlockReturned(stats: Stats.AllocStats, was: Stats.Ledger, owned: multiset<nat>, kept: multiset<nat>, b: nat)
    requires stats.InRange(b) && 0 < stats.blocksPerGroup
    reads stats
  {
    var g, bit := stats.GroupOf(b), stats.BitOf(b);
    && g < |stats.blocks.disk| && g < |was.disk|
    && (stats.blocks.InUse(g, bit) <==> was.InUse(g, bit) && (b !in owned || b in kept))
  }

  /** Freeing exactly what is no longer owned. */
  method FreeAll(stats: Stats.AllocStats, freed: seq<nat>, ghost owned: multiset<nat>, ghost kept: multiset<nat>)
    requires stats.Valid() && multiset(freed) + kept == owned && multiset(freed) !! kept
    modifies stats
    ensures stats.Valid() && stats.inodes == old(stats.inodes) && stats.usedDirs == old(stats.usedDirs)
    ensures Returned(stats, old(stats.blocks), owned, kept)
  {
    ghost var was := stats.blocks;
    stats.FreeBlocks(freed);
    forall b: nat | stats.InRange(b) ensures BlockReturned(stats, was, owned, kept, b) {
      assert stats.StillInUse(was, b, freed);
      assert b in owned <==> b in multiset(freed) || b in kept;
      assert b in freed <==> b in multiset(freed);
    }
  }

  /** The count of an inode's blocks after some come free, in units of a sector or of a block. */
  function BlocksLeft(blocks: nat, unit: nat, freed: nat): nat
  {
    if blocks < Start(unit, freed) then 0 else blocks - Start(unit, freed)
  }

  /** A count that was right for the blocks owned is right for the blocks kept. */
  lemma {:induction false} BlocksLeftIsRight(unit: nat, owned: nat, freed: nat)
    requires freed <= owned
    ensures BlocksLeft(Start(unit, owned), unit, freed) == Start(unit, owned - freed)
    decreases freed
  {
    StartMonotone(unit, freed, owned);
    StartSum(unit, owned - freed, freed);
  }

  lemma {:induction false} StartSum(bs: nat, a: nat, b: nat)
    ensures Start(bs, a + b) == Start(bs, a) + Start(bs, b)
    decreases b
  {
    if b > 0 {
      StartSum(bs, a, b - 1);
    }
  }

  // ---- An extent-mapped inode ----

  ghost function TreeOf(dev: EM.ExtentDevice, root: ES.Node): ET.Tree
    requires ES.Loads(dev.store, root, EM.DepthOf(root))
    reads dev
  {
    ES.Load(dev.store, root, EM.DepthOf(root))
  }

  ghost function OwnedBy(dev: EM.ExtentDevice, root: ES.Node): multiset<nat>
    requires ES.Loads(dev.store, root, EM.DepthOf(root))
    reads dev
  {
    ES.Blocks(TreeOf(dev, root), EM.DepthOf(root))
  }

  /** An inode still linked: what is past its size goes, the rest stays mapped and in use. */
  method TruncateExtents(dev: EM.ExtentDevice, stats: Stats.AllocStats, root: ES.Node, ghost hi: nat, cut: nat, blocks: nat, unit: nat)
    returns (ok: bool, root': ES.Node, blocks': nat)
    requires ES.Loads(dev.store, root, EM.DepthOf(root)) && stats.Valid()
    requires Unshared(OwnedBy(dev, root)) && ET.WellFormed(TreeOf(dev, root), EM.DepthOf(root), 0, hi)
    modifies dev, stats
    ensures stats.Valid() && (!ok ==> stats.blocks == old(stats.blocks))
    ensures stats.inodes == old(stats.inodes) && stats.usedDirs == old(stats.usedDirs)
    ensures ok <==> EM.Fits(old(TreeOf(dev, root)), EM.DepthOf(root), cut)
    ensures OnlyIn(old(dev.store), dev.store, old(OwnedBy(dev, root)))
    ensures ok ==> ES.Loads(dev.store, root', EM.DepthOf(root')) && OwnedBy(dev, root') <= old(OwnedBy(dev, root))
    ensures ok ==> forall l: nat :: ET.Lookup(TreeOf(dev, root'), l) == if l < cut then ET.Lookup(old(TreeOf(dev, root)), l) else None
    ensures ok ==> Returned(stats, old(stats.blocks), old(OwnedBy(dev, root)), OwnedBy(dev, root'))
    ensures ok ==> blocks' == BlocksLeft(blocks, unit, |old(OwnedBy(dev, root)) - OwnedBy(dev, root')|)
    ensures ok && blocks == Start(unit, |old(OwnedBy(dev, root))|) ==> blocks' == Start(unit, |OwnedBy(dev, root')|)
  {
    ghost var d, owned := EM.DepthOf(root), OwnedBy(dev, root);
    var freed;
    ok, root', freed := dev.Truncate(root, d, hi, cut);
    blocks' := blocks;
    if ok {
      FreeAll(stats, freed, owned, OwnedBy(dev, root'));
      BlocksLeftIsRight(unit, |owned|, |freed|);
      assert |multiset(freed)| == |freed| && multiset(freed) == owned - OwnedBy(dev, root');
      blocks' := BlocksLeft(blocks, unit, |freed|);
    }
  }

  /** The blocks a walk visited, in the order it did. */
  method Visited(visits: seq<Ref>) returns (freed: seq<nat>)
    ensures multiset(freed) == Physicals(visits)
  {
    freed := [];
    for i := 0 to |visits|
      invariant multiset(freed) == Physicals(visits[..i])
    {
      assert visits[..i + 1][..i] == visits[..i];
      freed := freed + [visits[i].physical];
    }
    assert visits[..|visits|] == visits;
  }

  /** An inode with no link left: everything it owns is free, and so is the inode. */
  method ClearExtents(dev: EM.ExtentDevice, stats: Stats.AllocStats, inum: nat, isDir: bool, root: ES.Node, ghost hi: nat) returns (ok: bool)
    requires ES.Loads(dev.store, root, EM.DepthOf(root)) && stats.Valid()
    requires ET.WellFormed(TreeOf(dev, root), EM.DepthOf(root), 0, hi)
    requires 0 < inum <= Start(stats.inodesPerGroup, |stats.inodes.sizes|)
    modifies stats
    ensures stats.Valid()
    ensures !ok ==> stats.blocks == old(stats.blocks) && stats.inodes == old(stats.inodes) && stats.usedDirs == old(stats.usedDirs)
    ensures ok <==> !EM.GivenUp(EM.NodesUnder(dev.store, root))
    ensures ok ==> Returned(stats, old(stats.blocks), OwnedBy(dev, root), multiset{})
    ensures ok ==> stats.InodeFreed(old(stats.inodes), stats.inodes, old(stats.usedDirs), stats.usedDirs, inum, isDir)
  {
    var visits;
    ok, visits := dev.WalkExtents(root, hi);
    if ok {
      var freed := Visited(visits);
      ghost var owned := OwnedBy(dev, root);
      assert multiset(freed) + multiset{} == owned;
      FreeAll(stats, freed, owned, multiset{});
      stats.FreeInode(inum, isDir);
    }
  }

  // ---- A block-mapped inode ----

  ghost function MapOwned(dev: IM.BlockStore, ptrs: seq<nat>): multiset<nat>
    requires II.MapReadable(dev.store, dev.per, ptrs)
    reads dev
  {
    II.Owned(II.Roots(dev.store, dev.per, ptrs))
  }

  /** The same through an indirect map. */
  method TruncateMap(dev: IM.BlockStore, stats: Stats.AllocStats, ptrs: seq<nat>, cut: nat, blocks: nat, unit: nat)
    returns (ptrs': seq<nat>, blocks': nat)
    requires 0 < dev.per && II.MapReadable(dev.store, dev.per, ptrs) && Unshared(MapOwned(dev, ptrs)) && stats.Valid()
    modifies dev, stats
    ensures stats.Valid() && stats.inodes == old(stats.inodes) && stats.usedDirs == old(stats.usedDirs)
    ensures II.MapReadable(dev.store, dev.per, ptrs') && blocks' == BlocksLeft(blocks, unit, |old(MapOwned(dev, ptrs)) - MapOwned(dev, ptrs')|)
    ensures OnlyIn(old(dev.store), dev.store, old(MapOwned(dev, ptrs))) && MapOwned(dev, ptrs') <= old(MapOwned(dev, ptrs))
    ensures Returned(stats, old(stats.blocks), old(MapOwned(dev, ptrs)), MapOwned(dev, ptrs'))
    ensures forall l: nat :: II.Mapped(II.Roots(dev.store, dev.per, ptrs'), dev.per, 0, l) ==
              if l < cut then II.Mapped(II.Roots(old(dev.store), dev.per, ptrs), dev.per, 0, l) else None
    ensures blocks == Start(unit, |old(MapOwned(dev, ptrs))|) ==> blocks' == Start(unit, |MapOwned(dev, ptrs')|)
  {
    ghost var owned := MapOwned(dev, ptrs);
    var freed;
    ptrs', freed := dev.TruncateIndirect(ptrs, cut);
    FreeAll(stats, freed, owned, MapOwned(dev, ptrs'));
    assert |multiset(freed)| == |freed| && |owned| == |freed| + |MapOwned(dev, ptrs')|;
    BlocksLeftIsRight(unit, |owned|, |freed|);
    assert multiset(freed) == owned - MapOwned(dev, ptrs');
    blocks' := BlocksLeft(blocks, unit, |freed|);
  }

  method ClearMap(dev: IM.BlockStore, stats: Stats.AllocStats, inum: nat, isDir: bool, ptrs: seq<nat>)
    requires 0 < dev.per && II.MapReadable(dev.store, dev.per, ptrs) && stats.Valid()
    requires 0 < inum <= Start(stats.inodesPerGroup, |stats.inodes.sizes|)
    modifies stats
    ensures stats.Valid() && Returned(stats, old(stats.blocks), MapOwned(dev, ptrs), multiset{})
    ensures stats.InodeFreed(old(stats.inodes), stats.inodes, old(stats.usedDirs), stats.usedDirs, inum, isDir)
  {
    var visits := dev.WalkIndirect(ptrs);
    var freed := Visited(visits);
    ghost var owned := MapOwned(dev, ptrs);
    assert multiset(freed) + multiset{} == owned;
    FreeAll(stats, freed, owned, multiset{});
    stats.FreeInode(inum, isDir);
  }
}
