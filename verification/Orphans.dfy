// Releasing the chain of orphaned inodes that starts at the superblock, each
// naming the next in its deletion time.
module Orphans {
  import opened BlockSets
  import opened Options
  import opened Arith
  import opened Release
  import Stats = AllocStats
  import ET = ExtentTree
  import ES = ExtentStore
  import EM = ExtentMap
  import IT = IndirectTree
  import II = IndirectInode
  import IM = IndirectMap

  /** How the walk of the chain ended. */
  datatype End = Done | Loops(inum: nat) | Illegal(inum: nat) | Failed(inum: nat)

  /** How an inode finds its blocks, if it has any. */
  datatype BlockMap = Extents(root: ES.Node) | Pointers(ptrs: seq<nat>) | Unmapped

  /** An orphaned inode: the next in the chain, whether it still has a link, where its size ends, its block count and the unit
    * of that, its map. */
  datatype Orphan = Orphan(dtime: nat, linked: bool, isDir: bool, cut: nat, blocks: nat, unit: nat, blockMap: BlockMap)

  ghost predicate NoDuplicates(s: seq<nat>)
  {
    forall i, j :: 0 <= i < j < |s| ==> s[i] != s[j]
  }

  /** Inodes follow one another as the chain had them. */
  ghost predicate Linked(table: map<nat, Orphan>, head: nat, s: seq<nat>)
  {
    && (s != [] ==> s[0] == head)
    && (forall k :: 0 <= k < |s| ==> s[k] in table)
    && (forall k :: 0 <= k < |s| - 1 ==> s[k + 1] == table[s[k]].dtime)
  }

  /** The inode the chain comes to after `s`. */
  function Following(table: map<nat, Orphan>, head: nat, s: seq<nat>): nat
    requires s != [] ==> s[|s| - 1] in table
  {
    if s == [] then head else table[s[|s| - 1]].dtime
  }

  lemma ReleasedOne(table: map<nat, Orphan>, head: nat, released: seq<nat>, inum: nat)
    requires Linked(table, head, released) && inum == Following(table, head, released) && inum in table
    requires NoDuplicates(released) && inum !in released
    ensures var s := released + [inum]; Linked(table, head, s) && NoDuplicates(s) && Following(table, head, s) == table[inum].dtime
  {
  }

  // ---- What is read through a map ----

  /** The blocks that hold extent nodes, and those that hold pointers, `per` to a block. */
  datatype Disk = Disk(store: ES.Store, pointers: IT.Store, per: nat)

  /** What a block map amounts to on a disk. */
  datatype View = ByExtents(tree: ET.Tree, depth: nat) | ByPointers(roots: IT.Tree) | NoBlocks

  ghost predicate MapReads(disk: Disk, m: BlockMap)
  {
    match m
    case Extents(root) => ES.Loads(disk.store, root, EM.DepthOf(root))
    case Pointers(ptrs) => 0 < disk.per && II.MapReadable(disk.pointers, disk.per, ptrs)
    case Unmapped => true
  }

  ghost function ViewOf(disk: Disk, m: BlockMap): View
    requires MapReads(disk, m)
  {
    match m
    case Extents(root) => ByExtents(ES.Load(disk.store, root, EM.DepthOf(root)), EM.DepthOf(root))
    case Pointers(ptrs) => ByPointers(II.Roots(disk.pointers, disk.per, ptrs))
    case Unmapped => NoBlocks
  }

  ghost function OwnedIn(v: View): multiset<nat>
  {
    match v
    case ByExtents(tree, depth) => ES.Blocks(tree, depth)
    case ByPointers(roots) => if roots.Node? then II.Owned(roots) else multiset{}
    case NoBlocks => multiset{}
  }

  ghost predicate GoodView(v: View, hi: nat)
  {
    Unshared(OwnedIn(v)) && (v.ByExtents? ==> ET.WellFormed(v.tree, v.depth, 0, hi))
  }

  /** The mapping below the cut, and nothing from it on. */
  ghost predicate Restricted(per: nat, v: View, v': View, cut: nat)
  {
    match v
    case ByExtents(tree, _) =>
      v'.ByExtents? && forall l: nat :: ET.Lookup(v'.tree, l) == if l < cut then ET.Lookup(tree, l) else None
    case ByPointers(roots) =>
      && v'.ByPointers? && 0 < per && roots.Node? && v'.roots.Node?
      && forall l: nat :: II.Mapped(v'.roots, per, 0, l) == if l < cut then II.Mapped(roots, per, 0, l) else None
    case NoBlocks => v'.NoBlocks?
  }

  /** Only the given blocks differ. */
  ghost predicate DiffersIn(disk: Disk, disk': Disk, blocks: multiset<nat>)
  {
    disk'.per == disk.per && OnlyIn(disk.store, disk'.store, blocks) && OnlyIn(disk.pointers, disk'.pointers, blocks)
  }

  /** A map is read from its own blocks alone. */
  lemma ViewFrame(disk: Disk, disk': Disk, m: BlockMap, changed: multiset<nat>)
    requires MapReads(disk, m) && DiffersIn(disk, disk', changed) && OwnedIn(ViewOf(disk, m)) !! changed
    ensures MapReads(disk', m) && ViewOf(disk', m) == ViewOf(disk, m)
  {
    match m
    case Extents(root) =>
      ES.ReadsFrame(disk.store, disk'.store, root, EM.DepthOf(root), ViewOf(disk, m).tree, changed);
    case Pointers(ptrs) =>
      II.RootsFrame(disk.pointers, disk'.pointers, disk.per, ptrs, changed);
    case Unmapped =>
  }

  // ---- The maps of all the inodes ----

  /** The inodes and their map blocks before anything is released. */
  datatype Before = Before(table: map<nat, Orphan>, disk: Disk, hi: nat)
  {
    /** Every inode's map is well formed and no block belongs to two of them, or twice to one. */
    ghost predicate Valid()
    {
      && (forall i :: i in table ==> MapGood(i))
      && (forall i, j :: i in table && j in table && i != j && MapGood(i) && MapGood(j) ==> Owned(i) !! Owned(j))
    }

    ghost predicate MapGood(i: nat)
      requires i in table
    {
      MapReads(disk, table[i].blockMap) && GoodView(View(i), hi)
    }

    ghost function View(i: nat): View
      requires i in table && MapReads(disk, table[i].blockMap)
    {
      ViewOf(disk, table[i].blockMap)
    }

    ghost function Owned(i: nat): multiset<nat>
      requires i in table && MapReads(disk, table[i].blockMap)
    {
      OwnedIn(View(i))
    }
  }

  /** An inode not released yet is as it was. */
  ghost predicate Unreleased(b: Before, table: map<nat, Orphan>, disk: Disk, i: nat)
    requires i in b.table && b.MapGood(i)
  {
    i in table && table[i] == b.table[i] && MapReads(disk, table[i].blockMap) && ViewOf(disk, table[i].blockMap) == b.View(i)
  }

  /** A released inode. With a link left its map is what it was below its size and owns `kept`, its block count is less by the
    * blocks it no longer owns, and it is no orphan any more; with none it keeps nothing and is dated `now`. */
  ghost predicate Released(b: Before, table: map<nat, Orphan>, disk: Disk, kept: multiset<nat>, now: nat, i: nat)
    requires i in b.table && b.MapGood(i)
  {
    && kept <= b.Owned(i) && i in table
    && if b.table[i].linked then
         && MapReads(disk, table[i].blockMap)
         && OwnedIn(ViewOf(disk, table[i].blockMap)) == kept
         && Restricted(disk.per, b.View(i), ViewOf(disk, table[i].blockMap), b.table[i].cut)
         && table[i] == b.table[i].(dtime := 0, blockMap := table[i].blockMap,
                                    blocks := BlocksLeft(b.table[i].blocks, b.table[i].unit, |b.Owned(i) - kept|))
       else kept == multiset{} && table[i] == b.table[i].(dtime := now)
  }

  /** A block count that was right is right for what is kept. */
  lemma CountsBlocks(b: Before, table: map<nat, Orphan>, disk: Disk, kept: multiset<nat>, now: nat, i: nat)
    requires i in b.table && b.MapGood(i) && Released(b, table, disk, kept, now, i) && b.table[i].linked
    requires b.table[i].blocks == |b.Owned(i)| * b.table[i].unit
    ensures table[i].blocks == |kept| * table[i].unit && table[i].dtime == 0
  {
    var unit, owned := b.table[i].unit, |b.Owned(i)|;
    assert b.Owned(i) == kept + (b.Owned(i) - kept);
    StartIsProduct(unit, owned);
    StartIsProduct(unit, |kept|);
    BlocksLeftIsRight(unit, owned, owned - |kept|);
  }

  /** Where releasing stands: inodes released and not, and what each of the released keeps. */
  ghost predicate Standing(b: Before, table: map<nat, Orphan>, disk: Disk, released: seq<nat>, kept: map<nat, multiset<nat>>, now: nat)
    requires b.Valid()
  {
    && (forall k :: 0 <= k < |released| ==> released[k] in b.table && released[k] in kept)
    && forall i :: i in b.table ==> StandsAt(b, table, disk, released, kept, now, i)
  }

  ghost predicate StandsAt(b: Before, table: map<nat, Orphan>, disk: Disk, released: seq<nat>, kept: map<nat, multiset<nat>>, now: nat, i: nat)
    requires i in b.table && b.MapGood(i)
  {
    if i in released then i in kept && Released(b, table, disk, kept[i], now, i) else Unreleased(b, table, disk, i)
  }

  /** All of that but for one inode, which could not be released. */
  ghost predicate StandingBut(b: Before, table: map<nat, Orphan>, disk: Disk, released: seq<nat>, kept: map<nat, multiset<nat>>, now: nat, inum: nat)
    requires b.Valid()
  {
    && (forall k :: 0 <= k < |released| ==> released[k] in b.table && released[k] in kept)
    && forall i :: i in b.table && i != inum ==> StandsAt(b, table, disk, released, kept, now, i)
  }

  /** Releasing one inode disturbs the map of no other. */
  lemma OthersStand(b: Before, table: map<nat, Orphan>, disk: Disk, table': map<nat, Orphan>, disk': Disk,
                    released: seq<nat>, kept: map<nat, multiset<nat>>, now: nat, inum: nat, left: multiset<nat>, i: nat)
    requires b.Valid() && inum in b.table && i in b.table && i != inum && StandsAt(b, table, disk, released, kept, now, i)
    requires DiffersIn(disk, disk', b.Owned(inum)) && (i in table ==> i in table' && table'[i] == table[i])
    ensures StandsAt(b, table', disk', released, kept, now, i)
    ensures StandsAt(b, table', disk', released + [inum], kept[inum := left], now, i)
  {
    assert b.MapGood(i) && b.MapGood(inum);
    assert b.Owned(i) !! b.Owned(inum);
    assert i in released + [inum] <==> i in released;
    if i !in released || b.table[i].linked {
      ViewFrame(disk, disk', table[i].blockMap, b.Owned(inum));
    }
  }

  lemma StandingOn(b: Before, table: map<nat, Orphan>, disk: Disk, table': map<nat, Orphan>, disk': Disk,
                   released: seq<nat>, kept: map<nat, multiset<nat>>, now: nat, inum: nat, left: multiset<nat>)
    requires b.Valid() && Standing(b, table, disk, released, kept, now) && inum in b.table
    requires DiffersIn(disk, disk', b.Owned(inum)) && forall i :: i in table && i != inum ==> i in table' && table'[i] == table[i]
    requires Released(b, table', disk', left, now, inum)
    ensures Standing(b, table', disk', released + [inum], kept[inum := left], now)
  {
    forall i | i in b.table ensures StandsAt(b, table', disk', released + [inum], kept[inum := left], now, i) {
      assert StandsAt(b, table, disk, released, kept, now, i);
      if i != inum {
        OthersStand(b, table, disk, table', disk', released, kept, now, inum, left, i);
      } else {
        assert inum in released + [inum];
      }
    }
  }

  lemma OthersStandStill(b: Before, table: map<nat, Orphan>, disk: Disk, disk': Disk,
                         released: seq<nat>, kept: map<nat, multiset<nat>>, now: nat, inum: nat)
    requires b.Valid() && Standing(b, table, disk, released, kept, now) && inum in b.table && DiffersIn(disk, disk', b.Owned(inum))
    ensures StandingBut(b, table, disk', released, kept, now, inum)
  {
    forall i | i in b.table && i != inum ensures StandsAt(b, table, disk', released, kept, now, i) {
      assert StandsAt(b, table, disk, released, kept, now, i);
      OthersStand(b, table, disk, table, disk', released, kept, now, inum, multiset{}, i);
    }
  }

  // ---- The bitmaps ----

  /** What is in use, and the directories counted, group by group. */
  datatype Books = Books(blocks: Stats.Ledger, inodes: Stats.Ledger, dirs: seq<nat>)

  /** The inode is one of those released, and had no link. */
  predicate Cleared(b: Before, released: seq<nat>, i: nat)
  {
    i in released && i in b.table && !b.table[i].linked
  }

  /** Some released inode owned the block and does not keep it. */
  ghost predicate Dropped(b: Before, released: seq<nat>, kept: map<nat, multiset<nat>>, blk: nat)
    requires b.Valid() && forall k :: 0 <= k < |released| ==> released[k] in b.table && released[k] in kept
  {
    exists k :: 0 <= k < |released| && DroppedBy(b, kept, released[k], blk)
  }

  ghost predicate DroppedBy(b: Before, kept: map<nat, multiset<nat>>, i: nat, blk: nat)
    requires b.Valid() && i in b.table && i in kept
  {
    assert b.MapGood(i);
    blk in b.Owned(i) && blk !in kept[i]
  }

  /** In use: what was, less what the released inodes no longer own. */
  ghost predicate InUseRight(stats: Stats.AllocStats, was: Stats.Ledger, b: Before, released: seq<nat>, kept: map<nat, multiset<nat>>)
    requires 0 < stats.blocksPerGroup
    requires b.Valid() && forall k :: 0 <= k < |released| ==> released[k] in b.table && released[k] in kept
    reads stats
  {
    forall blk: nat :: stats.InRange(blk) ==> BlockRight(stats, was, b, released, kept, blk)
  }

  ghost predicate BlockRight(stats: Stats.AllocStats, was: Stats.Ledger, b: Before, released: seq<nat>, kept: map<nat, multiset<nat>>, blk: nat)
    requires 0 < stats.blocksPerGroup && stats.InRange(blk)
    requires b.Valid() && forall k :: 0 <= k < |released| ==> released[k] in b.table && released[k] in kept
    reads stats
  {
    var g, bit := stats.GroupOf(blk), stats.BitOf(blk);
    && g < |stats.blocks.disk| && g < |was.disk|
    && (stats.blocks.InUse(g, bit) <==> was.InUse(g, bit) && !Dropped(b, released, kept, blk))
  }

  lemma DroppedMore(b: Before, released: seq<nat>, kept: map<nat, multiset<nat>>, inum: nat, left: multiset<nat>, blk: nat)
    requires b.Valid() && (forall k :: 0 <= k < |released| ==> released[k] in b.table && released[k] in kept)
    requires inum in b.table && inum !in released && b.MapGood(inum)
    ensures Dropped(b, released + [inum], kept[inum := left], blk) <==>
            Dropped(b, released, kept, blk) || (blk in b.Owned(inum) && blk !in left)
  {
    var all, kept' := released + [inum], kept[inum := left];
    if Dropped(b, released, kept, blk) {
      var k :| 0 <= k < |released| && DroppedBy(b, kept, released[k], blk);
      assert DroppedBy(b, kept', all[k], blk);
    }
    if blk in b.Owned(inum) && blk !in left {
      assert DroppedBy(b, kept', all[|released|], blk);
    }
    if Dropped(b, all, kept', blk) {
      var k :| 0 <= k < |all| && DroppedBy(b, kept', all[k], blk);
      assert k < |released| ==> DroppedBy(b, kept, released[k], blk);
    }
  }

  class OrphanList {
    const firstIno: nat
    const inodesCount: nat
    const dev: EM.ExtentDevice
    const maps: IM.BlockStore
    const stats: Stats.AllocStats
    var table: map<nat, Orphan>

    constructor (firstIno: nat, inodesCount: nat, dev: EM.ExtentDevice, maps: IM.BlockStore, stats: Stats.AllocStats, table: map<nat, Orphan>)
      ensures this.firstIno == firstIno && this.inodesCount == inodesCount
      ensures this.dev == dev && this.maps == maps && this.stats == stats && this.table == table
    {
      this.firstIno, this.inodesCount := firstIno, inodesCount;
      this.dev, this.maps, this.stats, this.table := dev, maps, stats, table;
    }

    ghost function OnDisk(): Disk
      reads dev, maps
    {
      Disk(dev.store, maps.store, maps.per)
    }

    predicate Legal(inum: nat)
    {
      firstIno <= inum <= inodesCount
    }

    /** Every legal inode is there, the counts are right, and there is a bit for each inode. */
    ghost predicate Valid(b: Before)
      reads stats
    {
      && 0 < firstIno && b.Valid() && stats.Valid() && inodesCount <= Start(stats.inodesPerGroup, |stats.inodes.sizes|)
      && forall i: nat :: Legal(i) ==> i in b.table
    }

    ghost function Kept(): Books
      reads stats
    {
      Books(stats.blocks, stats.inodes, stats.usedDirs)
    }

    /** Some inodes released: the maps, the inodes, the bitmaps and the counts are what that leaves. */
    ghost predicate After(b: Before, was: Books, released: seq<nat>, kept: map<nat, multiset<nat>>, now: nat)
      requires Valid(b)
      reads this, dev, maps, stats
    {
      && Standing(b, table, OnDisk(), released, kept, now) && InUseRight(stats, was.blocks, b, released, kept)
      && InodesRight(Kept(), was, b, released)
    }

    // ---- The inode bitmaps ----

    /** How many of the released inodes were directories of group `g` in use, and had no link. */
    ghost function DirsCleared(was: Books, b: Before, released: seq<nat>, g: nat): nat
      requires 0 < stats.inodesPerGroup && g < |was.inodes.disk|
    {
      if released == [] then 0
      else
        var i := released[|released| - 1];
        DirsCleared(was, b, released[..|released| - 1], g) + if ClearedDir(was, b, i, g) then 1 else 0
    }

    ghost predicate ClearedDir(was: Books, b: Before, i: nat, g: nat)
      requires 0 < stats.inodesPerGroup && g < |was.inodes.disk|
    {
      i in b.table && 0 < i && !b.table[i].linked && b.table[i].isDir && stats.InodeGroup(i) == g && was.inodes.InUse(g, stats.InodeBit(i))
    }

    /** In use: the inodes that were, less those released without a link. Directory counts are less by the directories of those. */
    ghost predicate InodesRight(now: Books, was: Books, b: Before, released: seq<nat>)
    {
      && 0 < stats.inodesPerGroup && now.inodes.sizes == was.inodes.sizes
      && |now.inodes.disk| == |was.inodes.disk| == |was.inodes.sizes| == |now.dirs| == |was.dirs|
      && (forall i: nat :: 0 < i <= Start(stats.inodesPerGroup, |was.inodes.sizes|) ==> InodeRight(now, was, b, released, i))
      && (forall g: nat :: g < |was.dirs| ==> DirsRight(now, was, b, released, g))
    }

    ghost predicate InodeRight(now: Books, was: Books, b: Before, released: seq<nat>, i: nat)
      requires 0 < stats.inodesPerGroup && 0 < i
    {
      var g, bit := stats.InodeGroup(i), stats.InodeBit(i);
      && g < |now.inodes.disk| && g < |was.inodes.disk|
      && (now.inodes.InUse(g, bit) <==> was.inodes.InUse(g, bit) && !Cleared(b, released, i))
    }

    ghost predicate DirsRight(now: Books, was: Books, b: Before, released: seq<nat>, g: nat)
      requires 0 < stats.inodesPerGroup && g < |was.dirs| == |now.dirs| == |was.inodes.disk|
    {
      var gone := DirsCleared(was, b, released, g);
      now.dirs[g] == if was.dirs[g] < gone then 0 else was.dirs[g] - gone
    }

    lemma OneMoreDir(was: Books, b: Before, released: seq<nat>, inum: nat, g: nat)
      requires 0 < stats.inodesPerGroup && g < |was.inodes.disk|
      ensures DirsCleared(was, b, released + [inum], g) == DirsCleared(was, b, released, g) + if ClearedDir(was, b, inum, g) then 1 else 0
    {
      assert (released + [inum])[..|released|] == released;
    }

    /** An inode with a link released: nothing is cleared. */
    lemma InodesKept(now: Books, was: Books, b: Before, released: seq<nat>, inum: nat)
      requires InodesRight(now, was, b, released) && inum in b.table && b.table[inum].linked
      ensures InodesRight(now, was, b, released + [inum])
    {
      var all := released + [inum];
      forall i: nat | 0 < i <= Start(stats.inodesPerGroup, |was.inodes.sizes|) ensures InodeRight(now, was, b, all, i) {
        assert InodeRight(now, was, b, released, i);
        assert i in all <==> i in released || i == inum;
      }
      forall g: nat | g < |was.dirs| ensures DirsRight(now, was, b, all, g) {
        assert DirsRight(now, was, b, released, g);
        OneMoreDir(was, b, released, inum, g);
      }
    }

    /** One without: it is cleared, and counted out if it was a directory. */
    lemma InodesCleared(mid: Books, now: Books, was: Books, b: Before, released: seq<nat>, inum: nat)
      requires InodesRight(mid, was, b, released) && inum in b.table && !b.table[inum].linked && inum !in released
      requires 0 < inum <= Start(stats.inodesPerGroup, |was.inodes.sizes|)
      requires stats.InodeFreed(mid.inodes, now.inodes, mid.dirs, now.dirs, inum, b.table[inum].isDir)
      ensures InodesRight(now, was, b, released + [inum])
    {
      var all := released + [inum];
      stats.InodeNumber(inum);
      forall i: nat | 0 < i <= Start(stats.inodesPerGroup, |was.inodes.sizes|) ensures InodeRight(now, was, b, all, i) {
        assert InodeRight(mid, was, b, released, i);
        assert i in all <==> i in released || i == inum;
        stats.InodeNumber(i);
      }
      assert InodeRight(mid, was, b, released, inum);
      forall g: nat | g < |was.dirs| ensures DirsRight(now, was, b, all, g) {
        assert DirsRight(mid, was, b, released, g);
        OneMoreDir(was, b, released, inum, g);
      }
    }

    /** What has become of the bitmaps when one more inode has been released. */
    lemma BitsOn(b: Before, was: Stats.Ledger, mid: Stats.Ledger, released: seq<nat>, kept: map<nat, multiset<nat>>, inum: nat, left: multiset<nat>)
      requires Valid(b) && (forall k :: 0 <= k < |released| ==> released[k] in b.table && released[k] in kept)
      requires inum in b.table && inum !in released && b.MapGood(inum) && Returned(stats, mid, b.Owned(inum), left)
      requires forall blk: nat :: stats.InRange(blk) ==> MidRight(mid, was, b, released, kept, blk)
      ensures InUseRight(stats, was, b, released + [inum], kept[inum := left])
    {
      var all, kept' := released + [inum], kept[inum := left];
      forall blk: nat | stats.InRange(blk) ensures BlockRight(stats, was, b, all, kept', blk) {
        assert MidRight(mid, was, b, released, kept, blk);
        assert BlockReturned(stats, mid, b.Owned(inum), left, blk);
        DroppedMore(b, released, kept, inum, left, blk);
      }
    }

    ghost predicate MidRight(mid: Stats.Ledger, was: Stats.Ledger, b: Before, released: seq<nat>, kept: map<nat, multiset<nat>>, blk: nat)
      requires stats.InRange(blk) && 0 < stats.blocksPerGroup
      requires b.Valid() && forall k :: 0 <= k < |released| ==> released[k] in b.table && released[k] in kept
    {
      var g, bit := stats.GroupOf(blk), stats.BitOf(blk);
      g < |mid.disk| && g < |was.disk| && (mid.InUse(g, bit) <==> was.InUse(g, bit) && !Dropped(b, released, kept, blk))
    }

    /** The map an inode is left with: what it was below the inode's size, owning `left`. */
    ghost predicate CutTo(b: Before, inum: nat, m: BlockMap, left: multiset<nat>)
      requires inum in b.table && b.MapGood(inum)
      reads dev, maps
    {
      && MapReads(OnDisk(), m) && OwnedIn(ViewOf(OnDisk(), m)) == left <= b.Owned(inum)
      && Restricted(maps.per, b.View(inum), ViewOf(OnDisk(), m), b.table[inum].cut)
    }

    method CutTree(inum: nat, rec: Orphan, root: ES.Node, ghost b: Before) returns (ok: bool, m: BlockMap, blocks: nat, ghost left: multiset<nat>)
      requires Valid(b) && Legal(inum) && b.MapGood(inum) && Unreleased(b, table, OnDisk(), inum)
      requires rec == b.table[inum] && rec.linked && rec.blockMap == Extents(root)
      modifies dev, stats
      ensures Valid(b) && DiffersIn(old(OnDisk()), OnDisk(), b.Owned(inum))
      ensures ok ==> CutTo(b, inum, m, left) && Returned(stats, old(stats.blocks), b.Owned(inum), left)
      ensures ok ==> blocks == BlocksLeft(rec.blocks, rec.unit, |b.Owned(inum) - left|)
      ensures ok <==> !TooLarge(b, inum)
      ensures stats.inodes == old(stats.inodes) && stats.usedDirs == old(stats.usedDirs) && (!ok ==> stats.blocks == old(stats.blocks))
    {
      var root';
      ok, root', blocks := TruncateExtents(dev, stats, root, b.hi, rec.cut, rec.blocks, rec.unit);
      m, left := Extents(root'), multiset{};
      if ok {
        left := OwnedBy(dev, root');
      }
    }

    method CutPointers(inum: nat, rec: Orphan, ptrs: seq<nat>, ghost b: Before) returns (m: BlockMap, blocks: nat, ghost left: multiset<nat>)
      requires Valid(b) && Legal(inum) && b.MapGood(inum) && Unreleased(b, table, OnDisk(), inum)
      requires rec == b.table[inum] && rec.linked && rec.blockMap == Pointers(ptrs)
      modifies maps, stats
      ensures Valid(b) && DiffersIn(old(OnDisk()), OnDisk(), b.Owned(inum))
      ensures CutTo(b, inum, m, left) && Returned(stats, old(stats.blocks), b.Owned(inum), left)
      ensures blocks == BlocksLeft(rec.blocks, rec.unit, |b.Owned(inum) - left|)
      ensures stats.inodes == old(stats.inodes) && stats.usedDirs == old(stats.usedDirs)
    {
      var ptrs';
      ptrs', blocks := TruncateMap(maps, stats, ptrs, rec.cut, rec.blocks, rec.unit);
      m, left := Pointers(ptrs'), MapOwned(maps, ptrs');
    }

    /** Truncates the map of an inode that still has a link; says what blocks it keeps. */
    method TruncateOne(inum: nat, ghost now: nat, ghost b: Before) returns (ok: bool, ghost left: multiset<nat>)
      requires Valid(b) && Legal(inum) && b.MapGood(inum) && Unreleased(b, table, OnDisk(), inum) && b.table[inum].linked
      modifies this, dev, maps, stats
      ensures Valid(b) && DiffersIn(old(OnDisk()), OnDisk(), b.Owned(inum))
      ensures forall i :: i in old(table) && i != inum ==> i in table && table[i] == old(table)[i]
      ensures ok ==> Released(b, table, OnDisk(), left, now, inum) && Returned(stats, old(stats.blocks), b.Owned(inum), left)
      ensures stats.inodes == old(stats.inodes) && stats.usedDirs == old(stats.usedDirs)
      ensures ok <==> !TooLarge(b, inum)
      ensures !ok ==> stats.blocks == old(stats.blocks) && table == old(table)
    {
      var rec := table[inum];
      var m, blocks;
      ok, m, blocks, left := CutMap(inum, rec, b);
      if ok {
        table := table[inum := rec.(dtime := 0, blocks := blocks, blockMap := m)];
      }
    }

    method CutMap(inum: nat, rec: Orphan, ghost b: Before) returns (ok: bool, m: BlockMap, blocks: nat, ghost left: multiset<nat>)
      requires Valid(b) && Legal(inum) && b.MapGood(inum) && Unreleased(b, table, OnDisk(), inum) && rec == b.table[inum] && rec.linked
      modifies dev, maps, stats
      ensures Valid(b) && DiffersIn(old(OnDisk()), OnDisk(), b.Owned(inum))
      ensures ok ==> CutTo(b, inum, m, left) && Returned(stats, old(stats.blocks), b.Owned(inum), left)
      ensures ok ==> blocks == BlocksLeft(rec.blocks, rec.unit, |b.Owned(inum) - left|)
      ensures ok <==> !TooLarge(b, inum)
      ensures stats.inodes == old(stats.inodes) && stats.usedDirs == old(stats.usedDirs) && (!ok ==> stats.blocks == old(stats.blocks))
    {
      ok, left, m, blocks := true, multiset{}, rec.blockMap, rec.blocks;
      match rec.blockMap {
        case Extents(root) =>
          ok, m, blocks, left := CutTree(inum, rec, root, b);
        case Pointers(ptrs) =>
          m, blocks, left := CutPointers(inum, rec, ptrs, b);
        case Unmapped =>
          NothingReturned(multiset{});
          assert CutTo(b, inum, m, left);
      }
    }

    /** Frees what an inode with no link owns, and the inode. */
    method ClearOne(inum: nat, now: nat, ghost b: Before) returns (ok: bool)
      requires Valid(b) && Legal(inum) && b.MapGood(inum) && Unreleased(b, table, OnDisk(), inum) && !b.table[inum].linked
      modifies this, stats
      ensures Valid(b)
      ensures forall i :: i in old(table) && i != inum ==> i in table && table[i] == old(table)[i]
      ensures ok ==> Released(b, table, OnDisk(), multiset{}, now, inum) && Returned(stats, old(stats.blocks), b.Owned(inum), multiset{})
      ensures ok ==> stats.InodeFreed(old(stats.inodes), stats.inodes, old(stats.usedDirs), stats.usedDirs, inum, b.table[inum].isDir)
      ensures ok <==> !TooLarge(b, inum)
      ensures !ok ==> Kept() == old(Kept()) && table == old(table)
    {
      var rec := table[inum];
      ok := true;
      match rec.blockMap {
        case Extents(root) =>
          ok := ClearExtents(dev, stats, inum, rec.isDir, root, b.hi);
        case Pointers(ptrs) =>
          ClearMap(maps, stats, inum, rec.isDir, ptrs);
        case Unmapped =>
          NothingReturned(multiset{});
          stats.FreeInode(inum, rec.isDir);
      }
      if ok {
        table := table[inum := rec.(dtime := now)];
      }
    }

    /** Where nothing is owned nothing comes free. */
    lemma NothingReturned(none: multiset<nat>)
      requires stats.Valid() && none == multiset{}
      ensures Returned(stats, stats.blocks, none, none)
    {
      forall blk: nat | stats.InRange(blk) ensures BlockReturned(stats, stats.blocks, none, none, blk) {
        assert stats.BlockHasBit(stats.blocks.sizes, blk);
      }
    }

    /** Releases one inode, truncated if it still has a link and cleared if not, unless its map is too large to walk. */
    method ReleaseMap(inum: nat, now: nat, ghost b: Before) returns (ok: bool, ghost left: multiset<nat>)
      requires Valid(b) && Legal(inum) && b.MapGood(inum) && Unreleased(b, table, OnDisk(), inum)
      modifies this, dev, maps, stats
      ensures Valid(b) && DiffersIn(old(OnDisk()), OnDisk(), b.Owned(inum))
      ensures forall i :: i in old(table) && i != inum ==> i in table && table[i] == old(table)[i]
      ensures ok ==> Released(b, table, OnDisk(), left, now, inum) && Returned(stats, old(stats.blocks), b.Owned(inum), left)
      ensures ok && b.table[inum].linked ==> stats.inodes == old(stats.inodes) && stats.usedDirs == old(stats.usedDirs)
      ensures ok && !b.table[inum].linked ==>
                stats.InodeFreed(old(stats.inodes), stats.inodes, old(stats.usedDirs), stats.usedDirs, inum, b.table[inum].isDir)
      ensures ok <==> !TooLarge(b, inum)
      ensures !ok ==> Kept() == old(Kept()) && table == old(table)
    {
      if table[inum].linked {
        ok, left := TruncateOne(inum, now, b);
      } else {
        ok := ClearOne(inum, now, b);
        left := multiset{};
      }
    }

    /** Releases one inode of the chain; says what comes next. */
    method ReleaseOne(inum: nat, now: nat, ghost b: Before, ghost was: Books, ghost released: seq<nat>, ghost kept: map<nat, multiset<nat>>)
      returns (ok: bool, next: nat, ghost left: multiset<nat>)
      requires Valid(b) && After(b, was, released, kept, now) && Legal(inum) && inum !in released
      modifies this, dev, maps, stats
      ensures Valid(b) && next == b.table[inum].dtime
      ensures ok ==> After(b, was, released + [inum], kept[inum := left], now)
      ensures !ok ==> Stopped(b, was, released, kept, now, inum) && TooLarge(b, inum)
    {
      assert StandsAt(b, table, OnDisk(), released, kept, now, inum) && b.MapGood(inum);
      ghost var table0, disk0, mid := table, OnDisk(), Kept();
      InUseMid(b, was.blocks, released, kept);
      next := table[inum].dtime;
      ok, left := ReleaseMap(inum, now, b);
      if ok {
        StandingOn(b, table0, disk0, table, OnDisk(), released, kept, now, inum, left);
        BitsOn(b, was.blocks, mid.blocks, released, kept, inum, left);
        InodesOn(mid, was, b, released, inum);
      } else {
        MidInUse(b, was.blocks, mid.blocks, released, kept);
        OthersStandStill(b, table, disk0, OnDisk(), released, kept, now, inum);
      }
    }

    lemma InodesOn(mid: Books, was: Books, b: Before, released: seq<nat>, inum: nat)
      requires Valid(b) && InodesRight(mid, was, b, released) && Legal(inum) && inum !in released
      requires b.table[inum].linked ==> stats.inodes == mid.inodes && stats.usedDirs == mid.dirs
      requires !b.table[inum].linked ==>
                 stats.InodeFreed(mid.inodes, stats.inodes, mid.dirs, stats.usedDirs, inum, b.table[inum].isDir)
      ensures InodesRight(Kept(), was, b, released + [inum])
    {
      if b.table[inum].linked {
        InodesKept(mid, was, b, released, inum);
        SameInodes(mid, Kept(), was, b, released + [inum]);
      } else {
        InodesCleared(mid, Kept(), was, b, released, inum);
      }
    }

    lemma SameInodes(mid: Books, now: Books, was: Books, b: Before, released: seq<nat>)
      requires InodesRight(mid, was, b, released) && now.inodes == mid.inodes && now.dirs == mid.dirs
      ensures InodesRight(now, was, b, released)
    {
      forall i: nat | 0 < i <= Start(stats.inodesPerGroup, |was.inodes.sizes|) ensures InodeRight(now, was, b, released, i) {
        assert InodeRight(mid, was, b, released, i);
      }
      forall g: nat | g < |was.dirs| ensures DirsRight(now, was, b, released, g) {
        assert DirsRight(mid, was, b, released, g);
      }
    }

    /** One inode could not be released: all else is as if it had not been tried. */
    ghost predicate Stopped(b: Before, was: Books, released: seq<nat>, kept: map<nat, multiset<nat>>, now: nat, inum: nat)
      requires Valid(b)
      reads this, dev, maps, stats
    {
      && StandingBut(b, table, OnDisk(), released, kept, now, inum) && InUseRight(stats, was.blocks, b, released, kept)
      && InodesRight(Kept(), was, b, released)
    }

    lemma InUseMid(b: Before, was: Stats.Ledger, released: seq<nat>, kept: map<nat, multiset<nat>>)
      requires Valid(b) && (forall k :: 0 <= k < |released| ==> released[k] in b.table && released[k] in kept)
      requires InUseRight(stats, was, b, released, kept)
      ensures forall blk: nat :: stats.InRange(blk) ==> MidRight(stats.blocks, was, b, released, kept, blk)
    {
      forall blk: nat | stats.InRange(blk) ensures MidRight(stats.blocks, was, b, released, kept, blk) {
        assert BlockRight(stats, was, b, released, kept, blk);
      }
    }

    lemma MidInUse(b: Before, was: Stats.Ledger, mid: Stats.Ledger, released: seq<nat>, kept: map<nat, multiset<nat>>)
      requires Valid(b) && (forall k :: 0 <= k < |released| ==> released[k] in b.table && released[k] in kept)
      requires mid == stats.blocks && forall blk: nat :: stats.InRange(blk) ==> MidRight(mid, was, b, released, kept, blk)
      ensures InUseRight(stats, was, b, released, kept)
    {
      forall blk: nat | stats.InRange(blk) ensures BlockRight(stats, was, b, released, kept, blk) {
        assert MidRight(mid, was, b, released, kept, blk);
      }
    }

    /** The inode's map has more nodes than a walk will come to. */
    ghost predicate TooLarge(b: Before, i: nat)
      requires b.Valid() && i in b.table
    {
      assert b.MapGood(i);
      match b.View(i)
      case ByExtents(tree, depth) =>
        if b.table[i].linked then !EM.Fits(tree, depth, b.table[i].cut) else EM.GivenUp(EM.NodeCount(tree, depth))
      case _ => false
    }

    /** Walks the chain: every inode of it is released once, in order, up to its end, a loop, a bad number or a failure. What
      * is in use then is what was, less what the released inodes no longer own and less those of them without a link. */
    method ReleaseChain(head: nat, now: nat, ghost hi: nat)
      returns (released: seq<nat>, end: End, ghost kept: map<nat, multiset<nat>>)
      requires Valid(Before(table, OnDisk(), hi))
      modifies this, dev, maps, stats
      ensures var b, was := Before(old(table), old(OnDisk()), hi), old(Kept());
              && Valid(b) && Chained(b, head, released, kept)
              && (if end.Failed? then Stopped(b, was, released, kept, now, end.inum) else After(b, was, released, kept, now))
              && var next := Following(b.table, head, released);
                 match end
                 case Done => next == 0
                 case Loops(i) => i == next && i in released
                 case Illegal(i) => i == next && i != 0 && !(firstIno <= i <= inodesCount)
                 case Failed(i) => i == next && firstIno <= i <= inodesCount && i !in released && TooLarge(b, i)
    {
      ghost var b, was := Before(table, OnDisk(), hi), Kept();
      released, kept := [], map[];
      NothingReleased(b, was, now);
      if head != 0 && !Legal(head) {
        return [], Illegal(head), kept;
      }
      var inum := head;
      var seen: set<nat> := {};
      ghost var all := Numbers(firstIno, inodesCount + 1);
      while inum != 0
        invariant Valid(b) && (inum != 0 ==> Legal(inum)) && Chained(b, head, released, kept)
        invariant inum == Following(b.table, head, released) && After(b, was, released, kept, now)
        invariant seen <= all && forall i :: i in seen <==> i in released
        decreases all - seen
      {
        if inum in seen {
          return released, Loops(inum), kept;
        }
        var ok, next;
        ghost var left;
        ok, next, left := ReleaseOne(inum, now, b, was, released, kept);
        if !ok {
          return released, Failed(inum), kept;
        }
        ChainedOn(b, head, released, kept, inum, left);
        seen, released, kept := seen + {inum}, released + [inum], kept[inum := left];
        if next != 0 && !Legal(next) {
          return released, Illegal(next), kept;
        }
        inum := next;
      }
      end := Done;
    }

    /** The released inodes are the chain's, in its order, none twice, each with what it keeps. */
    ghost predicate Chained(b: Before, head: nat, released: seq<nat>, kept: map<nat, multiset<nat>>)
    {
      && NoDuplicates(released) && Linked(b.table, head, released)
      && forall k :: 0 <= k < |released| ==> firstIno <= released[k] <= inodesCount && released[k] in kept
    }

    lemma ChainedOn(b: Before, head: nat, released: seq<nat>, kept: map<nat, multiset<nat>>, inum: nat, left: multiset<nat>)
      requires Chained(b, head, released, kept) && inum == Following(b.table, head, released) && inum in b.table
      requires Legal(inum) && inum !in released
      ensures Chained(b, head, released + [inum], kept[inum := left])
      ensures Following(b.table, head, released + [inum]) == b.table[inum].dtime
    {
      ReleasedOne(b.table, head, released, inum);
    }

    lemma NothingReleased(b: Before, was: Books, now: nat)
      requires Valid(b) && b.table == table && b.disk == OnDisk() && was == Kept()
      ensures After(b, was, [], map[], now)
    {
      forall i | i in b.table ensures StandsAt(b, table, OnDisk(), [], map[], now, i) {
        assert b.MapGood(i);
      }
      var none: map<nat, multiset<nat>> := map[];
      forall blk: nat | stats.InRange(blk) ensures BlockRight(stats, was.blocks, b, [], none, blk) {
        assert stats.BlockHasBit(stats.blocks.sizes, blk);
      }
      forall i: nat | 0 < i <= Start(stats.inodesPerGroup, |was.inodes.sizes|) ensures InodeRight(was, was, b, [], i) {
        Stats.InodeHasBit(stats.inodesPerGroup, |was.inodes.sizes|, i - 1);
      }
    }
  }

  function Numbers(lo: nat, hi: nat): (r: set<nat>)
    ensures forall i: nat :: i in r <==> lo <= i < hi
    decreases hi
  {
    if hi <= lo then {} else Numbers(lo, hi - 1) + {hi - 1}
  }
}
