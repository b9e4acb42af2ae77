// Freeing blocks and inodes: bitmaps gathered per group, with the free counts
// of the groups and of the superblock kept in step.
module AllocStats {
  import opened Arith
  import opened Bitmaps

  /** Bitmaps on disk and those gathered so far, with the free count of each group and of all of them. */
  datatype Ledger = Ledger(disk: seq<seq<bv8>>, cache: map<nat, seq<bv8>>, sizes: seq<nat>, free: seq<nat>, total: nat)
  {
    /** A group's bitmap as it now is. */
    function Current(g: nat): seq<bv8>
      requires g < |disk|
    {
      if g in cache then cache[g] else disk[g]
    }

    /** Each group's free count is the clear bits of its bitmap, and the total their sum. */
    ghost predicate Valid()
    {
      && |disk| == |sizes| == |free|
      && (forall g :: 0 <= g < |disk| ==> CountsRight(g))
      && total == Sum(free, |free|)
    }

    ghost predicate CountsRight(g: nat)
      requires g < |disk| && |disk| == |sizes| == |free|
    {
      sizes[g] <= 8 * |Current(g)| && free[g] + Ones(Current(g), sizes[g]) == sizes[g]
    }

    predicate InUse(g: nat, bit: nat)
      requires g < |disk|
    {
      Test(Current(g), bit)
    }

    /** The bit cleared and counted, or left alone if it is clear already. */
    function Clear(g: nat, bit: nat): Ledger
      requires g < |disk| && g < |free| && bit < 8 * |Current(g)|
    {
      var bitmap := Current(g);
      if !Test(bitmap, bit) then this.(cache := cache[g := bitmap])
      else this.(cache := cache[g := bitmap[bit / 8 := bitmap[bit / 8] & !Mask(bit % 8)]],
                 free := free[g := free[g] + 1], total := total + 1)
    }

    /** The gathered bitmaps written. */
    function Flushed(): Ledger
    {
      this.(disk := seq(|disk|, g requires 0 <= g < |disk| => Current(g)), cache := map[])
    }
  }

  function Sum(s: seq<nat>, n: nat): nat
    requires n <= |s|
  {
    if n == 0 then 0 else Sum(s, n - 1) + s[n - 1]
  }

  lemma {:induction false} SumBump(s: seq<nat>, g: nat, n: nat)
    requires g < |s| && n <= |s|
    ensures Sum(s[g := s[g] + 1], n) == Sum(s, n) + if g < n then 1 else 0
    decreases n
  {
    if n > 0 {
      SumBump(s, g, n - 1);
    }
  }

  lemma {:induction false} OnesClear(s: seq<bv8>, t: seq<bv8>, i: nat, n: nat)
    requires Test(s, i) && forall j: nat :: Test(t, j) <==> Test(s, j) && j != i
    ensures Ones(t, n) + (if i < n then 1 else 0) == Ones(s, n)
    decreases n
  {
    if n > 0 {
      OnesClear(s, t, i, n - 1);
    }
  }

  lemma ClearCounts(l: Ledger, g: nat, bit: nat)
    requires l.Valid() && g < |l.disk| && bit < l.sizes[g]
    ensures bit < 8 * |l.Current(g)|
    ensures var l' := l.Clear(g, bit); l'.Valid() && l'.sizes == l.sizes && l'.disk == l.disk
  {
    assert l.CountsRight(g);
    var l' := l.Clear(g, bit);
    if l.InUse(g, bit) {
      SumBump(l.free, g, |l.free|);
    }
    forall h | 0 <= h < |l.disk| ensures l'.CountsRight(h) {
      assert l.CountsRight(h);
      GroupCounts(l, g, bit, h);
    }
  }

  lemma GroupCounts(l: Ledger, g: nat, bit: nat, h: nat)
    requires |l.disk| == |l.sizes| == |l.free| && g < |l.disk| && h < |l.disk|
    requires l.CountsRight(g) && l.CountsRight(h) && bit < l.sizes[g]
    ensures l.Clear(g, bit).CountsRight(h)
  {
    if h == g && l.InUse(g, bit) {
      forall j: nat ensures Test(l.Clear(g, bit).Current(g), j) <==> Test(l.Current(g), j) && j != bit {
        ClearedBits(l, g, bit, j);
      }
      OnesClear(l.Current(g), l.Clear(g, bit).Current(g), bit, l.sizes[g]);
    }
  }

  lemma ClearBits(l: Ledger, g: nat, bit: nat, h: nat, b: nat)
    requires g < |l.disk| && g < |l.free| && bit < 8 * |l.Current(g)| && h < |l.disk|
    ensures l.Clear(g, bit).InUse(h, b) <==> l.InUse(h, b) && !(h == g && b == bit)
  {
    if h == g {
      ClearedBits(l, g, bit, b);
    }
  }

  lemma ClearedBits(l: Ledger, g: nat, bit: nat, b: nat)
    requires g < |l.disk| && g < |l.free| && bit < 8 * |l.Current(g)|
    ensures Test(l.Clear(g, bit).Current(g), b) <==> Test(l.Current(g), b) && b != bit
  {
    ClearTest(l.Current(g), bit, b);
  }

  /** Clearing a bit keeps every count, changes that bit alone, and does nothing the second time. */
  lemma ClearKeeps(l: Ledger, g: nat, bit: nat)
    requires l.Valid() && g < |l.disk| && bit < l.sizes[g]
    ensures bit < 8 * |l.Current(g)|
    ensures var l' := l.Clear(g, bit); l'.Valid() && l'.sizes == l.sizes && l'.disk == l.disk && ClearedIn(l, l', g, bit)
  {
    ClearCounts(l, g, bit);
    var l' := l.Clear(g, bit);
    forall h: nat, b: nat | h < |l.disk| ensures l'.InUse(h, b) <==> l.InUse(h, b) && !(h == g && b == bit) {
      ClearBits(l, g, bit, h, b);
    }
  }

  /** What was gathered is on disk, and nothing else has changed. */
  ghost predicate WrittenOut(l: Ledger, l': Ledger)
  {
    && |l'.disk| == |l.disk| && l'.cache == map[] && l'.sizes == l.sizes && l'.free == l.free && l'.total == l.total
    && forall h :: 0 <= h < |l.disk| ==> l'.disk[h] == l.Current(h)
  }

  lemma FlushKeeps(l: Ledger)
    requires l.Valid()
    ensures l.Flushed().Valid() && WrittenOut(l, l.Flushed())
  {
    var l' := l.Flushed();
    forall h | 0 <= h < |l.disk| ensures l'.CountsRight(h) {
      assert l.CountsRight(h);
    }
  }

  /** A group's count down by one, or at zero. */
  function OneLess(counts: seq<nat>, g: nat): seq<nat>
  {
    if g < |counts| && 0 < counts[g] then counts[g := counts[g] - 1] else counts
  }

  class AllocStats {
    const firstDataBlock: nat
    const blocksCount: nat
    const blocksPerGroup: nat
    const inodesPerGroup: nat
    var blocks: Ledger
    var inodes: Ledger
    /** Directories in use, group by group. */
    var usedDirs: seq<nat>

    constructor (firstDataBlock: nat, blocksCount: nat, blocksPerGroup: nat, inodesPerGroup: nat, blocks: Ledger, inodes: Ledger, usedDirs: seq<nat>)
      ensures this.firstDataBlock == firstDataBlock && this.blocksCount == blocksCount
      ensures this.blocksPerGroup == blocksPerGroup && this.inodesPerGroup == inodesPerGroup
      ensures this.blocks == blocks && this.inodes == inodes && this.usedDirs == usedDirs
    {
      this.firstDataBlock, this.blocksCount, this.blocksPerGroup := firstDataBlock, blocksCount, blocksPerGroup;
      this.inodesPerGroup, this.blocks, this.inodes, this.usedDirs := inodesPerGroup, blocks, inodes, usedDirs;
    }

    /** Writes the bitmaps gathered. */
    method Flush()
      requires Valid()
      modifies this
      ensures Valid() && WrittenOut(old(blocks), blocks) && WrittenOut(old(inodes), inodes) && usedDirs == old(usedDirs)
    {
      FlushKeeps(blocks);
      FlushKeeps(inodes);
      blocks, inodes := blocks.Flushed(), inodes.Flushed();
    }

    /** The groups cover the filesystem's blocks, and the inode tables its inodes. */
    ghost predicate Valid()
      reads this
    {
      && blocks.Valid() && inodes.Valid() && 0 < blocksPerGroup && 0 < inodesPerGroup && |usedDirs| == |inodes.disk|
      && (forall b: nat :: firstDataBlock <= b < blocksCount ==> BlockHasBit(blocks.sizes, b))
      && (forall i: nat :: i < |inodes.sizes| ==> inodes.sizes[i] == inodesPerGroup)
    }

    predicate BlockHasBit(sizes: seq<nat>, b: nat)
      requires firstDataBlock <= b && 0 < blocksPerGroup
    {
      GroupOf(b) < |sizes| && BitOf(b) < sizes[GroupOf(b)]
    }

    function GroupOf(b: nat): nat
      requires firstDataBlock <= b && 0 < blocksPerGroup
    {
      BlockOf(blocksPerGroup, b - firstDataBlock)
    }

    function BitOf(b: nat): nat
      requires firstDataBlock <= b && 0 < blocksPerGroup
    {
      b - firstDataBlock - Start(blocksPerGroup, GroupOf(b))
    }

    function InodeGroup(inum: nat): nat
      requires 0 < inum && 0 < inodesPerGroup
    {
      (inum - 1) / inodesPerGroup
    }

    function InodeBit(inum: nat): nat
      requires 0 < inum && 0 < inodesPerGroup
    {
      (inum - 1) % inodesPerGroup
    }

    predicate InRange(b: nat)
    {
      firstDataBlock <= b < blocksCount
    }

    /** Frees one block; a block already free is not counted free twice. */
    method FreeBlock(block: nat)
      requires Valid()
      modifies this
      ensures Valid() && inodes == old(inodes) && usedDirs == old(usedDirs) && |blocks.disk| == |old(blocks).disk|
      ensures !InRange(block) ==> blocks == old(blocks)
      ensures InRange(block) ==> ClearedIn(old(blocks), blocks, GroupOf(block), BitOf(block))
    {
      if block < firstDataBlock || block >= blocksCount {
        return;
      }
      assert BlockHasBit(blocks.sizes, block);
      var group, bit := GroupOf(block), BitOf(block);
      ClearKeeps(blocks, group, bit);
      blocks := blocks.Clear(group, bit);
    }

    /** The inode's bit cleared and counted, and its group's count of directories one less if it was one and in use. */
    ghost predicate InodeFreed(was: Ledger, now: Ledger, dirs: seq<nat>, dirs': seq<nat>, inum: nat, isDir: bool)
      requires 0 < inum && 0 < inodesPerGroup
    {
      var g, bit := InodeGroup(inum), InodeBit(inum);
      && ClearedIn(was, now, g, bit) && now.sizes == was.sizes
      && dirs' == if isDir && was.InUse(g, bit) then OneLess(dirs, g) else dirs
    }

    /** An inode's number, from its group and its bit there. */
    lemma InodeNumber(inum: nat)
      requires 0 < inum && 0 < inodesPerGroup
      ensures inum == InodeGroup(inum) * inodesPerGroup + InodeBit(inum) + 1 && InodeBit(inum) < inodesPerGroup
    {
      DivBounds(inum - 1, inodesPerGroup);
      DivModUnique(inum - 1, inodesPerGroup, InodeGroup(inum), inum - 1 - InodeGroup(inum) * inodesPerGroup);
    }

    /** A block's number, from its group and its bit there. */
    lemma BlockNumber(b: nat)
      requires firstDataBlock <= b && 0 < blocksPerGroup
      ensures b == firstDataBlock + GroupOf(b) * blocksPerGroup + BitOf(b) && BitOf(b) < blocksPerGroup
    {
      StartIsProduct(blocksPerGroup, GroupOf(b));
    }

    /** Frees one inode, and counts one directory less if it was one and in use. */
    method FreeInode(inum: nat, isDir: bool)
      requires Valid() && 0 < inum <= Start(inodesPerGroup, |inodes.sizes|)
      modifies this
      ensures Valid() && blocks == old(blocks) && |inodes.disk| == |old(inodes).disk|
      ensures InodeFreed(old(inodes), inodes, old(usedDirs), usedDirs, inum, isDir)
    {
      InodeHasBit(inodesPerGroup, |inodes.sizes|, inum - 1);
      var group, bit := InodeGroup(inum), InodeBit(inum);
      ClearKeeps(inodes, group, bit);
      if isDir && inodes.InUse(group, bit) {
        usedDirs := OneLess(usedDirs, group);
      }
      inodes := inodes.Clear(group, bit);
    }

    /** Frees a list of blocks, in any order and however often each occurs. */
    method FreeBlocks(list: seq<nat>)
      requires Valid()
      modifies this
      ensures Valid() && inodes == old(inodes) && usedDirs == old(usedDirs) && |blocks.disk| == |old(blocks).disk|
      ensures forall b: nat :: InRange(b) ==> StillInUse(old(blocks), b, list)
    {
      ghost var was := blocks;
      assert forall b: nat :: InRange(b) ==> BlockHasBit(blocks.sizes, b);
      for n := 0 to |list|
        invariant Valid() && inodes == old(inodes) && usedDirs == old(usedDirs) && |blocks.disk| == |was.disk|
        invariant forall b: nat :: InRange(b) ==> StillInUse(was, b, list[..n])
      {
        ghost var mid, next := blocks, list[..n + 1];
        assert forall b: nat :: InRange(b) ==> StillInUse(was, b, list[..n]);
        FreeBlock(list[n]);
        forall b: nat | InRange(b) ensures StillInUse(was, b, next) {
          assert BlockHasBit(blocks.sizes, b);
          assert b in next <==> b in list[..n] || b == list[n];
          assert mid.InUse(GroupOf(b), BitOf(b)) <==> was.InUse(GroupOf(b), BitOf(b)) && b !in list[..n];
          if InRange(list[n]) {
            SameBlock(firstDataBlock, blocksPerGroup, b, list[n]);
          }
        }
      }
      assert list[..|list|] == list;
    }

    /** A block is in use if it was and is not in the list. */
    ghost predicate StillInUse(was: Ledger, b: nat, list: seq<nat>)
      requires InRange(b) && 0 < blocksPerGroup
      reads this
    {
      && GroupOf(b) < |blocks.disk| && GroupOf(b) < |was.disk|
      && (blocks.InUse(GroupOf(b), BitOf(b)) <==> was.InUse(GroupOf(b), BitOf(b)) && b !in list)
    }
  }

  /** One bit cleared: counted once if it was set, and nothing else changed. */
  ghost predicate ClearedIn(l: Ledger, l': Ledger, g: nat, bit: nat)
  {
    && |l'.disk| == |l.disk| && g < |l.disk|
    && (forall h: nat, b: nat :: h < |l.disk| ==> (l'.InUse(h, b) <==> l.InUse(h, b) && !(h == g && b == bit)))
    && l'.total == l.total + (if l.InUse(g, bit) then 1 else 0)
    && (!l.InUse(g, bit) ==> l'.free == l.free && l'.total == l.total && forall h: nat :: h < |l.disk| ==> l'.Current(h) == l.Current(h))
  }

  lemma InodeHasBit(per: nat, groups: nat, i: nat)
    requires 0 < per && i < Start(per, groups)
    ensures i / per < groups && i % per < per
  {
    BlockOfIsQuotient(per, i);
    if groups <= i / per {
      StartMonotone(per, groups, i / per);
    }
  }

  /** A group and a bit of it are one block's. */
  lemma SameBlock(first: nat, per: nat, a: nat, b: nat)
    requires 0 < per && first <= a && first <= b
    ensures (BlockOf(per, a - first) == BlockOf(per, b - first) &&
             a - first - Start(per, BlockOf(per, a - first)) == b - first - Start(per, BlockOf(per, b - first))) <==> a == b
  {
  }
}
