// Sizing a filesystem: how many groups it has, and how many inodes each holds.
module Geometry {
  import opened Options
  import opened Arith
  import Layout

  const U32_MAX: nat := 0xFFFF_FFFF

  function CeilDiv(a: nat, b: nat): nat
    requires 0 < b
  {
    (a + b - 1) / b
  }

  function Min(a: nat, b: nat): nat
  {
    if a < b then a else b
  }

  predicate PowerOfTwo(n: nat)
  {
    n == 1 || (0 < n && n % 2 == 0 && PowerOfTwo(n / 2))
  }

  /** What the caller asks for, as validated. */
  datatype Request = Request(blockSize: nat, inodeSize: nat, firstDataBlock: nat, requestedInodes: nat, descPerBlock: nat,
                             resize: bool, hasSuper: nat -> bool)
  {
    ghost predicate Valid()
    {
      && PowerOfTwo(blockSize) && PowerOfTwo(inodeSize) && 128 <= inodeSize <= blockSize && 1024 <= blockSize <= 65536
      && 0 < descPerBlock && 0 < requestedInodes
    }

    function InodesPerBlock(): nat
      requires 0 < inodeSize
    {
      blockSize / inodeSize
    }

    function MaxInodesPerGroup(): nat
      requires 128 <= inodeSize && blockSize <= 65536
    {
      if InodesPerBlock() <= 65536 then 65536 - InodesPerBlock() else 0
    }
  }

  // ---- Powers of two ----

  /** One power of two divides a larger one. */
  lemma {:induction false} PowersDivide(a: nat, b: nat)
    requires PowerOfTwo(a) && PowerOfTwo(b) && a <= b
    ensures b == b / a * a && 0 < b / a && PowerOfTwo(b / a)
    decreases a
  {
    if a > 1 {
      PowersDivide(a / 2, b / 2);
      Halved(a / 2, b / 2, a, b);
    }
  }

  lemma Halved(c: nat, d: nat, a: nat, b: nat)
    requires 0 < c && d == d / c * c && a == 2 * c && b == 2 * d
    ensures b / a == d / c && b == b / a * a
  {
    assert b == d / c * a;
    DivModUnique(b, a, d / c, 0);
  }

  // ---- Filling inode tables ----

  /** An inode count filled out to whole inode-table blocks, and down to whole bytes of bitmap. */
  function Rounded(ipg: nat, perBlock: nat): (r: nat)
    requires 0 < perBlock
    ensures r % 8 == 0 && 8 <= r
  {
    Max(CeilDiv(ipg, perBlock) * perBlock, 8) / 8 * 8
  }

  lemma CeilBounds(a: nat, b: nat)
    requires 0 < b
    ensures a <= CeilDiv(a, b) * b < a + b
  {
    DivBounds(a + b - 1, b);
  }

  /** `r` is `n` inodes filled out to whole blocks of `perBlock`, and down to a multiple of eight, eight at the least. */
  ghost predicate FilledOut(n: nat, perBlock: nat, r: nat)
  {
    r % 8 == 0 && 8 <= r && exists blocks: nat :: RoundsUp(n, perBlock, blocks) && r <= Max(blocks * perBlock, 8) < r + 8
  }

  /** `q` is `a` over `b`, rounded up. */
  predicate RoundsUp(a: nat, b: nat, q: nat)
  {
    a <= q * b < a + b
  }

  lemma RoundsUpOnce(a: nat, b: nat, q: nat, r: nat)
    requires RoundsUp(a, b, q) && RoundsUp(a, b, r)
    ensures q == r
  {
    if q < r {
      MulMonotone(q, r, b);
    } else if r < q {
      MulMonotone(r, q, b);
    }
  }

  lemma RoundedFillsOut(n: nat, perBlock: nat)
    requires 0 < perBlock
    ensures FilledOut(n, perBlock, Rounded(n, perBlock))
  {
    CeilBounds(n, perBlock);
    var m := Max(CeilDiv(n, perBlock) * perBlock, 8);
    assert RoundsUp(n, perBlock, CeilDiv(n, perBlock));
    DivBounds(m, 8);
  }

  lemma FilledOutOnce(n: nat, perBlock: nat, r: nat)
    requires 0 < perBlock && FilledOut(n, perBlock, r)
    ensures r == Rounded(n, perBlock)
  {
    var blocks: nat :| RoundsUp(n, perBlock, blocks) && r <= Max(blocks * perBlock, 8) < r + 8;
    CeilBounds(n, perBlock);
    RoundsUpOnce(n, perBlock, blocks, CeilDiv(n, perBlock));
    DivModUnique(Max(blocks * perBlock, 8), 8, r / 8, Max(blocks * perBlock, 8) - r);
  }

  /** What is filled out falls short of what was asked by seven at most, and exceeds it by less than a block, or is eight. */
  lemma FilledOutNear(n: nat, perBlock: nat, r: nat)
    requires 0 < perBlock && FilledOut(n, perBlock, r)
    ensures n <= r + 7 && (r < n + perBlock || r == 8)
  {
    var blocks: nat :| RoundsUp(n, perBlock, blocks) && r <= Max(blocks * perBlock, 8) < r + 8;
  }

  /** Filling out does not go past a limit that is a multiple of the inodes in a block. */
  lemma RoundedWithin(ipg: nat, perBlock: nat, m: nat)
    requires 0 < perBlock && ipg <= m * perBlock && 8 <= m * perBlock
    ensures Rounded(ipg, perBlock) <= m * perBlock
  {
    var c := CeilDiv(ipg, perBlock);
    CeilBounds(ipg, perBlock);
    if m < c {
      MulMonotone(m, c, perBlock);
    }
    MulMonotone(c, m, perBlock);
  }

  /** Inodes of the whole filesystem, for a request of `ipg` a group. */
  function TotalInodes(ipg: nat, perBlock: nat, groups: nat): nat
    requires 0 < perBlock
  {
    Rounded(ipg, perBlock) * groups
  }

  /** The inodes of the whole filesystem, `n` a group filled out, are more than 32 bits count. */
  ghost predicate TooMany(n: nat, perBlock: nat, groups: nat)
  {
    exists r: nat :: FilledOut(n, perBlock, r) && r * groups > 4_294_967_295
  }

  lemma TooManyIs(n: nat, perBlock: nat, groups: nat)
    requires 0 < perBlock
    ensures TooMany(n, perBlock, groups) <==> TotalInodes(n, perBlock, groups) > U32_MAX
  {
    RoundedFillsOut(n, perBlock);
    if r: nat :| FilledOut(n, perBlock, r) && r * groups > 4_294_967_295 {
      FilledOutOnce(n, perBlock, r);
    }
  }

  /** The largest request at most `want` whose total fits 32 bits when filled out. */
  ghost predicate Chosen(want: nat, perBlock: nat, groups: nat, x: nat)
  {
    1 <= x <= want && !TooMany(x, perBlock, groups) && forall y: nat :: x < y <= want ==> TooMany(y, perBlock, groups)
  }

  ghost predicate NoneFits(want: nat, perBlock: nat, groups: nat)
  {
    forall y: nat :: 1 <= y <= want ==> TooMany(y, perBlock, groups)
  }

  method FitInodes(ipg: nat, perBlock: nat, groups: nat) returns (r: Option<nat>)
    requires 0 < perBlock && 1 <= ipg
    ensures match r
            case Some(x) => Chosen(ipg, perBlock, groups, x)
            case None => NoneFits(ipg, perBlock, groups)
  {
    var x: nat := ipg;
    TooManyIs(x, perBlock, groups);
    while TotalInodes(x, perBlock, groups) > U32_MAX
      invariant 1 <= x <= ipg && forall y: nat :: x < y <= ipg ==> TooMany(y, perBlock, groups)
      invariant TooMany(x, perBlock, groups) <==> TotalInodes(x, perBlock, groups) > U32_MAX
      decreases x
    {
      if x <= 1 {
        return None;
      }
      x := x - 1;
      TooManyIs(x, perBlock, groups);
    }
    return Some(x);
  }

  // ---- The retry loop ----

  datatype Sizes = Sizes(blocksCount: nat, blocksPerGroup: nat, groupCount: nat, descBlocks: nat, inodesPerGroup: nat,
                         itableBlocks: nat, reservedGdt: nat)

  datatype Failure = TooSmall | TooManyInodes | NoInodeTables

  datatype Outcome = Fits(sizes: Sizes) | Fails(why: Failure)

  /** Groups of a filesystem, as the 32-bit number they are kept in. */
  function GroupsOf(q: Request, blocksCount: nat, blocksPerGroup: nat): nat
    requires 0 < blocksPerGroup && q.firstDataBlock <= blocksCount
  {
    CeilDiv(blocksCount - q.firstDataBlock, blocksPerGroup) % (U32_MAX + 1)
  }

  /** Descriptor blocks kept for growth: up to 1024-fold, and no more than one indirect block reaches. */
  function ReservedGdt(q: Request, blocksCount: nat, blocksPerGroup: nat, descBlocks: nat): nat
    requires 0 < blocksPerGroup && 0 < q.descPerBlock
  {
    if !q.resize then 0
    else
      var most := if blocksCount < U32_MAX / 1024 then blocksCount * 1024 else U32_MAX;
      var groups := CeilDiv(if most < q.firstDataBlock then 0 else most - q.firstDataBlock, blocksPerGroup);
      var blocks := CeilDiv(groups, q.descPerBlock) % (U32_MAX + 1);
      Min(if blocks < descBlocks then 0 else blocks - descBlocks, q.blockSize / 4)
  }

  /** What the last group spends on its own metadata. */
  function Overhead(q: Request, s: Sizes): nat
    requires 0 < s.groupCount
  {
    2 + s.itableBlocks + if q.hasSuper(s.groupCount - 1) then 1 + s.descBlocks + s.reservedGdt else 0
  }

  /** Blocks of a last group that is not full. */
  function Remainder(q: Request, blocksCount: nat, blocksPerGroup: nat): nat
    requires 0 < blocksPerGroup && q.firstDataBlock <= blocksCount
  {
    (blocksCount - q.firstDataBlock) % blocksPerGroup
  }

  /** What a filesystem's sizes have to satisfy. */
  ghost predicate Sound(q: Request, s: Sizes)
    requires q.Valid()
  {
    && 0 < s.blocksPerGroup && q.firstDataBlock < s.blocksCount && 0 < s.groupCount == GroupsOf(q, s.blocksCount, s.blocksPerGroup)
    && s.inodesPerGroup % 8 == 0 && 8 <= s.inodesPerGroup
    && s.inodesPerGroup <= 8 * q.blockSize && s.inodesPerGroup <= q.MaxInodesPerGroup()
    && s.inodesPerGroup * s.groupCount <= U32_MAX
    && s.inodesPerGroup * q.inodeSize <= s.itableBlocks * q.blockSize < s.inodesPerGroup * q.inodeSize + q.blockSize
    && (s.descBlocks - 1) * q.descPerBlock < s.groupCount <= s.descBlocks * q.descPerBlock
    && var rem := Remainder(q, s.blocksCount, s.blocksPerGroup); rem == 0 || rem >= LastNeeds(q, s) + 50
  }

  // ---- What each round comes to ----

  /** Groups needed for the blocks, rounded up, as a 32-bit number. */
  ghost predicate Grouped(q: Request, blocksCount: nat, blocksPerGroup: nat, groups: nat)
    requires q.firstDataBlock <= blocksCount
  {
    exists n: nat :: RoundsUp(blocksCount - q.firstDataBlock, blocksPerGroup, n) && groups == n % 4_294_967_296
  }

  /** A group's share of the inodes asked for is more than its bitmap has bits. */
  ghost predicate Crowded(q: Request, groups: nat)
  {
    exists share: nat :: RoundsUp(q.requestedInodes, groups, share) && share > 8 * q.blockSize
  }

  /** What a group is to have of the inodes asked for: its share, within 16 bits. */
  ghost predicate Wanted(q: Request, groups: nat, want: nat)
    requires 0 < q.inodeSize
  {
    exists share: nat :: RoundsUp(q.requestedInodes, groups, share) && share <= 8 * q.blockSize &&
      want == if share + q.blockSize / q.inodeSize < 65536 then share else 65536 - q.blockSize / q.inodeSize
  }

  /** The blocks kept for more descriptors: for 1024 times the blocks, or all that 32 bits number, less the descriptors there
    * are, and as many as one block of numbers lists at the most. */
  ghost predicate Reserved(q: Request, blocksCount: nat, blocksPerGroup: nat, descBlocks: nat, reserved: nat)
  {
    if !q.resize then reserved == 0
    else
      exists groups: nat, blocks: nat ::
        && RoundsUp(Grown(blocksCount) - Min(Grown(blocksCount), q.firstDataBlock), blocksPerGroup, groups)
        && RoundsUp(groups, q.descPerBlock, blocks)
        && reserved == Min(blocks - Min(blocks, descBlocks), q.blockSize / 4)
  }

  function Grown(blocksCount: nat): nat
  {
    if blocksCount < 4_194_303 then 1024 * blocksCount else 4_294_967_295
  }

  /** The sizes a round works out before it looks at the last group. */
  ghost predicate Needs(q: Request, t: Try, s: Sizes, want: nat, x: nat)
    requires q.Valid() && q.firstDataBlock <= t.blocks
  {
    && s.blocksCount == t.blocks && s.blocksPerGroup == t.perGroup && 0 < s.groupCount && Grouped(q, t.blocks, t.perGroup, s.groupCount)
    && RoundsUp(s.groupCount, q.descPerBlock, s.descBlocks)
    && Wanted(q, s.groupCount, want) && Chosen(want, q.blockSize / q.inodeSize, s.groupCount, x)
    && FilledOut(x, q.blockSize / q.inodeSize, s.inodesPerGroup)
    && RoundsUp(s.inodesPerGroup * q.inodeSize, q.blockSize, s.itableBlocks)
    && Reserved(q, t.blocks, t.perGroup, s.descBlocks, s.reservedGdt)
  }

  /** Blocks of the last group's own metadata: two bitmaps, its inode table, and a superblock copy with descriptors if it has one. */
  ghost function LastNeeds(q: Request, s: Sizes): nat
    requires 0 < s.groupCount
  {
    2 + s.itableBlocks + if q.hasSuper(s.groupCount - 1) then 1 + s.descBlocks + s.reservedGdt else 0
  }

  ghost predicate IsNeeded(q: Request, t: Try, s: Sizes)
    requires q.Valid() && q.firstDataBlock <= t.blocks
  {
    exists want: nat, x: nat :: Needs(q, t, s, want, x)
  }

  /** What a round ends with, and exactly when. */
  ghost predicate Yields(q: Request, t: Try, r: Round)
    requires q.Valid() && q.firstDataBlock <= t.blocks && 0 < t.perGroup
  {
    var rem := Remainder(q, t.blocks, t.perGroup);
    match r
    case Settled(s) => IsNeeded(q, t, s) && (rem == 0 || rem >= LastNeeds(q, s) + 50)
    case DropLast(n) =>
      n == rem > 0 && exists s: Sizes :: IsNeeded(q, t, s) && rem < LastNeeds(q, s) + 50 && (s.groupCount == 1 ==> rem >= LastNeeds(q, s))
    case FewerPerGroup => t.perGroup >= 256 && TooCrowded(q, t)
    case Stop(TooManyInodes) => t.perGroup < 256 && TooCrowded(q, t)
    case Stop(NoInodeTables) =>
      exists groups: nat, want: nat ::
        0 < groups && Grouped(q, t.blocks, t.perGroup, groups) && Wanted(q, groups, want) && NoneFits(want, q.blockSize / q.inodeSize, groups)
    case Stop(TooSmall) =>
      || Grouped(q, t.blocks, t.perGroup, 0)
      || exists s: Sizes :: IsNeeded(q, t, s) && s.groupCount == 1 && 0 < rem < LastNeeds(q, s)
  }

  ghost predicate TooCrowded(q: Request, t: Try)
    requires q.firstDataBlock <= t.blocks
  {
    exists groups: nat :: 0 < groups && Grouped(q, t.blocks, t.perGroup, groups) && Crowded(q, groups)
  }

  /** Inodes a group can hold, from the request: within its bitmap and the 16-bit count, and in whole table blocks. */
  lemma InodesFit(q: Request, ipg: nat)
    requires q.Valid() && ipg <= 8 * q.blockSize && ipg <= q.MaxInodesPerGroup()
    ensures 0 < q.InodesPerBlock() <= 512
    ensures Rounded(ipg, q.InodesPerBlock()) <= 8 * q.blockSize && Rounded(ipg, q.InodesPerBlock()) <= q.MaxInodesPerGroup()
  {
    var n := q.InodesPerBlock();
    PowersDivide(q.inodeSize, q.blockSize);
    AtMost512(q);
    assert PowerOfTwo(65536);
    PowersDivide(n, 65536);
    var m := 65536 / n;
    MulSplit(m, -1, n);
    assert (m - 1) * n == 65536 - n;
    RoundedWithin(ipg, n, m - 1);
    assert q.blockSize == n * q.inodeSize == q.inodeSize * n;
    assert 8 * q.blockSize == (8 * q.inodeSize) * n;
    RoundedWithin(ipg, n, 8 * q.inodeSize);
  }

  lemma AtMost512(q: Request)
    requires q.Valid()
    ensures 0 < q.InodesPerBlock() <= 512
  {
    PowersDivide(q.inodeSize, q.blockSize);
    MulMonotone(128, q.inodeSize, q.InodesPerBlock());
  }

  /** One round: sizes for these blocks, or what to change. */
  datatype Round = Settled(sizes: Sizes) | FewerPerGroup | DropLast(rem: nat) | Stop(why: Failure)

  /** What a round starts from. */
  datatype Try = Try(blocks: nat, perGroup: nat)

  lemma GroupsAreGrouped(q: Request, blocksCount: nat, blocksPerGroup: nat)
    requires 0 < blocksPerGroup && q.firstDataBlock <= blocksCount
    ensures Grouped(q, blocksCount, blocksPerGroup, GroupsOf(q, blocksCount, blocksPerGroup))
  {
    CeilBounds(blocksCount - q.firstDataBlock, blocksPerGroup);
    assert RoundsUp(blocksCount - q.firstDataBlock, blocksPerGroup, CeilDiv(blocksCount - q.firstDataBlock, blocksPerGroup));
  }

  lemma GdtIsReserved(q: Request, blocksCount: nat, blocksPerGroup: nat, descBlocks: nat)
    requires 0 < blocksPerGroup && 0 < q.descPerBlock
    ensures Reserved(q, blocksCount, blocksPerGroup, descBlocks, ReservedGdt(q, blocksCount, blocksPerGroup, descBlocks))
  {
    var most := Grown(blocksCount);
    var rest := most - Min(most, q.firstDataBlock);
    var groups := CeilDiv(rest, blocksPerGroup);
    CeilBounds(rest, blocksPerGroup);
    CeilAtMost(rest, blocksPerGroup);
    CeilBounds(groups, q.descPerBlock);
    CeilAtMost(groups, q.descPerBlock);
    assert RoundsUp(rest, blocksPerGroup, groups) && RoundsUp(groups, q.descPerBlock, CeilDiv(groups, q.descPerBlock));
  }

  lemma CeilAtMost(a: nat, b: nat)
    requires 0 < b
    ensures CeilDiv(a, b) <= a
  {
    CeilBounds(a, b);
    if a < CeilDiv(a, b) {
      MulMonotone(a + 1, CeilDiv(a, b), b);
      MulSplit(a, 1, b);
      MulGrows(b, a);
    }
  }

  method TryOnce(q: Request, blocksCount: nat, blocksPerGroup: nat) returns (r: Round)
    requires q.Valid() && 0 < blocksPerGroup && q.firstDataBlock <= blocksCount
    ensures Yields(q, Try(blocksCount, blocksPerGroup), r)
  {
    ghost var t := Try(blocksCount, blocksPerGroup);
    var groups := GroupsOf(q, blocksCount, blocksPerGroup);
    GroupsAreGrouped(q, blocksCount, blocksPerGroup);
    if groups == 0 {
      return Stop(TooSmall);
    }
    var descBlocks := CeilDiv(groups, q.descPerBlock);
    CeilBounds(groups, q.descPerBlock);
    var ipg := CeilDiv(q.requestedInodes, groups);
    CeilBounds(q.requestedInodes, groups);
    assert RoundsUp(q.requestedInodes, groups, ipg);
    if ipg > q.blockSize * 8 {
      return if blocksPerGroup >= 256 then FewerPerGroup else Stop(TooManyInodes);
    }
    AtMost512(q);
    ipg := Min(ipg, q.MaxInodesPerGroup());
    assert Wanted(q, groups, ipg);
    var fit := FitInodes(ipg, q.InodesPerBlock(), groups);
    if fit.None? {
      return Stop(NoInodeTables);
    }
    r := SizeGroups(q, blocksCount, blocksPerGroup, groups, descBlocks, ipg, fit.value);
  }

  /** The sizes that go with the inodes chosen, if the last group can hold its share. */
  method SizeGroups(q: Request, blocksCount: nat, blocksPerGroup: nat, groups: nat, descBlocks: nat, ghost want: nat, x: nat) returns (r: Round)
    requires q.Valid() && 0 < blocksPerGroup && q.firstDataBlock <= blocksCount && 0 < groups
    requires Grouped(q, blocksCount, blocksPerGroup, groups) && RoundsUp(groups, q.descPerBlock, descBlocks)
    requires Wanted(q, groups, want) && Chosen(want, q.blockSize / q.inodeSize, groups, x)
    ensures Yields(q, Try(blocksCount, blocksPerGroup), r)
  {
    ghost var t := Try(blocksCount, blocksPerGroup);
    AtMost512(q);
    var inodes := Rounded(x, q.InodesPerBlock());
    RoundedFillsOut(x, q.InodesPerBlock());
    var itable := CeilDiv(inodes * q.inodeSize, q.blockSize);
    CeilBounds(inodes * q.inodeSize, q.blockSize);
    var reserved := ReservedGdt(q, blocksCount, blocksPerGroup, descBlocks);
    GdtIsReserved(q, blocksCount, blocksPerGroup, descBlocks);
    var sizes := Sizes(blocksCount, blocksPerGroup, groups, descBlocks, inodes, itable, reserved);
    assert Needs(q, t, sizes, want, x);
    assert IsNeeded(q, t, sizes);
    r := CheckLast(q, sizes);
  }

  /** Whether the group count stands: the last group may be too short to hold its bitmaps and table, and then goes. */
  method CheckLast(q: Request, s: Sizes) returns (r: Round)
    requires q.Valid() && 0 < s.blocksPerGroup && q.firstDataBlock <= s.blocksCount && 0 < s.groupCount
    requires IsNeeded(q, Try(s.blocksCount, s.blocksPerGroup), s)
    ensures Yields(q, Try(s.blocksCount, s.blocksPerGroup), r)
  {
    var overhead, rem := Overhead(q, s), Remainder(q, s.blocksCount, s.blocksPerGroup);
    if s.groupCount == 1 && rem != 0 && rem < overhead {
      return Stop(TooSmall);
    }
    if rem != 0 && rem < overhead + 50 {
      return DropLast(rem);
    }
    return Settled(s);
  }

  lemma ModAtMost(x: nat, m: nat)
    requires 0 < m
    ensures x % m <= x
  {
    DivBounds(x, m);
  }

  // ---- A round ends in one way ----

  lemma GroupedOnce(q: Request, blocksCount: nat, blocksPerGroup: nat, a: nat, b: nat)
    requires q.firstDataBlock <= blocksCount && Grouped(q, blocksCount, blocksPerGroup, a) && Grouped(q, blocksCount, blocksPerGroup, b)
    ensures a == b
  {
    var n: nat :| RoundsUp(blocksCount - q.firstDataBlock, blocksPerGroup, n) && a == n % 4_294_967_296;
    var m: nat :| RoundsUp(blocksCount - q.firstDataBlock, blocksPerGroup, m) && b == m % 4_294_967_296;
    RoundsUpOnce(blocksCount - q.firstDataBlock, blocksPerGroup, n, m);
  }

  lemma WantedOnce(q: Request, groups: nat, a: nat, b: nat)
    requires 0 < q.inodeSize && Wanted(q, groups, a) && Wanted(q, groups, b)
    ensures a == b && !Crowded(q, groups)
  {
    var n: nat :| RoundsUp(q.requestedInodes, groups, n) && n <= 8 * q.blockSize && a == if n + q.blockSize / q.inodeSize < 65536 then n else 65536 - q.blockSize / q.inodeSize;
    forall m: nat | RoundsUp(q.requestedInodes, groups, m) ensures m == n {
      RoundsUpOnce(q.requestedInodes, groups, n, m);
    }
  }

  lemma ReservedOnce(q: Request, blocksCount: nat, blocksPerGroup: nat, descBlocks: nat, a: nat, b: nat)
    requires Reserved(q, blocksCount, blocksPerGroup, descBlocks, a) && Reserved(q, blocksCount, blocksPerGroup, descBlocks, b)
    ensures a == b
  {
    if q.resize {
      var rest := Grown(blocksCount) - Min(Grown(blocksCount), q.firstDataBlock);
      var g: nat, n: nat :| RoundsUp(rest, blocksPerGroup, g) && RoundsUp(g, q.descPerBlock, n) &&
        a == Min(n - Min(n, descBlocks), q.blockSize / 4);
      var h: nat, m: nat :| RoundsUp(rest, blocksPerGroup, h) && RoundsUp(h, q.descPerBlock, m) &&
        b == Min(m - Min(m, descBlocks), q.blockSize / 4);
      RoundsUpOnce(rest, blocksPerGroup, g, h);
      RoundsUpOnce(g, q.descPerBlock, n, m);
    }
  }

  /** The sizes of a round are settled by what it starts from. */
  lemma NeededOnce(q: Request, t: Try, a: Sizes, b: Sizes)
    requires q.Valid() && q.firstDataBlock <= t.blocks && IsNeeded(q, t, a) && IsNeeded(q, t, b)
    ensures a == b
  {
    AtMost512(q);
    var perBlock := q.blockSize / q.inodeSize;
    var v: nat, x: nat :| Needs(q, t, a, v, x);
    var w: nat, y: nat :| Needs(q, t, b, w, y);
    GroupedOnce(q, t.blocks, t.perGroup, a.groupCount, b.groupCount);
    RoundsUpOnce(a.groupCount, q.descPerBlock, a.descBlocks, b.descBlocks);
    WantedOnce(q, a.groupCount, v, w);
    assert x == y;
    FilledOutOnce(x, perBlock, a.inodesPerGroup);
    FilledOutOnce(x, perBlock, b.inodesPerGroup);
    RoundsUpOnce(a.inodesPerGroup * q.inodeSize, q.blockSize, a.itableBlocks, b.itableBlocks);
    ReservedOnce(q, t.blocks, t.perGroup, a.descBlocks, a.reservedGdt, b.reservedGdt);
  }

  /** What stands in the way of sizes, if anything does: too few blocks, too many inodes, or no table for any. */
  lemma NeededExcludes(q: Request, t: Try, s: Sizes)
    requires q.Valid() && q.firstDataBlock <= t.blocks && 0 < t.perGroup && IsNeeded(q, t, s)
    ensures !Grouped(q, t.blocks, t.perGroup, 0) && !TooCrowded(q, t)
    ensures forall groups: nat, want: nat :: Grouped(q, t.blocks, t.perGroup, groups) && Wanted(q, groups, want) ==>
              !NoneFits(want, q.blockSize / q.inodeSize, groups)
  {
    var v: nat, x: nat :| Needs(q, t, s, v, x);
    forall groups: nat | Grouped(q, t.blocks, t.perGroup, groups) ensures groups == s.groupCount {
      GroupedOnce(q, t.blocks, t.perGroup, groups, s.groupCount);
    }
    WantedOnce(q, s.groupCount, v, v);
    forall want: nat | Wanted(q, s.groupCount, want) ensures want == v {
      WantedOnce(q, s.groupCount, v, want);
    }
  }

  /** A round has one outcome: each failure and each retry comes exactly where it is due. */
  lemma YieldsOnce(q: Request, t: Try, a: Round, b: Round)
    requires q.Valid() && q.firstDataBlock <= t.blocks && 0 < t.perGroup && Yields(q, t, a) && Yields(q, t, b)
    ensures a == b
  {
    if s: Sizes :| IsNeeded(q, t, s) {
      NeededExcludes(q, t, s);
      forall u: Sizes | IsNeeded(q, t, u) ensures u == s {
        NeededOnce(q, t, u, s);
      }
    } else {
      GroupsAreGrouped(q, t.blocks, t.perGroup);
      OnlyGroups(q, t, GroupsOf(q, t.blocks, t.perGroup));
    }
  }

  lemma OnlyGroups(q: Request, t: Try, groups: nat)
    requires q.Valid() && q.firstDataBlock <= t.blocks && Grouped(q, t.blocks, t.perGroup, groups)
    ensures forall n: nat :: Grouped(q, t.blocks, t.perGroup, n) ==> n == groups
    ensures forall want: nat :: Wanted(q, groups, want) ==> !Crowded(q, groups)
  {
    forall n: nat | Grouped(q, t.blocks, t.perGroup, n) ensures n == groups {
      GroupedOnce(q, t.blocks, t.perGroup, n, groups);
    }
    forall want: nat | Wanted(q, groups, want) ensures !Crowded(q, groups) {
      WantedOnce(q, groups, want, want);
    }
  }

  // ---- What settled sizes are good for ----

  lemma SettledIsSound(q: Request, t: Try, s: Sizes)
    requires q.Valid() && q.firstDataBlock <= t.blocks && 0 < t.perGroup && Yields(q, t, Settled(s))
    ensures Sound(q, s) && s.blocksCount == t.blocks && s.blocksPerGroup == t.perGroup
  {
    var want: nat, x: nat :| Needs(q, t, s, want, x);
    AtMost512(q);
    GroupsAreGrouped(q, t.blocks, t.perGroup);
    GroupedOnce(q, t.blocks, t.perGroup, s.groupCount, GroupsOf(q, t.blocks, t.perGroup));
    InodesFit(q, x);
    FilledOutOnce(x, q.InodesPerBlock(), s.inodesPerGroup);
    assert s.inodesPerGroup * s.groupCount <= U32_MAX;
    if t.blocks == q.firstDataBlock {
      CeilAtMost(0, t.perGroup);
    }
    MulSplit(s.descBlocks, -1, q.descPerBlock);
  }

  /** The inodes of a group come within seven of its share of what was asked, unless 16 bits or 32 bits do not count so many. */
  lemma ServesRequest(q: Request, t: Try, s: Sizes, share: nat)
    requires q.Valid() && q.firstDataBlock <= t.blocks && 0 < t.perGroup && Yields(q, t, Settled(s))
    requires RoundsUp(q.requestedInodes, s.groupCount, share)
    ensures var perBlock := q.blockSize / q.inodeSize;
            || share <= s.inodesPerGroup + 7
            || (65536 - perBlock < share && 65536 - perBlock <= s.inodesPerGroup + 7)
            || exists n: nat :: n <= share && n <= s.inodesPerGroup + 8 && TooMany(n, perBlock, s.groupCount)
    ensures s.inodesPerGroup < share + q.blockSize / q.inodeSize || s.inodesPerGroup == 8
  {
    AtMost512(q);
    var want: nat, x: nat :| Needs(q, t, s, want, x);
    WantedIs(q, s.groupCount, want, share);
    FilledOutNear(x, q.blockSize / q.inodeSize, s.inodesPerGroup);
    if x < want {
      assert TooMany(x + 1, q.blockSize / q.inodeSize, s.groupCount);
    }
  }

  lemma WantedIs(q: Request, groups: nat, want: nat, share: nat)
    requires 0 < q.inodeSize && Wanted(q, groups, want) && RoundsUp(q.requestedInodes, groups, share)
    ensures want == if share + q.blockSize / q.inodeSize < 65536 then share else 65536 - q.blockSize / q.inodeSize
  {
    var n: nat :| RoundsUp(q.requestedInodes, groups, n) && n <= 8 * q.blockSize && want == if n + q.blockSize / q.inodeSize < 65536 then n else 65536 - q.blockSize / q.inodeSize;
    RoundsUpOnce(q.requestedInodes, groups, n, share);
  }

  /** Unless one block of numbers does not list so many, the descriptors and those kept for more serve 1024 times the blocks. */
  lemma RoomToGrow(q: Request, t: Try, s: Sizes)
    requires q.Valid() && q.resize && q.firstDataBlock <= t.blocks < 4_194_303 && 0 < t.perGroup && Yields(q, t, Settled(s))
    requires s.reservedGdt < q.blockSize / 4
    ensures 1024 * t.blocks <= q.firstDataBlock + (s.descBlocks + s.reservedGdt) * q.descPerBlock * t.perGroup
  {
    var rest := Grown(t.blocks) - Min(Grown(t.blocks), q.firstDataBlock);
    var groups: nat, blocks: nat :| RoundsUp(rest, t.perGroup, groups) && RoundsUp(groups, q.descPerBlock, blocks) &&
      s.reservedGdt == Min(blocks - Min(blocks, s.descBlocks), q.blockSize / 4);
    MulMonotone(blocks, s.descBlocks + s.reservedGdt, q.descPerBlock);
    MulMonotone(groups, (s.descBlocks + s.reservedGdt) * q.descPerBlock, t.perGroup);
  }

  // ---- Round after round ----

  /** One round after another: smaller groups, or the last group gone, as the one before yields. */
  ghost predicate Tried(q: Request, tries: seq<Try>)
    requires q.Valid()
  {
    && tries != [] && (forall i :: 0 <= i < |tries| ==> q.firstDataBlock <= tries[i].blocks && 0 < tries[i].perGroup)
    && forall i :: 0 <= i < |tries| - 1 ==> Follows(q, tries[i], tries[i + 1])
  }

  ghost predicate Follows(q: Request, t: Try, u: Try)
    requires q.Valid() && q.firstDataBlock <= t.blocks && 0 < t.perGroup
  {
    || (Yields(q, t, FewerPerGroup) && u == Try(t.blocks, t.perGroup - 8))
    || exists rem: nat :: rem <= t.blocks && Yields(q, t, DropLast(rem)) && u == Try(t.blocks - rem, t.perGroup)
  }

  /** Sizes a filesystem, trying again with smaller groups or without a last group too short for its metadata. The outcome is
    * what the last of its rounds yields. */
  method Compute(q: Request, blocks: nat, perGroup: nat) returns (r: Outcome, ghost tries: seq<Try>)
    requires q.Valid() && 0 < perGroup && q.firstDataBlock < blocks
    ensures Tried(q, tries) && tries[0] == Try(blocks, Min(perGroup, 65528))
    ensures Yields(q, tries[|tries| - 1], if r.Fits? then Settled(r.sizes) else Stop(r.why))
    ensures r.Fits? ==> Sound(q, r.sizes) && r.sizes.blocksCount <= blocks && r.sizes.blocksPerGroup <= Min(perGroup, 65528)
  {
    var blocksCount, blocksPerGroup := blocks, Min(perGroup, 65528);
    tries := [Try(blocksCount, blocksPerGroup)];
    while true
      invariant 0 < blocksPerGroup <= Min(perGroup, 65528) && q.firstDataBlock <= blocksCount <= blocks
      invariant Tried(q, tries) && tries[0] == Try(blocks, Min(perGroup, 65528))
      invariant tries[|tries| - 1] == Try(blocksCount, blocksPerGroup)
      decreases blocksCount + blocksPerGroup
    {
      var round := TryOnce(q, blocksCount, blocksPerGroup);
      ghost var t := Try(blocksCount, blocksPerGroup);
      match round
      case Settled(s) =>
        SettledIsSound(q, t, s);
        return Fits(s), tries;
      case FewerPerGroup =>
        blocksPerGroup := blocksPerGroup - 8;
        tries := tries + [Try(blocksCount, blocksPerGroup)];
      case DropLast(rem) =>
        ModAtMost(blocksCount - q.firstDataBlock, blocksPerGroup);
        blocksCount := blocksCount - rem;
        tries := tries + [Try(blocksCount, blocksPerGroup)];
      case Stop(why) => return Fails(why), tries;
    }
  }

  /** The layout of a sized filesystem, with the choices that sizing leaves open. */
  function LayoutOf(q: Request, s: Sizes, flexSize: nat, sparseSuper: bool, metaBg: bool, firstMetaBg: nat): Layout.Geometry
  {
    Layout.Geometry(s.blocksCount, q.firstDataBlock, s.blocksPerGroup, s.groupCount, s.itableBlocks, flexSize, sparseSuper,
                    metaBg, firstMetaBg, q.descPerBlock, s.descBlocks, s.reservedGdt)
  }

  /** Sound sizes lay out: the groups cover the filesystem and none is empty, where their number fits 32 bits. */
  lemma SoundLaysOut(q: Request, s: Sizes, flexSize: nat, sparseSuper: bool, metaBg: bool, firstMetaBg: nat)
    requires q.Valid() && Sound(q, s) && 0 < flexSize
    requires CeilDiv(s.blocksCount - q.firstDataBlock, s.blocksPerGroup) <= U32_MAX
    ensures LayoutOf(q, s, flexSize, sparseSuper, metaBg, firstMetaBg).Valid()
  {
    var blocks, per, n := s.blocksCount - q.firstDataBlock, s.blocksPerGroup, s.groupCount;
    assert n == CeilDiv(blocks, per);
    CeilBounds(blocks, per);
    StartIsProduct(per, n);
    StartMonotone(per, n - 1, n);
    TableIsThere(s.inodesPerGroup, q.inodeSize, s.itableBlocks, q.blockSize);
  }

  lemma TableIsThere(inodes: nat, size: nat, table: nat, blockSize: nat)
    requires 0 < inodes && 0 < size && inodes * size <= table * blockSize
    ensures 0 < table
  {
    MulGrows(inodes, size);
  }
}
