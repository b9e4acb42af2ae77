// Where a filesystem's groups keep their superblock copies, descriptors,
// bitmaps and inode tables.
module Layout {
  import opened Options
  import opened Arith
  import opened FirstFit

  datatype Geometry = Geometry(
    blocksCount: nat, firstDataBlock: nat, blocksPerGroup: nat, groupCount: nat,
    itableBlocks: nat, flexSize: nat, sparseSuper: bool,
    metaBg: bool, firstMetaBg: nat, descPerBlock: nat, descBlocks: nat, reservedGdt: nat)
  {
    /** What the formatter computes: groups that cover the filesystem, none of them empty. */
    ghost predicate Valid()
    {
      && 0 < blocksPerGroup && 0 < groupCount && 0 < itableBlocks && 0 < flexSize && 0 < descPerBlock
      && FirstBlock(groupCount - 1) < blocksCount <= FirstBlock(groupCount)
    }

    function FirstBlock(group: nat): nat
    {
      firstDataBlock + Start(blocksPerGroup, group)
    }

    /** One past the last block of a group: the last group may be short. */
    function EndBlock(group: nat): nat
    {
      if FirstBlock(group + 1) < blocksCount then FirstBlock(group + 1) else blocksCount
    }

    predicate HasSuper(group: nat)
    {
      !sparseSuper || group <= 1 || (group % 2 != 0 && (IsPowerOf(group, 3) || IsPowerOf(group, 5) || IsPowerOf(group, 7)))
    }

    predicate GroupHasDesc(group: nat)
      requires 0 < descPerBlock
    {
      if !metaBg || group / descPerBlock < firstMetaBg then HasSuper(group)
      else
        var within := group % descPerBlock;
        within == 0 || within == 1 || within == descPerBlock - 1
    }

    function DescBlocksInGroup(group: nat): nat
      requires 0 < descPerBlock
    {
      if !GroupHasDesc(group) then 0
      else if !metaBg || group / descPerBlock < firstMetaBg then descBlocks + reservedGdt
      else 1
    }

    /** Blocks at the front of a group taken by a superblock copy and descriptors. */
    function SuperOverhead(group: nat): nat
      requires 0 < descPerBlock
    {
      (if HasSuper(group) then 1 else 0) + DescBlocksInGroup(group)
    }

    function GroupOf(block: nat): nat
      requires 0 < blocksPerGroup && firstDataBlock <= block
    {
      BlockOf(blocksPerGroup, block - firstDataBlock)
    }

    predicate InSuperRegion(block: nat)
      requires 0 < blocksPerGroup && 0 < descPerBlock
    {
      || block < firstDataBlock || block >= blocksCount || GroupOf(block) >= groupCount
      || block < FirstBlock(GroupOf(block)) + SuperOverhead(GroupOf(block))
    }

    ghost function Super(): nat -> bool
      requires 0 < blocksPerGroup && 0 < descPerBlock
    {
      (b: nat) => 0 < blocksPerGroup && 0 < descPerBlock && InSuperRegion(b)
    }

    function FlexFirst(group: nat): nat
      requires 0 < flexSize
    {
      group / flexSize * flexSize
    }

    function FlexMembers(first: nat): nat
      requires first <= groupCount
    {
      if flexSize < groupCount - first then flexSize else groupCount - first
    }
  }

  predicate IsPowerOf(n: nat, base: nat)
    requires 1 < base
  {
    if n == 0 then false
    else if n % base == 0 then
      QuotientShrinks(n, base);
      IsPowerOf(n / base, base)
    else n == 1
  }

  lemma QuotientShrinks(n: nat, base: nat)
    requires 0 < n && 1 < base
    ensures n / base < n
  {
    BlockOfIsQuotient(base, n);
    StartGrows(base, n / base);
  }

  lemma {:induction false} StartGrows(bs: nat, i: nat)
    requires 1 < bs
    ensures Start(bs, i) >= 2 * i
  {
    if 0 < i {
      StartGrows(bs, i - 1);
    }
  }

  function Power(base: nat, k: nat): nat
  {
    if k == 0 then 1 else base * Power(base, k - 1)
  }

  lemma PowerDivides(base: nat, k: nat)
    requires 0 < base && 0 < k
    ensures Power(base, k) % base == 0 && Power(base, k) / base == Power(base, k - 1)
  {
    DivModUnique(Power(base, k), base, Power(base, k - 1), 0);
  }

  lemma {:induction false} PowersPass(base: nat, k: nat)
    requires 1 < base
    ensures IsPowerOf(Power(base, k), base)
  {
    PowerIsPositive(base, k);
    if k > 0 {
      PowerDivides(base, k);
      PowersPass(base, k - 1);
    }
  }

  lemma {:induction false} OnlyPowersPass(n: nat, base: nat) returns (k: nat)
    requires 1 < base && IsPowerOf(n, base)
    ensures n == Power(base, k)
    decreases n
  {
    k := 0;
    if n % base == 0 {
      QuotientShrinks(n, base);
      k := OnlyPowersPass(n / base, base);
      k := k + 1;
    }
  }

  /** Dividing out a base tells its powers: superblock copies are in groups 0 and 1 and the powers of 3, 5 and 7. */
  lemma PowersAreFound(n: nat, base: nat)
    requires 1 < base
    ensures IsPowerOf(n, base) <==> exists k: nat :: n == Power(base, k)
  {
    if IsPowerOf(n, base) {
      var k := OnlyPowersPass(n, base);
    }
    if k: nat :| n == Power(base, k) {
      PowersPass(base, k);
    }
  }

  lemma {:induction false} PowerIsPositive(base: nat, k: nat)
    requires 0 < base
    ensures 0 < Power(base, k)
  {
    if k > 0 {
      PowerIsPositive(base, k - 1);
      MulGrows(base, Power(base, k - 1));
    }
  }

  /** Asking one block's own group is asking every group's front. */
  lemma SuperRegionIsFronts(g: Geometry, b: nat)
    requires g.Valid() && forall h: nat :: h < g.groupCount ==> g.SuperOverhead(h) <= g.blocksPerGroup
    ensures g.InSuperRegion(b) <==>
            || b < g.firstDataBlock || g.blocksCount <= b
            || exists h: nat :: h < g.groupCount && g.FirstBlock(h) <= b < g.FirstBlock(h) + g.SuperOverhead(h)
  {
    if g.firstDataBlock <= b < g.blocksCount {
      var h := g.GroupOf(b);
      if g.groupCount <= h {
        StartMonotone(g.blocksPerGroup, g.groupCount, h);
      }
      assert h < g.groupCount;
      forall x: nat | x < g.groupCount && g.FirstBlock(x) <= b < g.FirstBlock(x) + g.SuperOverhead(x) ensures x == h {
        BlockOfStart(g.blocksPerGroup, x, b - g.FirstBlock(x));
      }
    }
  }

  // ---- Placing one run after another ----

  /** Where the search for run `k` starts: after the run before it. */
  function CursorAt(from: nat, lens: seq<nat>, starts: seq<nat>, k: nat): nat
    requires k <= |starts| <= |lens|
  {
    if k == 0 then from else starts[k - 1] + lens[k - 1]
  }

  /** Each run is the first fit after the one before it. */
  ghost predicate Chain(taken: nat -> bool, limit: nat, from: nat, lens: seq<nat>, starts: seq<nat>)
  {
    && |starts| <= |lens|
    && forall k :: 0 <= k < |starts| ==> Link(taken, limit, from, lens, starts, k)
  }

  ghost predicate Link(taken: nat -> bool, limit: nat, from: nat, lens: seq<nat>, starts: seq<nat>, k: nat)
    requires k < |starts| <= |lens|
  {
    IsFirst(taken, limit, CursorAt(from, lens, starts, k), lens[k], starts[k])
  }

  /** A chain as far as it goes: the next run fits nowhere. */
  ghost predicate Stuck(taken: nat -> bool, limit: nat, from: nat, lens: seq<nat>, starts: seq<nat>)
  {
    && Chain(taken, limit, from, lens, starts) && |starts| < |lens|
    && NoFit(taken, limit, CursorAt(from, lens, starts, |starts|), lens[|starts|])
  }

  lemma ChainOn(taken: nat -> bool, limit: nat, from: nat, lens: seq<nat>, starts: seq<nat>, s: nat)
    requires Chain(taken, limit, from, lens, starts) && |starts| < |lens|
    requires IsFirst(taken, limit, CursorAt(from, lens, starts, |starts|), lens[|starts|], s)
    ensures Chain(taken, limit, from, lens, starts + [s])
  {
    var all := starts + [s];
    forall k | 0 <= k < |all| ensures Link(taken, limit, from, lens, all, k) {
      assert CursorAt(from, lens, all, k) == CursorAt(from, lens, starts, k);
      assert k < |starts| ==> Link(taken, limit, from, lens, starts, k);
    }
  }

  /** Runs of a chain come one after another: none overlaps another or starts before the chain does. */
  lemma {:induction false} ChainInOrder(taken: nat -> bool, limit: nat, from: nat, lens: seq<nat>, starts: seq<nat>, i: nat, j: nat)
    requires Chain(taken, limit, from, lens, starts) && i <= j < |starts|
    ensures from <= starts[i] && starts[j] + lens[j] <= limit && (i < j ==> starts[i] + lens[i] <= starts[j])
    decreases j
  {
    assert Link(taken, limit, from, lens, starts, j);
    if i < j {
      ChainInOrder(taken, limit, from, lens, starts, i, j - 1);
    } else if 0 < j {
      ChainInOrder(taken, limit, from, lens, starts, j - 1, j - 1);
    }
  }

  /** A list of lengths can be placed in one way at most, and not at all where the search is stuck. */
  lemma {:induction false} ChainIsUnique(taken: nat -> bool, limit: nat, from: nat, lens: seq<nat>, a: seq<nat>, b: seq<nat>, k: nat)
    requires Chain(taken, limit, from, lens, a) && Chain(taken, limit, from, lens, b) && k < |a| && k < |b|
    ensures a[k] == b[k]
    decreases k
  {
    if 0 < k {
      ChainIsUnique(taken, limit, from, lens, a, b, k - 1);
    }
    assert Link(taken, limit, from, lens, a, k) && Link(taken, limit, from, lens, b, k);
    FirstIsUnique(taken, limit, CursorAt(from, lens, a, k), lens[k], a[k], b[k]);
  }

  lemma StuckMeansNone(taken: nat -> bool, limit: nat, from: nat, lens: seq<nat>, stuck: seq<nat>, starts: seq<nat>)
    requires Stuck(taken, limit, from, lens, stuck) && Chain(taken, limit, from, lens, starts)
    ensures |starts| <= |stuck|
  {
    var n := |stuck|;
    if n < |starts| {
      assert Link(taken, limit, from, lens, starts, n);
      if 0 < n {
        ChainIsUnique(taken, limit, from, lens, stuck, starts, n - 1);
      }
      assert false;
    }
  }

  // ---- One flex group ----

  /** What a flex group needs: a block bitmap and an inode bitmap for each member, then its inode tables. */
  function FlexLens(g: Geometry, members: nat): (r: seq<nat>)
    ensures |r| == 3 * members
  {
    seq(3 * members, k requires 0 <= k => LenAt(g, members, k))
  }

  function LenAt(g: Geometry, members: nat, k: nat): nat
  {
    if k < 2 * members then 1 else g.itableBlocks
  }

  datatype Place = Place(blockBitmap: nat, inodeBitmap: nat, inodeTable: nat)

  function Places(starts: seq<nat>, members: nat): seq<Place>
    requires |starts| == 3 * members
  {
    seq(members, i requires 0 <= i < members => Place(starts[i], starts[members + i], starts[2 * members + i]))
  }

  /** The next block outside every superblock region. */
  method TakeOne(g: Geometry, cursor: nat) returns (r: Option<nat>)
    requires g.Valid()
    ensures match r
            case Some(s) => IsFirst(g.Super(), g.blocksCount, cursor, 1, s)
            case None => NoFit(g.Super(), g.blocksCount, cursor, 1)
  {
    var c := cursor;
    while c < g.blocksCount && g.InSuperRegion(c)
      invariant cursor <= c && NoneBefore(g.Super(), g.blocksCount, cursor, 1, c)
    {
      assert g.Super()(c);
      Blocked(g.Super(), g.blocksCount, cursor, 1, c, c);
      c := c + 1;
    }
    if c >= g.blocksCount {
      PastTheEnd(g.Super(), g.blocksCount, cursor, 1, c);
      return None;
    }
    return Some(c);
  }

  /** The next contiguous run outside every superblock region. */
  method TakeTable(g: Geometry, cursor: nat) returns (r: Option<nat>)
    requires g.Valid()
    ensures match r
            case Some(s) => IsFirst(g.Super(), g.blocksCount, cursor, g.itableBlocks, s)
            case None => NoFit(g.Super(), g.blocksCount, cursor, g.itableBlocks)
  {
    var c, len := cursor, g.itableBlocks;
    while true
      invariant cursor <= c && NoneBefore(g.Super(), g.blocksCount, cursor, len, c)
      decreases g.blocksCount + 1 - c
    {
      c := SkipSuper(g, cursor, c);
      if c + len > g.blocksCount {
        PastTheEnd(g.Super(), g.blocksCount, cursor, len, c);
        return None;
      }
      var blocked := FindSuper(g, c, len);
      match blocked
      case None => return Some(c);
      case Some(b) =>
        Blocked(g.Super(), g.blocksCount, cursor, len, c, b);
        c := b + 1;
    }
  }

  method SkipSuper(g: Geometry, ghost cursor: nat, from: nat) returns (c: nat)
    requires g.Valid() && cursor <= from && NoneBefore(g.Super(), g.blocksCount, cursor, g.itableBlocks, from)
    ensures from <= c && NoneBefore(g.Super(), g.blocksCount, cursor, g.itableBlocks, c)
  {
    c := from;
    while c < g.blocksCount && g.InSuperRegion(c)
      invariant from <= c && NoneBefore(g.Super(), g.blocksCount, cursor, g.itableBlocks, c)
    {
      assert g.Super()(c);
      Blocked(g.Super(), g.blocksCount, cursor, g.itableBlocks, c, c);
      c := c + 1;
    }
  }

  method FindSuper(g: Geometry, c: nat, len: nat) returns (r: Option<nat>)
    requires g.Valid() && c + len <= g.blocksCount
    ensures match r
            case Some(b) => c <= b < c + len && g.Super()(b)
            case None => Fits(g.Super(), g.blocksCount, c, len)
  {
    for b := c to c + len
      invariant forall x: nat :: c <= x < b ==> !g.Super()(x)
    {
      if g.InSuperRegion(b) {
        return Some(b);
      }
    }
    return None;
  }

  /** The places are those of a first-fit chain. */
  ghost predicate FlexPlaced(g: Geometry, flexFirst: nat, places: seq<Place>)
    requires g.Valid() && flexFirst <= g.groupCount
  {
    exists starts: seq<nat> :: FlexChain(g, flexFirst, starts) && |starts| == 3 * g.FlexMembers(flexFirst) &&
      places == Places(starts, g.FlexMembers(flexFirst))
  }

  ghost predicate FlexChain(g: Geometry, flexFirst: nat, starts: seq<nat>)
    requires g.Valid() && flexFirst <= g.groupCount
  {
    Chain(g.Super(), g.blocksCount, g.FirstBlock(flexFirst), FlexLens(g, g.FlexMembers(flexFirst)), starts)
  }

  /** The chain stops short: the next bitmap or table fits nowhere after it. */
  ghost predicate FlexStuck(g: Geometry, flexFirst: nat)
    requires g.Valid() && flexFirst <= g.groupCount
  {
    exists starts: seq<nat> :: FlexChain(g, flexFirst, starts) &&
      Stuck(g.Super(), g.blocksCount, g.FirstBlock(flexFirst), FlexLens(g, g.FlexMembers(flexFirst)), starts)
  }

  /** A flex group is placed in one way, or in none. */
  lemma FlexPlacementIsUnique(g: Geometry, flexFirst: nat, a: seq<Place>, b: seq<Place>)
    requires g.Valid() && flexFirst <= g.groupCount && FlexPlaced(g, flexFirst, a)
    ensures FlexPlaced(g, flexFirst, b) ==> a == b
    ensures !FlexStuck(g, flexFirst)
  {
    var n, from := g.FlexMembers(flexFirst), g.FirstBlock(flexFirst);
    var lens := FlexLens(g, n);
    var x: seq<nat> :| FlexChain(g, flexFirst, x) && |x| == 3 * n && a == Places(x, n);
    if FlexPlaced(g, flexFirst, b) {
      var y: seq<nat> :| FlexChain(g, flexFirst, y) && |y| == 3 * n && b == Places(y, n);
      forall k | 0 <= k < 3 * n ensures x[k] == y[k] {
        ChainIsUnique(g.Super(), g.blocksCount, from, lens, x, y, k);
      }
      assert x == y;
    }
    if FlexStuck(g, flexFirst) {
      var y: seq<nat> :| FlexChain(g, flexFirst, y) && Stuck(g.Super(), g.blocksCount, from, lens, y);
      StuckMeansNone(g.Super(), g.blocksCount, from, lens, y, x);
      assert false;
    }
  }

  /** Places the bitmaps and inode tables of one flex group, each the first fit after the one before. */
  method PlaceFlex(g: Geometry, flexFirst: nat) returns (r: Option<seq<Place>>)
    requires g.Valid() && flexFirst <= g.groupCount
    ensures match r
            case Some(places) => FlexPlaced(g, flexFirst, places)
            case None => FlexStuck(g, flexFirst)
  {
    var members := g.FlexMembers(flexFirst);
    var cursor := g.FirstBlock(flexFirst);
    ghost var lens, from := FlexLens(g, members), cursor;
    var placed: seq<nat> := [];
    for k := 0 to 3 * members
      invariant |placed| == k && FlexChain(g, flexFirst, placed)
      invariant cursor == CursorAt(from, lens, placed, k)
    {
      var next;
      if k < 2 * members {
        next := TakeOne(g, cursor);
      } else {
        next := TakeTable(g, cursor);
      }
      match next
      case None =>
        assert Stuck(g.Super(), g.blocksCount, from, lens, placed);
        return None;
      case Some(s) =>
        ChainOn(g.Super(), g.blocksCount, from, lens, placed, s);
        placed := placed + [s];
        cursor := if k < 2 * members then s + 1 else s + g.itableBlocks;
    }
    return Some(Places(placed, members));
  }

  /** The metadata of a flex group: in range, off every superblock region, and no two pieces overlapping. */
  lemma FlexPiecesApart(g: Geometry, flexFirst: nat, starts: seq<nat>, i: nat, j: nat, b: nat)
    requires g.Valid() && flexFirst <= g.groupCount && i < |starts| && j < |starts|
    requires FlexChain(g, flexFirst, starts)
    requires var lens := FlexLens(g, g.FlexMembers(flexFirst)); starts[i] <= b < starts[i] + lens[i]
    ensures g.FirstBlock(flexFirst) <= b < g.blocksCount && !g.InSuperRegion(b)
    ensures var lens := FlexLens(g, g.FlexMembers(flexFirst)); i != j ==> !(starts[j] <= b < starts[j] + lens[j])
  {
    var lens, from := FlexLens(g, g.FlexMembers(flexFirst)), g.FirstBlock(flexFirst);
    ChainInOrder(g.Super(), g.blocksCount, from, lens, starts, i, i);
    assert Link(g.Super(), g.blocksCount, from, lens, starts, i);
    assert !g.Super()(b);
    if i < j {
      ChainInOrder(g.Super(), g.blocksCount, from, lens, starts, i, j);
    } else if j < i {
      ChainInOrder(g.Super(), g.blocksCount, from, lens, starts, j, i);
    }
  }
}
