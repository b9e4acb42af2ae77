// A filesystem planned as the formatter plans it: metadata placed flex group
// by flex group, files allocated from what is left.
module Planning {
  import opened Arith
  import opened Layout
  import opened Accounting
  import BlockRuns
  import Allocator
  import Sizing = Geometry

  /** Sound sizes make a plan, where a superblock, the descriptors and their reserve fit in a group; and where a group has no more
    * blocks than a bitmap block has bits, every group of it can be built. */
  lemma SoundPlans(q: Sizing.Request, s: Sizing.Sizes, flexSize: nat, sparseSuper: bool, metaBg: bool, firstMetaBg: nat,
                   places: seq<Place>, runs: seq<Range>)
    requires q.Valid() && Sizing.Sound(q, s) && 0 < flexSize && |places| == s.groupCount
    requires Sizing.CeilDiv(s.blocksCount - q.firstDataBlock, s.blocksPerGroup) <= Sizing.U32_MAX
    requires 2 <= s.blocksPerGroup && 1 + s.descBlocks + s.reservedGdt <= s.blocksPerGroup
    ensures var p := Plan(Sizing.LayoutOf(q, s, flexSize, sparseSuper, metaBg, firstMetaBg), places, runs, q.blockSize);
            && p.Valid()
            && (s.blocksPerGroup <= 8 * q.blockSize ==> forall h :: 0 <= h < s.groupCount ==> GroupFits(p, h))
  {
    var p := Plan(Sizing.LayoutOf(q, s, flexSize, sparseSuper, metaBg, firstMetaBg), places, runs, q.blockSize);
    Sizing.SoundLaysOut(q, s, flexSize, sparseSuper, metaBg, firstMetaBg);
    forall h | 0 <= h < s.groupCount ensures s.blocksPerGroup <= 8 * q.blockSize ==> GroupFits(p, h) {
      SmallGroupsFit(p, h);
    }
  }

  /** At most one of the claims covers block `b`. */
  ghost predicate AtMostOne(claims: seq<Range>, b: nat)
  {
    forall i, j :: 0 <= i < j < |claims| ==> !(In(claims[i], b) && In(claims[j], b))
  }

  lemma {:induction false} OnceAtMost(claims: seq<Range>, b: nat)
    requires AtMostOne(claims, b)
    ensures BlockRuns.Times(claims, b) <= 1
    decreases |claims|
  {
    if claims != [] {
      var front, n := claims[..|claims| - 1], |claims| - 1;
      forall i, j | 0 <= i < j < |front| ensures !(In(front[i], b) && In(front[j], b)) {
        assert !(In(claims[i], b) && In(claims[j], b));
      }
      OnceAtMost(front, b);
      ClaimedOnce(front, b);
      forall i | 0 <= i < n ensures !(In(front[i], b) && In(claims[n], b)) {
        assert !(In(claims[i], b) && In(claims[n], b));
      }
    }
  }

  lemma AtMostOneOfBoth(a: seq<Range>, c: seq<Range>, b: nat)
    requires AtMostOne(a, b) && AtMostOne(c, b) && !(InAny(a, b) && InAny(c, b))
    ensures AtMostOne(a + c, b)
  {
    var all := a + c;
    forall i, j | 0 <= i < j < |all| ensures !(In(all[i], b) && In(all[j], b)) {
      if j < |a| {
        assert !(In(a[i], b) && In(a[j], b));
      } else if |a| <= i {
        assert !(In(c[i - |a|], b) && In(c[j - |a|], b));
      } else {
        assert In(a[i], b) ==> InAny(a, b);
        assert In(c[j - |a|], b) ==> InAny(c, b);
      }
    }
  }

  // ---- Where the metadata is ----

  /** Each flex group's metadata is where placement puts it. */
  ghost predicate WellPlaced(p: Plan)
    requires p.Valid()
  {
    forall f: nat :: f < p.g.groupCount && p.g.FlexFirst(f) == f ==>
      FlexPlaced(p.g, f, p.places[f..f + p.g.FlexMembers(f)])
  }

  lemma FlexOf(g: Geometry, h: nat)
    requires g.Valid() && h < g.groupCount
    ensures var f := g.FlexFirst(h); f <= h < f + g.FlexMembers(f) && f < g.groupCount && g.FlexFirst(f) == f
  {
    var f := g.FlexFirst(h);
    FlexSpan(g.flexSize, h);
    SameQuotient(g.flexSize, h / g.flexSize, f);
  }

  /** Which piece of its flex group's chain a block of a group's metadata is in. */
  ghost function PieceOf(p: Plan, h: nat, b: nat): nat
    requires p.Valid() && h < p.g.groupCount && p.g.FlexFirst(h) <= h
  {
    var f := p.g.FlexFirst(h);
    var m := p.g.FlexMembers(f);
    if b == p.places[h].blockBitmap then h - f else if b == p.places[h].inodeBitmap then m + h - f else 2 * m + h - f
  }

  lemma PieceHolds(p: Plan, starts: seq<nat>, h: nat, b: nat)
    requires p.Valid() && h < p.g.groupCount && p.g.FlexFirst(h) <= h && p.InPlace(h, b)
    requires var f := p.g.FlexFirst(h); var m := p.g.FlexMembers(f);
             h < f + m && f + m <= |p.places| && |starts| == 3 * m && p.places[f..f + m] == Places(starts, m)
    ensures var lens, k := FlexLens(p.g, p.g.FlexMembers(p.g.FlexFirst(h))), PieceOf(p, h, b);
            k < |starts| && starts[k] <= b < starts[k] + lens[k]
  {
    var f := p.g.FlexFirst(h);
    var m := p.g.FlexMembers(f);
    assert p.places[h] == p.places[f..f + m][h - f] == Places(starts, m)[h - f];
  }

  /** The chain a flex group was placed by. */
  lemma ChainOf(p: Plan, f: nat) returns (starts: seq<nat>)
    requires p.Valid() && WellPlaced(p) && f < p.g.groupCount && p.g.FlexFirst(f) == f
    ensures FlexChain(p.g, f, starts) && |starts| == 3 * p.g.FlexMembers(f) && p.places[f..f + p.g.FlexMembers(f)] == Places(starts, p.g.FlexMembers(f))
  {
    starts :| FlexChain(p.g, f, starts) && |starts| == 3 * p.g.FlexMembers(f) && p.places[f..f + p.g.FlexMembers(f)] == Places(starts, p.g.FlexMembers(f));
  }

  /** Metadata is off every superblock region. */
  lemma PlaceIsOffSuper(p: Plan, h: nat, b: nat)
    requires p.Valid() && WellPlaced(p) && h < p.g.groupCount && p.InPlace(h, b)
    ensures b < p.g.blocksCount && !p.g.InSuperRegion(b)
  {
    FlexOf(p.g, h);
    var f := p.g.FlexFirst(h);
    var starts := ChainOf(p, f);
    PieceHolds(p, starts, h, b);
    FlexPiecesApart(p.g, f, starts, PieceOf(p, h, b), PieceOf(p, h, b), b);
  }

  /** Two groups' metadata do not meet. */
  lemma PlacesApart(p: Plan, x: nat, y: nat, b: nat)
    requires p.Valid() && WellPlaced(p) && p.FlexFits() && x < p.g.groupCount && y < p.g.groupCount && x != y
    ensures !(p.InPlace(x, b) && p.InPlace(y, b))
  {
    if p.InPlace(x, b) && p.InPlace(y, b) {
      FlexOf(p.g, x);
      FlexOf(p.g, y);
      SameFlex(p, x, y, b);
      var f := p.g.FlexFirst(x);
      var starts := ChainOf(p, f);
      PieceHolds(p, starts, x, b);
      PieceHolds(p, starts, y, b);
      FlexPiecesApart(p.g, f, starts, PieceOf(p, x, b), PieceOf(p, y, b), b);
    }
  }

  lemma SameFlex(p: Plan, x: nat, y: nat, b: nat)
    requires p.Valid() && p.FlexFits() && x < p.g.groupCount && y < p.g.groupCount && p.InPlace(x, b) && p.InPlace(y, b)
    ensures p.g.FlexFirst(x) == p.g.FlexFirst(y)
  {
    OneSpan(p.g, x / p.g.flexSize, y / p.g.flexSize, p.g.FlexFirst(x), p.g.FlexFirst(y), b);
  }

  /** A block lies in the span of one flex group. */
  lemma OneSpan(g: Geometry, m: nat, n: nat, f: nat, e: nat, b: nat)
    requires 0 < g.flexSize && f == m * g.flexSize && e == n * g.flexSize
    requires g.FirstBlock(f) <= b < g.FirstBlock(f + g.flexSize) && g.FirstBlock(e) <= b < g.FirstBlock(e + g.flexSize)
    ensures f == e
  {
    if f + g.flexSize <= e {
      StartMonotone(g.blocksPerGroup, f + g.flexSize, e);
    } else if e + g.flexSize <= f {
      StartMonotone(g.blocksPerGroup, e + g.flexSize, f);
    } else {
      SameMultiple(g.flexSize, m, n);
    }
  }

  lemma SameMultiple(m: nat, a: nat, c: nat)
    requires 0 < m && a * m < c * m + m && c * m < a * m + m
    ensures a == c
  {
    if a < c {
      MulMonotone(a, c, m);
    } else if c < a {
      MulMonotone(c, a, m);
    }
  }

  /** A group's block bitmap, inode bitmap and inode table come in that order. */
  lemma PiecesInOrder(p: Plan, h: nat)
    requires p.Valid() && WellPlaced(p) && h < p.g.groupCount
    ensures p.places[h].blockBitmap < p.places[h].inodeBitmap < p.places[h].inodeTable
  {
    FlexOf(p.g, h);
    var f := p.g.FlexFirst(h);
    var m := p.g.FlexMembers(f);
    var starts := ChainOf(p, f);
    PieceHolds(p, starts, h, p.places[h].blockBitmap);
    ThreeInOrder(p.g, f, starts, h - f);
    assert p.places[h] == p.places[f..f + m][h - f] == Places(starts, m)[h - f];
  }

  lemma ThreeInOrder(g: Geometry, f: nat, starts: seq<nat>, i: nat)
    requires g.Valid() && f <= g.groupCount && FlexChain(g, f, starts) && |starts| == 3 * g.FlexMembers(f) && i < g.FlexMembers(f)
    ensures starts[i] < starts[g.FlexMembers(f) + i] < starts[2 * g.FlexMembers(f) + i]
  {
    var m := g.FlexMembers(f);
    var lens := FlexLens(g, m);
    ChainInOrder(g.Super(), g.blocksCount, g.FirstBlock(f), lens, starts, i, m + i);
    ChainInOrder(g.Super(), g.blocksCount, g.FirstBlock(f), lens, starts, m + i, 2 * m + i);
    assert lens[i] == 1 && lens[m + i] == 1;
  }

  // ---- No claim meets another ----

  predicate GroupHas(p: Plan, h: nat, b: nat)
    requires h < |p.places| && 0 < p.g.descPerBlock
  {
    p.InOverhead(h, b) || p.InPlace(h, b)
  }

  /** A front is in its superblock region. */
  lemma FrontIsSuper(p: Plan, h: nat, b: nat)
    requires p.Valid() && h < p.g.groupCount && p.InOverhead(h, b)
    ensures p.g.InSuperRegion(b)
  {
    SuperRegionIsFronts(p.g, b);
  }

  lemma GroupsApart(p: Plan, x: nat, y: nat, b: nat)
    requires p.Valid() && WellPlaced(p) && p.FlexFits() && x < p.g.groupCount && y < p.g.groupCount && x != y && b < p.g.blocksCount
    ensures !(GroupHas(p, x, b) && GroupHas(p, y, b))
  {
    PlacesApart(p, x, y, b);
    FrontsApart(p, x, y, b);
    FrontNotPlace(p, x, y, b);
    FrontNotPlace(p, y, x, b);
  }

  lemma FrontsApart(p: Plan, x: nat, y: nat, b: nat)
    requires p.Valid() && x < p.g.groupCount && y < p.g.groupCount && x != y
    ensures !(p.InOverhead(x, b) && p.InOverhead(y, b))
  {
    StartMonotone(p.g.blocksPerGroup, if x < y then x else y, if x < y then y else x);
  }

  lemma FrontNotPlace(p: Plan, x: nat, y: nat, b: nat)
    requires p.Valid() && WellPlaced(p) && x < p.g.groupCount && y < p.g.groupCount
    ensures !(p.InOverhead(x, b) && p.InPlace(y, b))
  {
    if p.InPlace(y, b) {
      PlaceIsOffSuper(p, y, b);
      if p.InOverhead(x, b) {
        FrontIsSuper(p, x, b);
        assert false;
      }
    }
  }

  lemma GroupOnce(p: Plan, h: nat, b: nat)
    requires p.Valid() && WellPlaced(p) && h < p.g.groupCount
    ensures AtMostOne(GroupClaims(p, h), b)
  {
    var c := GroupClaims(p, h);
    PiecesInOrder(p, h);
    FrontNotPlace(p, h, h, b);
    assert In(c[0], b) <==> p.InOverhead(h, b);
    assert In(c[1], b) || In(c[2], b) || In(c[3], b) ==> p.InPlace(h, b);
    assert c[1].start < c[2].start < c[3].start && c[1].end <= c[2].start && c[2].end <= c[3].start;
  }

  lemma SomeGroup(p: Plan, h: nat, b: nat) returns (x: nat)
    requires h <= |p.places| && 0 < p.g.descPerBlock && InAny(ClaimsUpTo(p, h), b)
    ensures x < h && GroupHas(p, x, b)
  {
    OfGroups(p, h, b);
    x :| x < h && (p.InOverhead(x, b) || p.InPlace(x, b));
  }

  lemma NewGroupApart(p: Plan, h: nat, b: nat)
    requires p.Valid() && WellPlaced(p) && p.FlexFits() && h < p.g.groupCount && b < p.g.blocksCount
    ensures !(InAny(ClaimsUpTo(p, h), b) && InAny(GroupClaims(p, h), b))
  {
    if InAny(ClaimsUpTo(p, h), b) {
      var x := SomeGroup(p, h, b);
      OfGroup(p, h, b);
      GroupsApart(p, x, h, b);
    }
  }

  lemma {:induction false} GroupsOnce(p: Plan, h: nat, b: nat)
    requires p.Valid() && WellPlaced(p) && p.FlexFits() && h <= p.g.groupCount && b < p.g.blocksCount
    ensures AtMostOne(ClaimsUpTo(p, h), b)
  {
    if h > 0 {
      GroupsOnce(p, h - 1, b);
      GroupOnce(p, h - 1, b);
      NewGroupApart(p, h - 1, b);
      AtMostOneOfBoth(ClaimsUpTo(p, h - 1), GroupClaims(p, h - 1), b);
    }
  }

  // ---- Files ----

  /** What the allocator is told is metadata: superblock regions, and whatever the block's own flex group has placed. */
  ghost predicate IsMetadata(p: Plan, b: nat)
    requires p.Valid()
  {
    || p.g.InSuperRegion(b)
    || exists h: nat :: h < p.g.groupCount && p.g.FlexFirst(h) == p.g.FlexFirst(p.g.GroupOf(b)) && p.InPlace(h, b)
  }

  /** The plan's runs are what an allocator kept off that metadata has handed out. */
  ghost predicate WellAllocated(p: Plan, metadata: nat -> bool, runs: seq<Allocator.Run>)
    requires p.Valid()
  {
    && (forall b: nat :: p.g.firstDataBlock <= b < p.g.blocksCount && IsMetadata(p, b) ==> metadata(b))
    && Allocator.Disjoint(runs) && Allocator.Placed(runs, metadata, p.g.firstDataBlock, p.g.blocksCount)
    && |p.runs| == |runs| && forall i :: 0 <= i < |runs| ==> p.runs[i] == BlockRuns.Run(runs[i].start, runs[i].start + runs[i].len)
  }

  lemma RunsOnce(p: Plan, metadata: nat -> bool, runs: seq<Allocator.Run>, b: nat)
    requires p.Valid() && WellAllocated(p, metadata, runs)
    ensures AtMostOne(p.runs, b)
  {
    forall i, j | 0 <= i < j < |p.runs| ensures !(In(p.runs[i], b) && In(p.runs[j], b)) {
      assert Allocator.Apart(runs[i], runs[j]);
    }
  }

  /** A file's block is in range and no one's metadata. */
  lemma RunIsFree(p: Plan, metadata: nat -> bool, runs: seq<Allocator.Run>, b: nat)
    requires p.Valid() && p.FlexFits() && WellAllocated(p, metadata, runs) && InAny(p.runs, b)
    ensures p.g.firstDataBlock <= b && forall h: nat :: h < p.g.groupCount ==> !GroupHas(p, h, b)
  {
    var i :| 0 <= i < |p.runs| && In(p.runs[i], b);
    assert Allocator.OffMetadata(runs[i], metadata, p.g.firstDataBlock, p.g.blocksCount);
    assert !metadata(b) && !IsMetadata(p, b);
    forall h: nat | h < p.g.groupCount ensures !GroupHas(p, h, b) {
      if p.InOverhead(h, b) {
        FrontIsSuper(p, h, b);
      }
      if p.InPlace(h, b) {
        OwnFlex(p, h, b);
      }
    }
  }

  lemma OwnFlex(p: Plan, h: nat, b: nat)
    requires p.Valid() && p.FlexFits() && h < p.g.groupCount && p.InPlace(h, b) && p.g.firstDataBlock <= b
    ensures p.g.FlexFirst(h) == p.g.FlexFirst(p.g.GroupOf(b))
  {
    OneFlex(p.g, h, p.g.GroupOf(b), b);
  }

  /** Nothing is claimed twice: fronts, bitmaps, inode tables and files keep out of each other's blocks. */
  lemma NothingClaimedTwice(p: Plan, metadata: nat -> bool, runs: seq<Allocator.Run>, b: nat)
    requires p.Valid() && WellPlaced(p) && p.FlexFits() && WellAllocated(p, metadata, runs) && b < p.g.blocksCount
    ensures BlockRuns.Times(Claims(p), b) <= 1
  {
    var groups, low := ClaimsUpTo(p, p.g.groupCount), [BlockRuns.Run(0, p.g.firstDataBlock)];
    GroupsOnce(p, p.g.groupCount, b);
    RunsOnce(p, metadata, runs, b);
    OfOne(low[0], b);
    if b < p.g.firstDataBlock {
      GroupsAbove(p, b);
    }
    AtMostOneOfBoth(groups, low, b);
    AnyOfBoth(groups, low, b);
    if InAny(p.runs, b) {
      RunsApart(p, metadata, runs, b);
    }
    AtMostOneOfBoth(groups + low, p.runs, b);
    OnceAtMost(Claims(p), b);
  }

  lemma RunsApart(p: Plan, metadata: nat -> bool, runs: seq<Allocator.Run>, b: nat)
    requires p.Valid() && p.FlexFits() && WellAllocated(p, metadata, runs) && InAny(p.runs, b)
    ensures !InAny(ClaimsUpTo(p, p.g.groupCount), b) && p.g.firstDataBlock <= b
  {
    RunIsFree(p, metadata, runs, b);
    if InAny(ClaimsUpTo(p, p.g.groupCount), b) {
      var x := SomeGroup(p, p.g.groupCount, b);
      assert false;
    }
  }

  /** No group has a block before the first. */
  lemma GroupsAbove(p: Plan, b: nat)
    requires p.Valid() && WellPlaced(p) && b < p.g.firstDataBlock
    ensures !InAny(ClaimsUpTo(p, p.g.groupCount), b)
  {
    if InAny(ClaimsUpTo(p, p.g.groupCount), b) {
      var x := SomeGroup(p, p.g.groupCount, b);
      if p.InPlace(x, b) {
        PlaceIsOffSuper(p, x, b);
      }
    }
  }

  /** A filesystem planned this way and checked has no block with two owners, and everything else is as formatted. */
  method CheckFormatted(p: Plan, ghost metadata: nat -> bool, ghost runs: seq<Allocator.Run>)
    returns (bitmaps: seq<seq<bv8>>, frees: seq<nat>, total: nat, duplicates: set<nat>)
    requires p.Valid() && WellPlaced(p) && p.FlexFits() && WellAllocated(p, metadata, runs)
    ensures duplicates == {}
    ensures |bitmaps| == |frees| == p.g.groupCount
    ensures forall h :: 0 <= h < p.g.groupCount ==> GroupState(p, h, bitmaps[h], frees[h])
    ensures total == Free(p.AllOwned(), p.g.firstDataBlock, p.g.blocksCount)
  {
    bitmaps, frees, total, duplicates := CheckPlanned(p);
    forall b: nat | b in duplicates ensures false {
      NothingClaimedTwice(p, metadata, runs, b);
    }
  }
}
