// What placing keeps clear of, group by group, and where it puts things: said
// from the on-disk layout alone, without the functions that compute it.
module Fronts {
  import opened Options
  import opened Arith
  import opened FirstFit
  import opened Layout

  ghost predicate IsPower(h: nat, base: nat)
  {
    exists k: nat :: h == Power(base, k)
  }

  /** Groups with a superblock copy. */
  ghost predicate KeepsSuper(g: Geometry, h: nat)
  {
    !g.sparseSuper || h <= 1 || IsPower(h, 3) || IsPower(h, 5) || IsPower(h, 7)
  }

  lemma {:induction false} PowerOfOddIsOdd(base: nat, k: nat)
    requires base % 2 == 1
    ensures Power(base, k) % 2 == 1
  {
    if k > 0 {
      PowerOfOddIsOdd(base, k - 1);
      OddProduct(base, Power(base, k - 1));
    }
  }

  lemma OddProduct(a: nat, b: nat)
    requires a % 2 == 1 && b % 2 == 1
    ensures a * b % 2 == 1
  {
    MulSplit(2 * (a / 2), 1, b);
    DivModUnique(a * b, 2, a / 2 * b + b / 2, 1);
  }

  lemma SuperIsKept(g: Geometry, h: nat)
    ensures g.HasSuper(h) <==> KeepsSuper(g, h)
  {
    if 1 < h {
      OddPowers(h, 3);
      OddPowers(h, 5);
      OddPowers(h, 7);
    }
  }

  lemma OddPowers(h: nat, base: nat)
    requires 1 < base && base % 2 == 1
    ensures (IsPowerOf(h, base) <==> IsPower(h, base)) && (IsPower(h, base) ==> h % 2 == 1)
  {
    PowersAreFound(h, base);
    if k: nat :| h == Power(base, k) {
      PowerOfOddIsOdd(base, k);
    }
  }

  /** The group's descriptors are its meta group's own block, not the whole table. */
  predicate InMeta(g: Geometry, h: nat)
  {
    g.metaBg && g.firstMetaBg * g.descPerBlock <= h
  }

  /** The first, second or last group of a meta group, of as many groups as a block has descriptors. */
  ghost predicate KeepsDescriptors(g: Geometry, h: nat)
  {
    exists m: nat :: CopyIn(g, h, m)
  }

  predicate CopyIn(g: Geometry, h: nat, m: nat)
  {
    var first := m * g.descPerBlock;
    first <= h < first + g.descPerBlock && (h == first || h == first + 1 || h == first + g.descPerBlock - 1)
  }

  function GroupStart(g: Geometry, h: nat): nat
  {
    g.firstDataBlock + h * g.blocksPerGroup
  }

  /** Block `b` is in group `h`'s superblock copy, its descriptors, or the blocks kept for more of them. */
  ghost predicate InFront(g: Geometry, h: nat, b: nat)
  {
    if !InMeta(g, h) then
      KeepsSuper(g, h) && GroupStart(g, h) <= b < GroupStart(g, h) + 1 + g.descBlocks + g.reservedGdt
    else
      || (KeepsSuper(g, h) && b == GroupStart(g, h))
      || (KeepsDescriptors(g, h) && b == GroupStart(g, h) + if KeepsSuper(g, h) then 1 else 0)
  }

  lemma MetaGroup(g: Geometry, h: nat)
    requires 0 < g.descPerBlock
    ensures h / g.descPerBlock < g.firstMetaBg <==> h < g.firstMetaBg * g.descPerBlock
    ensures KeepsDescriptors(g, h) <==>
            var within := h % g.descPerBlock; within == 0 || within == 1 || within == g.descPerBlock - 1
  {
    var d, q := g.descPerBlock, h / g.descPerBlock;
    DivBounds(h, d);
    if q < g.firstMetaBg {
      MulMonotone(q, g.firstMetaBg, d);
    } else {
      MulMonotone(g.firstMetaBg, q, d);
    }
    DivModUnique(h, d, q, h - q * d);
    if m: nat :| CopyIn(g, h, m) {
      DivModUnique(h, d, m, h - m * d);
    }
    var within := h % d;
    if within == 0 || within == 1 || within == d - 1 {
      assert CopyIn(g, h, q);
    }
  }

  /** Every group's front is what the layout gives it, and a group with no copies has none. */
  lemma FrontsAreOverhead(g: Geometry, h: nat, b: nat)
    requires g.Valid()
    ensures InFront(g, h, b) <==> g.FirstBlock(h) <= b < g.FirstBlock(h) + g.SuperOverhead(h)
  {
    StartIsProduct(g.blocksPerGroup, h);
    SuperIsKept(g, h);
    MetaGroup(g, h);
  }

  /** No group's front reaches into the next group. */
  ghost predicate FrontsFit(g: Geometry)
  {
    forall h: nat, b: nat :: h < g.groupCount && InFront(g, h, b) ==> b < GroupStart(g, h) + g.blocksPerGroup
  }

  ghost predicate Kept(g: Geometry, b: nat)
  {
    b < g.firstDataBlock || g.blocksCount <= b || exists h: nat :: h < g.groupCount && InFront(g, h, b)
  }

  lemma RegionIsKept(g: Geometry, b: nat)
    requires g.Valid() && FrontsFit(g)
    ensures g.InSuperRegion(b) <==> Kept(g, b)
  {
    forall h: nat | h < g.groupCount ensures g.SuperOverhead(h) <= g.blocksPerGroup {
      StartIsProduct(g.blocksPerGroup, h);
      if g.SuperOverhead(h) > g.blocksPerGroup {
        FrontsAreOverhead(g, h, g.FirstBlock(h) + g.SuperOverhead(h) - 1);
      }
    }
    SuperRegionIsFronts(g, b);
    forall h: nat ensures InFront(g, h, b) <==> g.FirstBlock(h) <= b < g.FirstBlock(h) + g.SuperOverhead(h) {
      FrontsAreOverhead(g, h, b);
    }
  }

  // ---- Where a flex group's metadata goes ----

  ghost function Clear(g: Geometry): nat -> bool
  {
    (b: nat) => Kept(g, b)
  }

  /** The first place for `len` blocks at or after `from` that is clear of everything kept. */
  ghost predicate Next(g: Geometry, from: nat, len: nat, s: nat)
  {
    IsFirst(Clear(g), g.blocksCount, from, len, s)
  }

  /** A flex group packed: block bitmaps, inode bitmaps and inode tables of its groups, each the first fit after the last. */
  ghost predicate Packed(g: Geometry, f: nat, places: seq<Place>)
    requires f <= g.groupCount
  {
    && |places| == (if g.flexSize < g.groupCount - f then g.flexSize else g.groupCount - f)
    && forall i :: 0 <= i < |places| ==> PackedAt(g, f, places, i)
  }

  ghost predicate PackedAt(g: Geometry, f: nat, places: seq<Place>, i: nat)
    requires i < |places|
  {
    var last := places[|places| - 1];
    && Next(g, if i == 0 then GroupStart(g, f) else places[i - 1].blockBitmap + 1, 1, places[i].blockBitmap)
    && Next(g, if i == 0 then last.blockBitmap + 1 else places[i - 1].inodeBitmap + 1, 1, places[i].inodeBitmap)
    && Next(g, if i == 0 then last.inodeBitmap + 1 else places[i - 1].inodeTable + g.itableBlocks, g.itableBlocks, places[i].inodeTable)
  }

  lemma SameFirst(g: Geometry, from: nat, len: nat, s: nat)
    requires g.Valid() && FrontsFit(g)
    ensures IsFirst(g.Super(), g.blocksCount, from, len, s) <==> Next(g, from, len, s)
  {
    forall x: nat ensures g.Super()(x) <==> Clear(g)(x) {
      RegionIsKept(g, x);
    }
    forall x: nat ensures Fits(g.Super(), g.blocksCount, x, len) <==> Fits(Clear(g), g.blocksCount, x, len) {
    }
  }

  /** Placement packs: it finds exactly the one packing there is. */
  lemma PlacedIsPacked(g: Geometry, f: nat, places: seq<Place>)
    requires g.Valid() && FrontsFit(g) && f <= g.groupCount
    ensures FlexPlaced(g, f, places) <==> Packed(g, f, places)
  {
    if FlexPlaced(g, f, places) {
      var n := g.FlexMembers(f);
      var starts: seq<nat> :| FlexChain(g, f, starts) && |starts| == 3 * n && places == Places(starts, n);
      forall i | 0 <= i < n ensures PackedAt(g, f, places, i) {
        PlacedAtIsPacked(g, f, starts, n, places, i);
      }
    }
    if Packed(g, f, places) {
      PackedIsPlaced(g, f, places);
    }
  }

  lemma PlacedAtIsPacked(g: Geometry, f: nat, starts: seq<nat>, n: nat, places: seq<Place>, i: nat)
    requires g.Valid() && FrontsFit(g) && f <= g.groupCount && n == g.FlexMembers(f) && i < n
    requires FlexChain(g, f, starts) && |starts| == 3 * n && places == Places(starts, n)
    ensures PackedAt(g, f, places, i)
  {
    StartIsProduct(g.blocksPerGroup, f);
    LinkIsNext(g, f, starts, n, i);
    LinkIsNext(g, f, starts, n, n + i);
    LinkIsNext(g, f, starts, n, 2 * n + i);
  }

  lemma LinkIsNext(g: Geometry, f: nat, starts: seq<nat>, n: nat, k: nat)
    requires g.Valid() && FrontsFit(g) && f <= g.groupCount && n == g.FlexMembers(f) && k < 3 * n == |starts|
    requires FlexChain(g, f, starts)
    ensures Next(g, if k == 0 then g.FirstBlock(f) else starts[k - 1] + (if k - 1 < 2 * n then 1 else g.itableBlocks),
                 if k < 2 * n then 1 else g.itableBlocks, starts[k])
  {
    var lens := FlexLens(g, n);
    assert Link(g.Super(), g.blocksCount, g.FirstBlock(f), lens, starts, k);
    assert lens[k] == LenAt(g, n, k) && (k > 0 ==> lens[k - 1] == LenAt(g, n, k - 1));
    SameFirst(g, CursorAt(g.FirstBlock(f), lens, starts, k), lens[k], starts[k]);
  }

  function StartAt(places: seq<Place>, k: nat): nat
    requires k < 3 * |places|
  {
    var n := |places|;
    if k < n then places[k].blockBitmap else if k < 2 * n then places[k - n].inodeBitmap else places[k - 2 * n].inodeTable
  }

  lemma PackedIsPlaced(g: Geometry, f: nat, places: seq<Place>)
    requires g.Valid() && FrontsFit(g) && f <= g.groupCount && Packed(g, f, places)
    ensures FlexPlaced(g, f, places)
  {
    var n := g.FlexMembers(f);
    var starts := seq(3 * n, k requires 0 <= k < 3 * |places| => StartAt(places, k));
    forall k | 0 <= k < 3 * n ensures Link(g.Super(), g.blocksCount, g.FirstBlock(f), FlexLens(g, n), starts, k) {
      PackedLink(g, f, places, starts, n, k);
    }
    assert FlexChain(g, f, starts);
    assert Places(starts, n) == places;
  }

  lemma PackedLink(g: Geometry, f: nat, places: seq<Place>, starts: seq<nat>, n: nat, k: nat)
    requires g.Valid() && FrontsFit(g) && f <= g.groupCount && Packed(g, f, places) && n == |places| == g.FlexMembers(f)
    requires k < 3 * n == |starts| && forall i :: 0 <= i < 3 * n ==> starts[i] == StartAt(places, i)
    ensures Link(g.Super(), g.blocksCount, g.FirstBlock(f), FlexLens(g, n), starts, k)
  {
    var lens := FlexLens(g, n);
    StartIsProduct(g.blocksPerGroup, f);
    assert lens[k] == LenAt(g, n, k) && (k > 0 ==> lens[k - 1] == LenAt(g, n, k - 1));
    assert PackedAt(g, f, places, if k < n then k else if k < 2 * n then k - n else k - 2 * n);
    SameFirst(g, CursorAt(g.FirstBlock(f), lens, starts, k), lens[k], starts[k]);
  }

  /** Where placement is stuck nothing packs. */
  lemma StuckMeansUnpacked(g: Geometry, f: nat, places: seq<Place>)
    requires g.Valid() && FrontsFit(g) && f <= g.groupCount && FlexStuck(g, f)
    ensures !Packed(g, f, places)
  {
    if Packed(g, f, places) {
      PackedIsPlaced(g, f, places);
      FlexPlacementIsUnique(g, f, places, places);
    }
  }

  /** A flex group's packing, or none if there is none. */
  method PackFlex(g: Geometry, f: nat) returns (r: Option<seq<Place>>)
    requires g.Valid() && FrontsFit(g) && f <= g.groupCount
    ensures match r
            case Some(places) => Packed(g, f, places)
            case None => forall places: seq<Place> :: !Packed(g, f, places)
  {
    r := PlaceFlex(g, f);
    match r
    case Some(places) =>
      PlacedIsPacked(g, f, places);
    case None =>
      forall places: seq<Place> ensures !Packed(g, f, places) {
        StuckMeansUnpacked(g, f, places);
      }
  }

  /** Block `b` is one of those a group's metadata is placed in. */
  predicate PlacedIn(g: Geometry, place: Place, b: nat)
  {
    b == place.blockBitmap || b == place.inodeBitmap || place.inodeTable <= b < place.inodeTable + g.itableBlocks
  }

  /** No metadata is placed in any group's superblock copy, descriptors or the blocks kept for more of them. */
  lemma PackedKeepsClear(g: Geometry, f: nat, places: seq<Place>, i: nat, h: nat, b: nat)
    requires f <= g.groupCount && Packed(g, f, places) && i < |places| && PlacedIn(g, places[i], b) && h < g.groupCount
    ensures g.firstDataBlock <= b < g.blocksCount && !InFront(g, h, b)
  {
    assert PackedAt(g, f, places, i);
    assert !Clear(g)(b);
  }
}
