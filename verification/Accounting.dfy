// The block bitmaps and free counts the formatter writes, and the ones the
// checker rebuilds from the blocks it finds owners for.
module Accounting {
  import opened Arith
  import opened Layout
  import opened Bitmaps
  import BlockRuns

  /** A range of blocks to set aside: `start` up to `end`. */
  type Range = BlockRuns.Run

  predicate In(r: Range, b: nat)
  {
    r.start <= b < r.end
  }

  predicate InAny(rs: seq<Range>, b: nat)
  {
    exists i :: 0 <= i < |rs| && In(rs[i], b)
  }

  /** A planned filesystem: where each group's metadata is, and the runs set aside for files. */
  datatype Plan = Plan(g: Geometry, places: seq<Place>, runs: seq<Range>, blockSize: nat)
  {
    /** One place a group, descriptors within their group. */
    ghost predicate Valid()
    {
      && g.Valid() && |places| == g.groupCount
      && forall h: nat :: h < g.groupCount ==> g.SuperOverhead(h) <= g.blocksPerGroup
    }

    /** Every flex group keeps its metadata within its own groups. */
    ghost predicate FlexFits()
      requires g.Valid() && |places| == g.groupCount
    {
      forall h: nat, b: nat :: h < g.groupCount && InPlace(h, b) ==>
        g.FirstBlock(g.FlexFirst(h)) <= b < g.FirstBlock(g.FlexFirst(h) + g.flexSize)
    }

    predicate InOverhead(h: nat, b: nat)
      requires 0 < g.descPerBlock
    {
      g.FirstBlock(h) <= b < g.FirstBlock(h) + g.SuperOverhead(h)
    }

    predicate InPlace(h: nat, b: nat)
      requires h < |places|
    {
      b == places[h].blockBitmap || b == places[h].inodeBitmap ||
      places[h].inodeTable <= b < places[h].inodeTable + g.itableBlocks
    }

    /** What the checker finds an owner for. */
    ghost predicate Owned(b: nat)
      requires 0 < g.descPerBlock && |places| == g.groupCount
    {
      || b < g.firstDataBlock || InAny(runs, b)
      || exists h: nat :: h < g.groupCount && (InOverhead(h, b) || InPlace(h, b))
    }

    ghost function AllOwned(): iset<nat>
      requires 0 < g.descPerBlock && |places| == g.groupCount
    {
      iset b: nat | Owned(b)
    }

    /** What the formatter marks for one group. */
    ghost predicate MarkedFor(group: nat, b: nat)
      requires 0 < g.descPerBlock && 0 < g.flexSize && |places| == g.groupCount
    {
      || InOverhead(group, b) || InAny(runs, b)
      || exists h: nat :: h < g.groupCount && g.FlexFirst(h) == g.FlexFirst(group) && InPlace(h, b)
    }
  }

  // ---- The two agree block by block ----

  lemma FlexSpan(flex: nat, h: nat)
    requires 0 < flex
    ensures h / flex * flex <= h < h / flex * flex + flex
  {
    DivBounds(h, flex);
  }

  /** Within a group, the blocks with an owner are the blocks marked. */
  lemma OwnedIsMarked(p: Plan, group: nat, b: nat)
    requires p.Valid() && p.FlexFits() && group < p.g.groupCount && p.g.FirstBlock(group) <= b < p.g.FirstBlock(group + 1)
    ensures p.Owned(b) <==> p.MarkedFor(group, b)
  {
    forall h: nat | h < p.g.groupCount ensures (p.InOverhead(h, b) ==> h == group) && (p.InPlace(h, b) ==> p.g.FlexFirst(h) == p.g.FlexFirst(group)) {
      if p.InOverhead(h, b) {
        OneGroup(p.g, h, group, b);
      }
      if p.InPlace(h, b) {
        OneFlex(p.g, h, group, b);
      }
    }
  }

  lemma OneGroup(g: Geometry, h: nat, group: nat, b: nat)
    requires g.Valid() && g.FirstBlock(h) <= b < g.FirstBlock(h) + g.SuperOverhead(h) && g.SuperOverhead(h) <= g.blocksPerGroup
    requires g.FirstBlock(group) <= b < g.FirstBlock(group + 1)
    ensures h == group
  {
    if h < group {
      StartMonotone(g.blocksPerGroup, h, group);
    } else if group < h {
      StartMonotone(g.blocksPerGroup, group + 1, h);
    }
  }

  lemma OneFlex(g: Geometry, h: nat, group: nat, b: nat)
    requires g.Valid() && g.FirstBlock(g.FlexFirst(h)) <= b < g.FirstBlock(g.FlexFirst(h) + g.flexSize)
    requires g.FirstBlock(group) <= b < g.FirstBlock(group + 1)
    ensures g.FlexFirst(h) == g.FlexFirst(group)
  {
    var f, e := g.FlexFirst(h), g.FlexFirst(group);
    FlexSpan(g.flexSize, group);
    if group < f {
      StartMonotone(g.blocksPerGroup, group + 1, f);
    } else if f + g.flexSize <= group {
      StartMonotone(g.blocksPerGroup, f + g.flexSize, group);
    }
    SameQuotient(g.flexSize, h / g.flexSize, group);
  }

  lemma SameQuotient(m: nat, q: nat, x: nat)
    requires 0 < m
    ensures q * m <= x < q * m + m ==> x / m == q
  {
    if q * m <= x < q * m + m {
      DivModUnique(x, m, q, x - q * m);
    }
  }

  // ---- What a group's bitmap and count come to ----

  /** Blocks from `lo` up to `hi` that are not among those owned. */
  ghost function Free(owned: iset<nat>, lo: nat, hi: nat): nat
    decreases hi
  {
    if hi <= lo then 0 else Free(owned, lo, hi - 1) + if hi - 1 in owned then 0 else 1
  }

  lemma {:induction false} FreeSplits(owned: iset<nat>, lo: nat, mid: nat, hi: nat)
    requires lo <= mid <= hi
    ensures Free(owned, lo, hi) == Free(owned, lo, mid) + Free(owned, mid, hi)
    decreases hi
  {
    if mid < hi {
      FreeSplits(owned, lo, mid, hi - 1);
    }
  }

  /** A group's state as it should be on disk: a set bit for each owned block and past the group's end, and the blocks left. */
  ghost predicate GroupState(p: Plan, group: nat, bitmap: seq<bv8>, free: nat)
    requires p.Valid()
  {
    var first, end := p.g.FirstBlock(group), p.g.EndBlock(group);
    && |bitmap| == p.blockSize
    && (forall i: nat :: i < 8 * p.blockSize ==> BitRight(p.AllOwned(), first, end, bitmap, i))
    && free == Free(p.AllOwned(), first, end)
  }

  ghost predicate BitRight(owned: iset<nat>, first: nat, end: nat, bitmap: seq<bv8>, i: nat)
  {
    Test(bitmap, i) <==> end <= first + i || first + i in owned
  }

  /** A group has one state: a bitmap and count made in any way are the same bytes and the same number. */
  lemma GroupStateIsUnique(p: Plan, group: nat, a: seq<bv8>, m: nat, b: seq<bv8>, n: nat)
    requires p.Valid() && GroupState(p, group, a, m) && GroupState(p, group, b, n)
    ensures a == b && m == n
  {
    var first, end := p.g.FirstBlock(group), p.g.EndBlock(group);
    forall i: nat | i < 8 * |a| ensures Test(a, i) <==> Test(b, i) {
      assert BitRight(p.AllOwned(), first, end, a, i) && BitRight(p.AllOwned(), first, end, b, i);
    }
    SameBitmap(a, b);
  }

  /** The free counts of the first `n` groups, added up. */
  ghost function FreeInGroups(p: Plan, n: nat): nat
    requires p.Valid()
  {
    if n == 0 then 0 else FreeInGroups(p, n - 1) + Free(p.AllOwned(), p.g.FirstBlock(n - 1), p.g.EndBlock(n - 1))
  }

  /** The groups' free counts add up to the free blocks of the filesystem. */
  lemma {:induction false} FreeAddsUp(p: Plan, n: nat)
    requires p.Valid() && 0 < n <= p.g.groupCount
    ensures FreeInGroups(p, n) == Free(p.AllOwned(), p.g.firstDataBlock, p.g.EndBlock(n - 1))
    ensures p.g.firstDataBlock <= p.g.FirstBlock(n - 1) < p.g.EndBlock(n - 1)
  {
    StartMonotone(p.g.blocksPerGroup, n - 1, p.g.groupCount - 1);
    if n > 1 {
      FreeAddsUp(p, n - 1);
      assert p.g.EndBlock(n - 2) == p.g.FirstBlock(n - 1);
      FreeSplits(p.AllOwned(), p.g.firstDataBlock, p.g.FirstBlock(n - 1), p.g.EndBlock(n - 1));
    }
  }

  /** How many blocks of a range are held. */
  ghost function HeldIn(held: set<nat>, lo: nat, hi: nat): nat
  {
    |held * BlockRuns.Blocks(lo, hi)|
  }

  lemma OneMoreHeld(held: set<nat>, lo: nat, hi: nat)
    requires lo < hi
    ensures HeldIn(held, lo, hi) == HeldIn(held, lo, hi - 1) + if hi - 1 in held then 1 else 0
  {
    var before, now := held * BlockRuns.Blocks(lo, hi - 1), held * BlockRuns.Blocks(lo, hi);
    if hi - 1 in held {
      assert now == before + {hi - 1};
    } else {
      assert now == before;
    }
  }

  lemma NoneHeld(held: set<nat>, lo: nat)
    ensures HeldIn(held, lo, lo) == 0
  {
  }

  /** Free and owned blocks make up a range. */
  lemma {:induction false} FreeAndOwned(owned: iset<nat>, held: set<nat>, lo: nat, hi: nat)
    requires lo <= hi && forall b: nat :: lo <= b < hi ==> (b in held <==> b in owned)
    ensures Free(owned, lo, hi) + HeldIn(held, lo, hi) == hi - lo
    decreases hi
  {
    if lo < hi {
      FreeAndOwned(owned, held, lo, hi - 1);
      OneMoreHeld(held, lo, hi);
    } else {
      NoneHeld(held, lo);
    }
  }

  // ---- The formatter's side ----

  /** The bitmap of a window of blocks shows which of its blocks are in `m`. */
  ghost predicate Shows(s: seq<bv8>, first: nat, len: nat, m: iset<nat>)
  {
    forall i: nat :: i < 8 * |s| ==> BitShows(s, first, len, m, i)
  }

  ghost predicate BitShows(s: seq<bv8>, first: nat, len: nat, m: iset<nat>, i: nat)
  {
    Test(s, i) <==> i < len && first + i in m
  }

  ghost function Blocks(r: Range): iset<nat>
  {
    iset b: nat | In(r, b)
  }

  /** The first bit of a window that a range marks, and the one after the last. */
  function LowBit(r: Range, first: nat): nat
  {
    if r.start < first then 0 else r.start - first
  }

  function HighBit(r: Range, first: nat, len: nat): nat
  {
    if r.end < first then 0 else if r.end < first + len then r.end - first else len
  }

  lemma ShowsMore(s: seq<bv8>, t: seq<bv8>, first: nat, len: nat, m: iset<nat>, r: Range)
    requires Shows(s, first, len, m) && Marks(s, t, LowBit(r, first), HighBit(r, first, len))
    ensures Shows(t, first, len, m + Blocks(r))
  {
    var m' := m + Blocks(r);
    forall i: nat | i < 8 * |t| ensures BitShows(t, first, len, m', i) {
      assert BitShows(s, first, len, m, i) && Marked(s, t, LowBit(r, first), HighBit(r, first, len), i);
      assert first + i in Blocks(r) <==> In(r, first + i);
    }
  }

  /** A bitmap of `bytes` bytes has a bit for every block of the window that is in `m`. */
  ghost predicate Reaches(bytes: nat, first: nat, len: nat, m: iset<nat>)
  {
    forall i: nat :: 8 * bytes <= i < len ==> !Lies(m, first, i)
  }

  ghost predicate Lies(m: iset<nat>, first: nat, i: nat)
  {
    first + i in m
  }

  lemma ReachesBoth(bytes: nat, first: nat, len: nat, m: iset<nat>, n: iset<nat>)
    ensures Reaches(bytes, first, len, m + n) <==> Reaches(bytes, first, len, m) && Reaches(bytes, first, len, n)
  {
    forall i: nat ensures Lies(m + n, first, i) <==> Lies(m, first, i) || Lies(n, first, i) {
    }
  }

  lemma ReachesAll(bytes: nat, first: nat, len: nat, a: iset<nat>, b: iset<nat>, c: iset<nat>, d: iset<nat>)
    ensures Reaches(bytes, first, len, a + b + c + d) <==>
            && Reaches(bytes, first, len, a) && Reaches(bytes, first, len, b)
            && Reaches(bytes, first, len, c) && Reaches(bytes, first, len, d)
  {
    ReachesBoth(bytes, first, len, a + b + c, d);
    ReachesBoth(bytes, first, len, a + b, c);
    ReachesBoth(bytes, first, len, a, b);
  }

  lemma ReachesLess(bytes: nat, first: nat, len: nat, m: iset<nat>, n: iset<nat>)
    requires m <= n
    ensures Reaches(bytes, first, len, n) ==> Reaches(bytes, first, len, m)
  {
    forall i: nat ensures Lies(m, first, i) ==> Lies(n, first, i) {
    }
  }

  lemma ReachesRange(bytes: nat, first: nat, len: nat, r: Range)
    ensures Reaches(bytes, first, len, Blocks(r)) <==>
            LowBit(r, first) >= HighBit(r, first, len) || HighBit(r, first, len) <= 8 * bytes
  {
    var lo, hi := LowBit(r, first), HighBit(r, first, len);
    if lo < hi && 8 * bytes < hi {
      assert Lies(Blocks(r), first, hi - 1);
    }
  }

  /** Marks the part of a range that is in the group's window, bit by bit, as far as the bitmap has bits. */
  method Mark(bitmap: array<bv8>, first: nat, len: nat, r: Range, ghost m: iset<nat>) returns (ok: bool)
    requires Shows(bitmap[..], first, len, m)
    modifies bitmap
    ensures ok <==> Reaches(bitmap.Length, first, len, Blocks(r))
    ensures ok ==> Shows(bitmap[..], first, len, m + Blocks(r))
  {
    var lo := if r.start < first then first else r.start;
    var hi := if r.end < first + len then r.end else first + len;
    ghost var was := bitmap[..];
    ReachesRange(bitmap.Length, first, len, r);
    if lo < hi {
      for block := lo to hi
        invariant Marks(was, bitmap[..], lo - first, block - first) && (lo < block ==> block - first <= 8 * bitmap.Length)
      {
        var i := block - first;
        if i >= 8 * bitmap.Length {
          return false;
        }
        ghost var now := bitmap[..];
        MarkOne(was, now, lo - first, i);
        bitmap[i / 8] := bitmap[i / 8] | Mask(i % 8);
        assert bitmap[..] == now[i / 8 := now[i / 8] | Mask(i % 8)];
      }
    } else {
      assert Marks(was, was, LowBit(r, first), HighBit(r, first, len));
    }
    ShowsMore(was, bitmap[..], first, len, m, r);
    ok := true;
  }

  /** The blocks of one group's bitmaps and inode table. */
  ghost function PlaceBlocks(p: Plan, h: nat): iset<nat>
    requires h < |p.places|
  {
    iset b: nat | p.InPlace(h, b)
  }

  ghost function PlacesFrom(p: Plan, f: nat, h: nat): iset<nat>
    requires f <= h <= |p.places|
  {
    if h == f then iset{} else PlacesFrom(p, f, h - 1) + PlaceBlocks(p, h - 1)
  }

  lemma {:induction false} InPlacesFrom(p: Plan, f: nat, h: nat, b: nat)
    requires f <= h <= |p.places|
    ensures b in PlacesFrom(p, f, h) <==> exists x: nat :: f <= x < h && p.InPlace(x, b)
    decreases h - f
  {
    if f < h {
      InPlacesFrom(p, f, h - 1, b);
    }
  }

  ghost function RunBlocks(rs: seq<Range>, n: nat): iset<nat>
    requires n <= |rs|
  {
    if n == 0 then iset{} else RunBlocks(rs, n - 1) + Blocks(rs[n - 1])
  }

  lemma {:induction false} InRunBlocks(rs: seq<Range>, n: nat, b: nat)
    requires n <= |rs|
    ensures b in RunBlocks(rs, n) <==> exists x: nat :: x < n && In(rs[x], b)
  {
    if n > 0 {
      InRunBlocks(rs, n - 1, b);
    }
  }

  function Block(b: nat): Range
  {
    BlockRuns.Run(b, b + 1)
  }

  function Table(p: Plan, h: nat): Range
    requires h < |p.places|
  {
    BlockRuns.Run(p.places[h].inodeTable, p.places[h].inodeTable + p.g.itableBlocks)
  }

  lemma PlaceIsRanges(p: Plan, h: nat)
    requires h < |p.places|
    ensures Blocks(Block(p.places[h].blockBitmap)) + Blocks(Block(p.places[h].inodeBitmap)) + Blocks(Table(p, h)) == PlaceBlocks(p, h)
  {
  }

  /** Marks the bitmaps and inode table of one group. */
  method MarkPlace(p: Plan, bitmap: array<bv8>, first: nat, h: nat, ghost m: iset<nat>) returns (ok: bool)
    requires h < |p.places| && Shows(bitmap[..], first, p.g.blocksPerGroup, m)
    modifies bitmap
    ensures ok <==> Reaches(bitmap.Length, first, p.g.blocksPerGroup, PlaceBlocks(p, h))
    ensures ok ==> Shows(bitmap[..], first, p.g.blocksPerGroup, m + PlaceBlocks(p, h))
  {
    var place, len := p.places[h], p.g.blocksPerGroup;
    ghost var a, b, c := Blocks(Block(place.blockBitmap)), Blocks(Block(place.inodeBitmap)), Blocks(Table(p, h));
    PlaceIsRanges(p, h);
    ReachesBoth(bitmap.Length, first, len, a + b, c);
    ReachesBoth(bitmap.Length, first, len, a, b);
    assert m + a + b + c == m + PlaceBlocks(p, h);
    ok := Mark(bitmap, first, len, Block(place.blockBitmap), m);
    if ok {
      ok := Mark(bitmap, first, len, Block(place.inodeBitmap), m + a);
    }
    if ok {
      ok := Mark(bitmap, first, len, Table(p, h), m + a + b);
    }
  }

  /** Marks the bitmaps and inode tables of the groups from `f` up to `h`. */
  method MarkPlaces(p: Plan, bitmap: array<bv8>, first: nat, f: nat, h: nat, ghost m: iset<nat>) returns (ok: bool)
    requires f <= h <= |p.places| && Shows(bitmap[..], first, p.g.blocksPerGroup, m)
    modifies bitmap
    ensures ok <==> Reaches(bitmap.Length, first, p.g.blocksPerGroup, PlacesFrom(p, f, h))
    ensures ok ==> Shows(bitmap[..], first, p.g.blocksPerGroup, m + PlacesFrom(p, f, h))
  {
    var len := p.g.blocksPerGroup;
    assert m + iset{} == m;
    for x := f to h
      invariant Shows(bitmap[..], first, len, m + PlacesFrom(p, f, x))
      invariant Reaches(bitmap.Length, first, len, PlacesFrom(p, f, x))
    {
      ghost var now := m + PlacesFrom(p, f, x);
      ok := MarkPlace(p, bitmap, first, x, now);
      ReachesBoth(bitmap.Length, first, len, PlacesFrom(p, f, x), PlaceBlocks(p, x));
      if !ok {
        MorePlaces(p, f, x + 1, h);
        ReachesLess(bitmap.Length, first, len, PlacesFrom(p, f, x + 1), PlacesFrom(p, f, h));
        return;
      }
      assert now + PlaceBlocks(p, x) == m + PlacesFrom(p, f, x + 1);
    }
    ok := true;
  }

  lemma {:induction false} MorePlaces(p: Plan, f: nat, x: nat, h: nat)
    requires f <= x <= h <= |p.places|
    ensures PlacesFrom(p, f, x) <= PlacesFrom(p, f, h)
    decreases h
  {
    if x < h {
      MorePlaces(p, f, x, h - 1);
    }
  }

  lemma {:induction false} MoreRuns(rs: seq<Range>, x: nat, n: nat)
    requires x <= n <= |rs|
    ensures RunBlocks(rs, x) <= RunBlocks(rs, n)
    decreases n
  {
    if x < n {
      MoreRuns(rs, x, n - 1);
    }
  }

  /** Marks the runs set aside for files. */
  method MarkRuns(rs: seq<Range>, bitmap: array<bv8>, first: nat, len: nat, ghost m: iset<nat>) returns (ok: bool)
    requires Shows(bitmap[..], first, len, m)
    modifies bitmap
    ensures ok <==> Reaches(bitmap.Length, first, len, RunBlocks(rs, |rs|))
    ensures ok ==> Shows(bitmap[..], first, len, m + RunBlocks(rs, |rs|))
  {
    assert m + iset{} == m;
    for x := 0 to |rs|
      invariant Shows(bitmap[..], first, len, m + RunBlocks(rs, x))
      invariant Reaches(bitmap.Length, first, len, RunBlocks(rs, x))
    {
      ok := Mark(bitmap, first, len, rs[x], m + RunBlocks(rs, x));
      ReachesBoth(bitmap.Length, first, len, RunBlocks(rs, x), Blocks(rs[x]));
      if !ok {
        MoreRuns(rs, x + 1, |rs|);
        ReachesLess(bitmap.Length, first, len, RunBlocks(rs, x + 1), RunBlocks(rs, |rs|));
        return;
      }
      assert m + RunBlocks(rs, x) + Blocks(rs[x]) == m + RunBlocks(rs, x + 1);
    }
    ok := true;
  }

  /** Bits past the blocks of a group belong to no block. */
  method Pad(bitmap: array<bv8>, from: nat)
    modifies bitmap
    ensures Marks(old(bitmap[..]), bitmap[..], from, 8 * bitmap.Length)
  {
    ghost var was := bitmap[..];
    if from >= 8 * bitmap.Length {
      return;
    }
    for bit := from to 8 * bitmap.Length
      invariant Marks(was, bitmap[..], from, bit)
    {
      ghost var now := bitmap[..];
      MarkOne(was, now, from, bit);
      bitmap[bit / 8] := bitmap[bit / 8] | Mask(bit % 8);
      assert bitmap[..] == now[bit / 8 := now[bit / 8] | Mask(bit % 8)];
    }
  }

  /** Everything the formatter marks for a group, its missing tail included. */
  ghost function GroupMarks(p: Plan, group: nat): iset<nat>
    requires p.Valid() && group < p.g.groupCount
  {
    var f := p.g.FlexFirst(group);
    FlexSpan(p.g.flexSize, group);
    Blocks(BlockRuns.Run(p.g.FirstBlock(group), p.g.FirstBlock(group) + p.g.SuperOverhead(group)))
    + PlacesFrom(p, f, f + p.g.FlexMembers(f)) + RunBlocks(p.runs, |p.runs|)
    + Blocks(BlockRuns.Run(p.g.EndBlock(group), p.g.FirstBlock(group) + p.g.blocksPerGroup))
  }

  lemma InFlex(g: Geometry, group: nat, x: nat)
    requires 0 < g.flexSize && group < g.groupCount && x < g.groupCount && g.FlexFirst(group) <= g.groupCount
    ensures var f := g.FlexFirst(group); f <= x < f + g.FlexMembers(f) <==> g.FlexFirst(x) == f
  {
    FlexSpan(g.flexSize, x);
    SameQuotient(g.flexSize, group / g.flexSize, x);
  }

  /** What is marked for a group's own blocks is what they own. */
  lemma GroupMarksAreOwned(p: Plan, group: nat, b: nat)
    requires p.Valid() && p.FlexFits() && group < p.g.groupCount
    requires p.g.FirstBlock(group) <= b < p.g.FirstBlock(group) + p.g.blocksPerGroup
    ensures b in GroupMarks(p, group) <==> p.g.EndBlock(group) <= b || p.Owned(b)
  {
    var f := p.g.FlexFirst(group);
    FlexSpan(p.g.flexSize, group);
    InPlacesFrom(p, f, f + p.g.FlexMembers(f), b);
    InRunBlocks(p.runs, |p.runs|, b);
    OwnedIsMarked(p, group, b);
    forall x: nat | x < p.g.groupCount ensures f <= x < f + p.g.FlexMembers(f) <==> p.g.FlexFirst(x) == f {
      InFlex(p.g, group, x);
    }
  }

  lemma {:induction false} OnesAndFree(s: seq<bv8>, owned: iset<nat>, first: nat, end: nat, n: nat)
    requires first <= end && forall i: nat :: i < n ==> BitRight(owned, first, end, s, i)
    ensures Ones(s, n) + Free(owned, first, if first + n < end then first + n else end) == n
    decreases n
  {
    if n > 0 {
      assert BitRight(owned, first, end, s, n - 1);
      OnesAndFree(s, owned, first, end, n - 1);
    }
  }

  lemma {:induction false} NoOnesPast(s: seq<bv8>, len: nat, n: nat)
    requires len <= n && forall i: nat :: len <= i < n ==> !Test(s, i)
    ensures Ones(s, n) == Ones(s, len)
    decreases n
  {
    if len < n {
      NoOnesPast(s, len, n - 1);
    }
  }

  /** A bitmap block has a bit for every block of the group that is owned or missing. */
  ghost predicate GroupFits(p: Plan, group: nat)
    requires p.Valid()
  {
    forall i: nat :: 8 * p.blockSize <= i < p.g.blocksPerGroup ==> BlockFree(p, group, i)
  }

  ghost predicate BlockFree(p: Plan, group: nat, i: nat)
    requires p.Valid()
  {
    p.g.FirstBlock(group) + i < p.g.EndBlock(group) && !p.Owned(p.g.FirstBlock(group) + i)
  }

  lemma FitsIsReached(p: Plan, group: nat)
    requires p.Valid() && p.FlexFits() && group < p.g.groupCount
    ensures GroupFits(p, group) <==> Reaches(p.blockSize, p.g.FirstBlock(group), p.g.blocksPerGroup, GroupMarks(p, group))
  {
    var first, marks := p.g.FirstBlock(group), GroupMarks(p, group);
    forall i: nat | i < p.g.blocksPerGroup ensures BlockFree(p, group, i) <==> !Lies(marks, first, i) {
      GroupMarksAreOwned(p, group, first + i);
    }
  }

  lemma MarkedIsRight(p: Plan, group: nat, s: seq<bv8>, n: nat)
    requires p.Valid() && p.FlexFits() && group < p.g.groupCount && n <= 8 * |s| && n <= p.g.blocksPerGroup
    requires Shows(s, p.g.FirstBlock(group), p.g.blocksPerGroup, GroupMarks(p, group))
    ensures forall i: nat :: i < n ==> BitRight(p.AllOwned(), p.g.FirstBlock(group), p.g.EndBlock(group), s, i)
  {
    var first, end, len := p.g.FirstBlock(group), p.g.EndBlock(group), p.g.blocksPerGroup;
    forall i: nat | i < n ensures BitRight(p.AllOwned(), first, end, s, i) {
      assert BitShows(s, first, len, GroupMarks(p, group), i);
      GroupMarksAreOwned(p, group, first + i);
    }
  }

  /** The bitmap as marked, before padding: its ones are the blocks of the window that are not free. */
  lemma MarkedCount(p: Plan, group: nat, s: seq<bv8>, bytes: nat)
    requires p.Valid() && p.FlexFits() && group < p.g.groupCount && |s| == p.blockSize && GroupFits(p, group)
    requires Shows(s, p.g.FirstBlock(group), p.g.blocksPerGroup, GroupMarks(p, group))
    requires bytes <= p.blockSize && (p.g.blocksPerGroup <= 8 * bytes || bytes == p.blockSize)
    ensures Ones(s, 8 * bytes) + Free(p.AllOwned(), p.g.FirstBlock(group), p.g.EndBlock(group)) == p.g.blocksPerGroup
  {
    var first, end, len := p.g.FirstBlock(group), p.g.EndBlock(group), p.g.blocksPerGroup;
    GroupIsReal(p, group);
    if len <= 8 * bytes {
      CountWithin(p, group, s, len, 8 * bytes);
    } else {
      MarkedIsRight(p, group, s, 8 * bytes);
      OnesAndFree(s, p.AllOwned(), first, end, 8 * bytes);
      FreeBeyond(p, group, first, end, first + 8 * bytes);
    }
  }

  lemma CountWithin(p: Plan, group: nat, s: seq<bv8>, len: nat, n: nat)
    requires p.Valid() && p.FlexFits() && group < p.g.groupCount && len == p.g.blocksPerGroup <= n <= 8 * |s|
    requires Shows(s, p.g.FirstBlock(group), len, GroupMarks(p, group))
    ensures Ones(s, n) + Free(p.AllOwned(), p.g.FirstBlock(group), p.g.EndBlock(group)) == len
  {
    var first, end := p.g.FirstBlock(group), p.g.EndBlock(group);
    GroupIsReal(p, group);
    forall i: nat | len <= i < n ensures !Test(s, i) {
      assert BitShows(s, first, len, GroupMarks(p, group), i);
    }
    NoOnesPast(s, len, n);
    MarkedIsRight(p, group, s, len);
    OnesAndFree(s, p.AllOwned(), first, end, len);
  }

  /** Past the bits of a bitmap block the whole group is free. */
  lemma FreeBeyond(p: Plan, group: nat, first: nat, end: nat, mid: nat)
    requires p.Valid() && group < p.g.groupCount && GroupFits(p, group) && first == p.g.FirstBlock(group) && end == p.g.EndBlock(group)
    requires mid == first + 8 * p.blockSize < first + p.g.blocksPerGroup
    ensures end == first + p.g.blocksPerGroup
    ensures Free(p.AllOwned(), first, end) == Free(p.AllOwned(), first, mid) + (end - mid)
  {
    GroupIsReal(p, group);
    assert BlockFree(p, group, p.g.blocksPerGroup - 1);
    forall b: nat | mid <= b < end ensures b !in p.AllOwned() {
      assert BlockFree(p, group, b - first);
    }
    FreeSplits(p.AllOwned(), first, mid, end);
    AllFree(p.AllOwned(), mid, end);
  }

  lemma {:induction false} AllFree(owned: iset<nat>, lo: nat, hi: nat)
    requires lo <= hi && forall b: nat :: lo <= b < hi ==> b !in owned
    ensures Free(owned, lo, hi) == hi - lo
    decreases hi
  {
    if lo < hi {
      AllFree(owned, lo, hi - 1);
    }
  }

  lemma GroupIsReal(p: Plan, group: nat)
    requires p.Valid() && group < p.g.groupCount
    ensures p.g.FirstBlock(group) < p.g.EndBlock(group) <= p.g.FirstBlock(group) + p.g.blocksPerGroup
  {
    StartMonotone(p.g.blocksPerGroup, group, p.g.groupCount - 1);
  }

  lemma PaddedIsRight(p: Plan, group: nat, s: seq<bv8>, t: seq<bv8>)
    requires p.Valid() && p.FlexFits() && group < p.g.groupCount && |s| == p.blockSize
    requires Shows(s, p.g.FirstBlock(group), p.g.blocksPerGroup, GroupMarks(p, group))
    requires Marks(s, t, p.g.blocksPerGroup, 8 * p.blockSize)
    ensures GroupState(p, group, t, Free(p.AllOwned(), p.g.FirstBlock(group), p.g.EndBlock(group)))
  {
    var first, end, len := p.g.FirstBlock(group), p.g.EndBlock(group), p.g.blocksPerGroup;
    GroupIsReal(p, group);
    MarkedIsRight(p, group, s, if len < 8 * |s| then len else 8 * |s|);
    forall i: nat | i < 8 * p.blockSize ensures BitRight(p.AllOwned(), first, end, t, i) {
      assert Marked(s, t, len, 8 * p.blockSize, i);
      assert i < len ==> BitRight(p.AllOwned(), first, end, s, i);
    }
  }

  /** The formatter: one group's block bitmap and free count, from the layout and the plan. It fails when it comes to mark a
    * block that the bitmap has no bit for. */
  method BuildGroup(p: Plan, group: nat) returns (ok: bool, bitmap: seq<bv8>, free: nat)
    requires p.Valid() && p.FlexFits() && group < p.g.groupCount
    ensures ok <==> GroupFits(p, group)
    ensures ok ==> GroupState(p, group, bitmap, free)
  {
    var bits := new bv8[p.blockSize](_ => 0);
    var first, len := p.g.FirstBlock(group), p.g.blocksPerGroup;
    bitmap, free := [], 0;
    assert Shows(bits[..], first, len, iset{}) by {
      forall i: nat | i < 8 * p.blockSize ensures BitShows(bits[..], first, len, iset{}, i) {
        FullByte(i % 8);
      }
    }
    FitsIsReached(p, group);
    ok := MarkGroup(p, group, bits);
    if ok {
      bitmap, free := FinishGroup(p, group, bits);
    }
  }

  /** Counts the blocks marked, and pads the bitmap. */
  method FinishGroup(p: Plan, group: nat, bits: array<bv8>) returns (bitmap: seq<bv8>, free: nat)
    requires p.Valid() && p.FlexFits() && group < p.g.groupCount && bits.Length == p.blockSize && GroupFits(p, group)
    requires Shows(bits[..], p.g.FirstBlock(group), p.g.blocksPerGroup, GroupMarks(p, group))
    modifies bits
    ensures GroupState(p, group, bitmap, free)
  {
    var len := p.g.blocksPerGroup;
    var bytes := if (len + 7) / 8 < bits.Length then (len + 7) / 8 else bits.Length;
    var used := CountOnes(bits[..], bytes);
    MarkedCount(p, group, bits[..], bytes);
    free := len - used;
    ghost var was := bits[..];
    Pad(bits, len);
    PaddedIsRight(p, group, was, bits[..]);
    bitmap := bits[..];
  }

  /** Descriptors, the flex group's metadata, the plan's runs, and what a short group lacks. */
  method MarkGroup(p: Plan, group: nat, bits: array<bv8>) returns (ok: bool)
    requires p.Valid() && group < p.g.groupCount && bits.Length == p.blockSize
    requires Shows(bits[..], p.g.FirstBlock(group), p.g.blocksPerGroup, iset{})
    modifies bits
    ensures ok <==> Reaches(bits.Length, p.g.FirstBlock(group), p.g.blocksPerGroup, GroupMarks(p, group))
    ensures ok ==> Shows(bits[..], p.g.FirstBlock(group), p.g.blocksPerGroup, GroupMarks(p, group))
  {
    var first, len, f := p.g.FirstBlock(group), p.g.blocksPerGroup, p.g.FlexFirst(group);
    FlexSpan(p.g.flexSize, group);
    var front := BlockRuns.Run(first, first + p.g.SuperOverhead(group));
    var tail := BlockRuns.Run(p.g.EndBlock(group), first + len);
    ghost var a, b, c, d := Blocks(front), PlacesFrom(p, f, f + p.g.FlexMembers(f)), RunBlocks(p.runs, |p.runs|), Blocks(tail);
    ReachesAll(bits.Length, first, len, a, b, c, d);
    ok := Mark(bits, first, len, front, iset{});
    assert iset{} + a == a;
    assert a + b + c + d == GroupMarks(p, group);
    if ok {
      ok := MarkPlaces(p, bits, first, f, f + p.g.FlexMembers(f), a);
    }
    if ok {
      ok := MarkRuns(p.runs, bits, first, len, a + b);
    }
    if ok {
      ok := Mark(bits, first, len, tail, a + b + c);
    }
  }

  // ---- The checker's side ----

  /** The blocks held are those owned, as far as the device goes. */
  ghost predicate HoldsOwned(p: Plan, held: set<nat>)
    requires 0 < p.g.descPerBlock && |p.places| == p.g.groupCount
  {
    forall b: nat :: b < p.g.blocksCount ==> (b in held <==> b in p.AllOwned())
  }

  /** The bits of the held parts of a group, and how many blocks they are. */
  method SetParts(bits: array<bv8>, first: nat, parts: seq<Range>) returns (used: nat)
    requires forall i :: 0 <= i < |parts| ==> first <= parts[i].start < parts[i].end
    modifies bits
    ensures used == BlockRuns.Length(parts) && BitsHeld(old(bits[..]), bits[..], first, parts)
  {
    used := 0;
    ghost var was := bits[..];
    assert parts[..0] == [];
    for n := 0 to |parts|
      invariant used == BlockRuns.Length(parts[..n])
      invariant BitsHeld(was, bits[..], first, parts[..n])
    {
      ghost var now := bits[..];
      SetBits(bits, parts[n].start - first, parts[n].end - first);
      used := used + (parts[n].end - parts[n].start);
      assert parts[..n + 1][..n] == parts[..n];
      OnePart(was, now, bits[..], first, parts, n);
    }
    assert parts[..|parts|] == parts;
  }

  ghost predicate BitHeld(s: seq<bv8>, t: seq<bv8>, first: nat, parts: seq<Range>, i: nat)
  {
    Test(t, i) <==> Test(s, i) || BlockRuns.Holds(parts, first + i)
  }

  ghost predicate BitsHeld(s: seq<bv8>, t: seq<bv8>, first: nat, parts: seq<Range>)
  {
    |s| == |t| && forall i: nat :: i < 8 * |t| ==> BitHeld(s, t, first, parts, i)
  }

  lemma OnePart(s: seq<bv8>, now: seq<bv8>, t: seq<bv8>, first: nat, parts: seq<Range>, n: nat)
    requires n < |parts| && first <= parts[n].start < parts[n].end
    requires Marks(now, t, parts[n].start - first, parts[n].end - first) && BitsHeld(s, now, first, parts[..n])
    ensures BitsHeld(s, t, first, parts[..n + 1])
  {
    var more := parts[..n + 1];
    forall i: nat | i < 8 * |now| ensures BitHeld(s, t, first, more, i) {
      assert BitHeld(s, now, first, parts[..n], i) && Marked(now, t, parts[n].start - first, parts[n].end - first, i);
      BlockRuns.HoldsOneMore(parts, n, first + i);
    }
  }

  /** The bitmap of the held parts of a group, padded with ones past its end. */
  method ExpectedBits(blockSize: nat, first: nat, inGroup: nat, parts: seq<Range>)
    returns (bitmap: seq<bv8>, used: nat, ghost zero: seq<bv8>, ghost held: seq<bv8>)
    requires forall i :: 0 <= i < |parts| ==> first <= parts[i].start < parts[i].end
    ensures used == BlockRuns.Length(parts)
    ensures |zero| == blockSize && (forall k :: 0 <= k < |zero| ==> zero[k] == 0)
    ensures BitsHeld(zero, held, first, parts) && Marks(held, bitmap, inGroup, 8 * blockSize)
  {
    var expected := new bv8[blockSize](_ => 0);
    zero := expected[..];
    used := SetParts(expected, first, parts);
    held := expected[..];
    SetBits(expected, inGroup, 8 * blockSize);
    bitmap := expected[..];
  }

  /** The checker: one group's block bitmap and free count, rebuilt from the blocks with owners. */
  method RebuildGroup(p: Plan, blocks: BlockRuns.RunSet, group: nat) returns (bitmap: seq<bv8>, free: nat)
    requires p.Valid() && group < p.g.groupCount && blocks.Valid() && HoldsOwned(p, BlockRuns.Held(blocks.runs))
    ensures GroupState(p, group, bitmap, free)
  {
    var parts := blocks.Within(p.g.FirstBlock(group), p.g.EndBlock(group));
    bitmap, free := RebuildFrom(p, group, parts, BlockRuns.Held(blocks.runs));
  }

  method RebuildFrom(p: Plan, group: nat, parts: seq<Range>, ghost all: set<nat>) returns (bitmap: seq<bv8>, free: nat)
    requires p.Valid() && group < p.g.groupCount && HoldsOwned(p, all) && BlockRuns.Apart(parts)
    requires BlockRuns.Held(parts) == all * BlockRuns.Blocks(p.g.FirstBlock(group), p.g.EndBlock(group))
    ensures GroupState(p, group, bitmap, free)
  {
    var first, end := p.g.FirstBlock(group), p.g.EndBlock(group);
    GroupIsReal(p, group);
    var inGroup := end - first;
    PartsInRange(parts, all, first, end);
    var used;
    ghost var zero, held;
    bitmap, used, zero, held := ExpectedBits(p.blockSize, first, inGroup, parts);
    PartsCount(p, group, parts, all);
    RebuiltIsRight(p, group, zero, held, bitmap, parts, all);
    free := inGroup - used;
  }

  lemma PartsInRange(parts: seq<Range>, held: set<nat>, lo: nat, hi: nat)
    requires BlockRuns.Apart(parts) && BlockRuns.Held(parts) == held * BlockRuns.Blocks(lo, hi)
    ensures forall i :: 0 <= i < |parts| ==> lo <= parts[i].start < parts[i].end
  {
    forall i | 0 <= i < |parts| ensures lo <= parts[i].start < parts[i].end {
      assert BlockRuns.Solid(parts, i);
      assert BlockRuns.Holds(parts, parts[i].start);
      assert parts[i].start in BlockRuns.Held(parts);
    }
  }

  lemma PartsCount(p: Plan, group: nat, parts: seq<Range>, held: set<nat>)
    requires p.Valid() && group < p.g.groupCount && HoldsOwned(p, held) && BlockRuns.Apart(parts)
    requires BlockRuns.Held(parts) == held * BlockRuns.Blocks(p.g.FirstBlock(group), p.g.EndBlock(group))
    ensures var first, end := p.g.FirstBlock(group), p.g.EndBlock(group);
            BlockRuns.Length(parts) + Free(p.AllOwned(), first, end) == end - first
  {
    GroupIsReal(p, group);
    BlockRuns.LengthIsSize(parts);
    FreeAndOwned(p.AllOwned(), held, p.g.FirstBlock(group), p.g.EndBlock(group));
  }

  lemma RebuiltIsRight(p: Plan, group: nat, zero: seq<bv8>, s: seq<bv8>, t: seq<bv8>, parts: seq<Range>, held: set<nat>)
    requires p.Valid() && group < p.g.groupCount && HoldsOwned(p, held)
    requires BlockRuns.Held(parts) == held * BlockRuns.Blocks(p.g.FirstBlock(group), p.g.EndBlock(group))
    requires |zero| == |s| == p.blockSize && forall k :: 0 <= k < |zero| ==> zero[k] == 0
    requires BitsHeld(zero, s, p.g.FirstBlock(group), parts)
    requires p.g.FirstBlock(group) <= p.g.EndBlock(group) && Marks(s, t, p.g.EndBlock(group) - p.g.FirstBlock(group), 8 * p.blockSize)
    ensures GroupState(p, group, t, Free(p.AllOwned(), p.g.FirstBlock(group), p.g.EndBlock(group)))
  {
    var first, end := p.g.FirstBlock(group), p.g.EndBlock(group);
    forall i: nat | i < 8 * p.blockSize ensures BitRight(p.AllOwned(), first, end, t, i) {
      assert BitHeld(zero, s, first, parts, i) && Marked(s, t, end - first, 8 * p.blockSize, i);
      FullByte(i % 8);
      InParts(p, parts, held, first, end, first + i);
    }
  }

  lemma InParts(p: Plan, parts: seq<Range>, held: set<nat>, lo: nat, hi: nat, b: nat)
    requires 0 < p.g.descPerBlock && |p.places| == p.g.groupCount && HoldsOwned(p, held) && hi <= p.g.blocksCount && lo <= b
    requires BlockRuns.Held(parts) == held * BlockRuns.Blocks(lo, hi)
    ensures BlockRuns.Holds(parts, b) <==> b < hi && b in p.AllOwned()
  {
    assert b in BlockRuns.Held(parts) <==> BlockRuns.Holds(parts, b);
  }

  /** The first `n` groups' bitmaps and counts are right. */
  ghost predicate GroupsRight(p: Plan, bitmaps: seq<seq<bv8>>, frees: seq<nat>, n: nat)
    requires p.Valid()
  {
    |bitmaps| == |frees| == n && forall h :: 0 <= h < n ==> GroupState(p, h, bitmaps[h], frees[h])
  }

  lemma OneMoreGroup(p: Plan, bitmaps: seq<seq<bv8>>, frees: seq<nat>, n: nat, bitmap: seq<bv8>, free: nat)
    requires p.Valid() && GroupsRight(p, bitmaps, frees, n) && GroupState(p, n, bitmap, free)
    ensures GroupsRight(p, bitmaps + [bitmap], frees + [free], n + 1)
    ensures FreeInGroups(p, n + 1) == FreeInGroups(p, n) + free
  {
  }

  /** The checker's total over every group. */
  method RebuildAll(p: Plan, blocks: BlockRuns.RunSet) returns (bitmaps: seq<seq<bv8>>, frees: seq<nat>, total: nat)
    requires p.Valid() && blocks.Valid() && HoldsOwned(p, BlockRuns.Held(blocks.runs))
    ensures |bitmaps| == |frees| == p.g.groupCount
    ensures forall h :: 0 <= h < p.g.groupCount ==> GroupState(p, h, bitmaps[h], frees[h])
    ensures total == Free(p.AllOwned(), p.g.firstDataBlock, p.g.blocksCount)
    ensures total + HeldIn(BlockRuns.Held(blocks.runs), p.g.firstDataBlock, p.g.blocksCount) == p.g.blocksCount - p.g.firstDataBlock
  {
    bitmaps, frees, total := [], [], 0;
    for h := 0 to p.g.groupCount
      invariant GroupsRight(p, bitmaps, frees, h) && total == FreeInGroups(p, h)
    {
      var bitmap, free := RebuildGroup(p, blocks, h);
      OneMoreGroup(p, bitmaps, frees, h, bitmap, free);
      bitmaps, frees, total := bitmaps + [bitmap], frees + [free], total + free;
    }
    FreeAddsUp(p, p.g.groupCount);
    FreeAndOwned(p.AllOwned(), BlockRuns.Held(blocks.runs), p.g.firstDataBlock, p.g.blocksCount);
  }

  // ---- The claims ----

  /** What the checker claims for one group: descriptors, bitmaps and inode table. */
  function GroupClaims(p: Plan, h: nat): seq<Range>
    requires h < |p.places| && 0 < p.g.descPerBlock
  {
    [BlockRuns.Run(p.g.FirstBlock(h), p.g.FirstBlock(h) + p.g.SuperOverhead(h)),
     Block(p.places[h].blockBitmap), Block(p.places[h].inodeBitmap), Table(p, h)]
  }

  function ClaimsUpTo(p: Plan, h: nat): seq<Range>
    requires h <= |p.places| && 0 < p.g.descPerBlock
  {
    if h == 0 then [] else ClaimsUpTo(p, h - 1) + GroupClaims(p, h - 1)
  }

  /** Everything the checker claims: the groups' metadata, what comes before the first group, the blocks of files. */
  function Claims(p: Plan): seq<Range>
    requires |p.places| == p.g.groupCount && 0 < p.g.descPerBlock
  {
    ClaimsUpTo(p, p.g.groupCount) + [BlockRuns.Run(0, p.g.firstDataBlock)] + p.runs
  }

  lemma AnyOfBoth(a: seq<Range>, c: seq<Range>, b: nat)
    ensures InAny(a + c, b) <==> InAny(a, b) || InAny(c, b)
  {
    if InAny(a, b) {
      var i :| 0 <= i < |a| && In(a[i], b);
      assert In((a + c)[i], b);
    }
    if InAny(c, b) {
      var i :| 0 <= i < |c| && In(c[i], b);
      assert In((a + c)[|a| + i], b);
    }
    if InAny(a + c, b) {
      var i :| 0 <= i < |a + c| && In((a + c)[i], b);
      assert if i < |a| then In(a[i], b) else In(c[i - |a|], b);
    }
  }

  lemma {:induction false} ClaimedOnce(claims: seq<Range>, b: nat)
    ensures BlockRuns.Times(claims, b) >= 1 <==> InAny(claims, b)
    decreases |claims|
  {
    if claims != [] {
      var front, last := claims[..|claims| - 1], claims[|claims| - 1];
      assert claims == front + [last];
      ClaimedOnce(front, b);
      AnyOfBoth(front, [last], b);
      OfOne(last, b);
    }
  }

  lemma OfOne(r: Range, b: nat)
    ensures InAny([r], b) <==> In(r, b)
  {
    assert In(r, b) ==> In([r][0], b);
  }

  lemma OfGroup(p: Plan, h: nat, b: nat)
    requires h < |p.places| && 0 < p.g.descPerBlock
    ensures InAny(GroupClaims(p, h), b) <==> p.InOverhead(h, b) || p.InPlace(h, b)
  {
    var c := GroupClaims(p, h);
    assert In(c[0], b) <==> p.InOverhead(h, b);
    assert In(c[1], b) || In(c[2], b) || In(c[3], b) <==> p.InPlace(h, b);
  }

  lemma {:induction false} OfGroups(p: Plan, h: nat, b: nat)
    requires h <= |p.places| && 0 < p.g.descPerBlock
    ensures InAny(ClaimsUpTo(p, h), b) <==> exists x: nat :: x < h && (p.InOverhead(x, b) || p.InPlace(x, b))
  {
    if h > 0 {
      OfGroups(p, h - 1, b);
      OfGroup(p, h - 1, b);
      AnyOfBoth(ClaimsUpTo(p, h - 1), GroupClaims(p, h - 1), b);
    }
  }

  /** A block is claimed when it is owned. */
  lemma ClaimedIsOwned(p: Plan, b: nat)
    requires |p.places| == p.g.groupCount && 0 < p.g.descPerBlock
    ensures BlockRuns.Times(Claims(p), b) >= 1 <==> p.Owned(b)
  {
    ClaimedOnce(Claims(p), b);
    OfGroups(p, p.g.groupCount, b);
    OfOne(BlockRuns.Run(0, p.g.firstDataBlock), b);
    AnyOfBoth(ClaimsUpTo(p, p.g.groupCount), [BlockRuns.Run(0, p.g.firstDataBlock)], b);
    AnyOfBoth(ClaimsUpTo(p, p.g.groupCount) + [BlockRuns.Run(0, p.g.firstDataBlock)], p.runs, b);
  }

  lemma ClaimsHoldOwned(p: Plan, held: set<nat>, duplicates: set<nat>)
    requires |p.places| == p.g.groupCount && 0 < p.g.descPerBlock
    requires BlockRuns.Tallied(Claims(p), p.g.blocksCount, held, duplicates)
    ensures HoldsOwned(p, held)
  {
    forall b: nat | b < p.g.blocksCount ensures b in held <==> b in p.AllOwned() {
      ClaimedIsOwned(p, b);
    }
  }

  /** A filesystem checked as it was planned: claiming its blocks and rebuilding the groups' bitmaps and counts. */
  method CheckPlanned(p: Plan) returns (bitmaps: seq<seq<bv8>>, frees: seq<nat>, total: nat, duplicates: set<nat>)
    requires p.Valid()
    ensures forall b: nat :: b in duplicates <==> b < p.g.blocksCount && BlockRuns.Times(Claims(p), b) >= 2
    ensures |bitmaps| == |frees| == p.g.groupCount
    ensures forall h :: 0 <= h < p.g.groupCount ==> GroupState(p, h, bitmaps[h], frees[h])
    ensures total == Free(p.AllOwned(), p.g.firstDataBlock, p.g.blocksCount)
  {
    var state := new BlockRuns.ScanState(p.g.blocksCount);
    state.ClaimAll(Claims(p));
    ClaimsHoldOwned(p, BlockRuns.Held(state.blocks.runs), state.duplicates);
    bitmaps, frees, total := RebuildAll(p, state.blocks);
    duplicates := state.duplicates;
  }

  /** The formatter: every group's bitmap and count, and the free blocks of them all for the superblock. */
  method BuildAll(p: Plan) returns (ok: bool, bitmaps: seq<seq<bv8>>, frees: seq<nat>, total: nat)
    requires p.Valid() && p.FlexFits()
    ensures ok <==> forall h :: 0 <= h < p.g.groupCount ==> GroupFits(p, h)
    ensures ok ==> |bitmaps| == |frees| == p.g.groupCount
    ensures ok ==> forall h :: 0 <= h < p.g.groupCount ==> GroupState(p, h, bitmaps[h], frees[h])
    ensures ok ==> total == Free(p.AllOwned(), p.g.firstDataBlock, p.g.blocksCount)
  {
    bitmaps, frees, total := [], [], 0;
    for h := 0 to p.g.groupCount
      invariant GroupsRight(p, bitmaps, frees, h) && total == FreeInGroups(p, h)
      invariant forall x :: 0 <= x < h ==> GroupFits(p, x)
    {
      var bitmap, free;
      ok, bitmap, free := BuildGroup(p, h);
      if !ok {
        return;
      }
      OneMoreGroup(p, bitmaps, frees, h, bitmap, free);
      bitmaps, frees, total := bitmaps + [bitmap], frees + [free], total + free;
    }
    FreeAddsUp(p, p.g.groupCount);
    ok := true;
  }

  /** Groups no larger than a bitmap block has bits for can always be built. */
  lemma SmallGroupsFit(p: Plan, group: nat)
    requires p.Valid()
    ensures p.g.blocksPerGroup <= 8 * p.blockSize ==> GroupFits(p, group)
    ensures group < p.g.groupCount && p.g.EndBlock(group) < p.g.FirstBlock(group) + p.g.blocksPerGroup ==>
              (GroupFits(p, group) <==> p.g.blocksPerGroup <= 8 * p.blockSize)
  {
    if p.g.EndBlock(group) < p.g.FirstBlock(group) + p.g.blocksPerGroup && p.g.blocksPerGroup > 8 * p.blockSize {
      assert !BlockFree(p, group, p.g.blocksPerGroup - 1);
    }
  }

  /** What the checker rebuilds of a filesystem just formatted is what is there: the same bytes, counts and total. */
  method FormatThenCheck(p: Plan)
    returns (ok: bool, formatted: seq<seq<bv8>>, rebuilt: seq<seq<bv8>>, frees: seq<nat>, counted: seq<nat>, total: nat, recount: nat)
    requires p.Valid() && p.FlexFits()
    ensures ok <==> forall h :: 0 <= h < p.g.groupCount ==> GroupFits(p, h)
    ensures ok ==> rebuilt == formatted && counted == frees && recount == total
    ensures ok ==> forall h :: 0 <= h < p.g.groupCount ==> h < |formatted| && h < |frees| && GroupState(p, h, formatted[h], frees[h])
  {
    ok, formatted, frees, total := BuildAll(p);
    var duplicates;
    rebuilt, counted, recount, duplicates := CheckPlanned(p);
    if ok {
      forall h | 0 <= h < p.g.groupCount ensures formatted[h] == rebuilt[h] && frees[h] == counted[h] {
        GroupStateIsUnique(p, h, formatted[h], frees[h], rebuilt[h], counted[h]);
      }
    }
  }
}
