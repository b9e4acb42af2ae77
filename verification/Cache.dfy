// The write-back cache as the program runs it: reads, writes, zeroing, batched
// least-recently-used eviction and coalesced write-back over one device.
module Cache {
  import opened Arith
  import opened Bytes
  import opened CacheModel

  datatype Result<T> = Ok(value: T) | OutOfBounds

  ghost predicate Ascending(s: seq<nat>)
  {
    forall i, j :: 0 <= i < j < |s| ==> s[i] < s[j]
  }

  /** A set of block numbers in ascending order. */
  method Sorted(s: set<nat>) returns (r: seq<nat>)
    ensures Ascending(r) && |r| == |s| && forall x :: x in r <==> x in s
  {
    r := [];
    var rest := s;
    while rest != {}
      invariant rest <= s && |r| + |rest| == |s|
      invariant Ascending(r) && forall x :: x in r <==> x in s && x !in rest
      invariant forall i, y :: 0 <= i < |r| && y in rest ==> r[i] < y
      decreases rest
    {
      var least :| least in rest;
      var todo := rest - {least};
      while todo != {}
        invariant least in rest && todo <= rest
        invariant forall x :: x in rest && x !in todo ==> least <= x
        decreases todo
      {
        var x :| x in todo;
        if x < least {
          least := x;
        }
        todo := todo - {x};
      }
      assert forall x :: x in r + [least] <==> x in r || x == least;
      r, rest := r + [least], rest - {least};
    }
  }

  /** Block `a` was used less recently than `b`; equal stamps go by block number. */
  predicate Older(cache: map<nat, Entry>, a: nat, b: nat)
    requires a in cache && b in cache
  {
    cache[a].tick < cache[b].tick || (cache[a].tick == cache[b].tick && a < b)
  }

  /** The `n` least recently used blocks. */
  method Oldest(cache: map<nat, Entry>, n: nat) returns (victims: set<nat>)
    requires n <= |cache|
    ensures victims <= cache.Keys && |victims| == n
    ensures forall a, b :: a in victims && b in cache && b !in victims ==> Older(cache, a, b)
  {
    victims := {};
    while |victims| < n
      invariant victims <= cache.Keys && |victims| <= n
      invariant forall a, b :: a in victims && b in cache && b !in victims ==> Older(cache, a, b)
      decreases n - |victims|
    {
      var rest := cache.Keys - victims;
      assert |rest| == |cache| - |victims|;
      var oldest :| oldest in rest;
      var todo := rest - {oldest};
      while todo != {}
        invariant oldest in rest && todo <= rest
        invariant forall b :: b in rest && b !in todo && b != oldest ==> Older(cache, oldest, b)
        decreases todo
      {
        var b :| b in todo;
        todo := todo - {b};
        if b != oldest && Older(cache, b, oldest) {
          oldest := b;
        }
      }
      victims := victims + {oldest};
    }
  }

  // ---- Write-back, run by run ----

  /** With `run` written at `runStart`, the first `done` of `blocks` are back on the device and the view is unchanged. */
  ghost predicate Gathered(was: State, blocks: seq<nat>, remove: bool, done: nat, st: State, shown: seq<Byte>, runStart: nat, run: seq<Byte>)
  {
    && done <= |blocks| && runStart + |run| <= |st.inner| && was.bs == st.bs
    && st.cache == AfterBack(was.cache, blocks[..done], remove)
    && Patch(st.inner, runStart, run) == WroteEach(was, blocks[..done])
    && Shows(st.(inner := Patch(st.inner, runStart, run)), shown)
  }

  /** A run still open is one the next block's dirty bytes continue. */
  ghost predicate Pending(was: State, blocks: seq<nat>, remove: bool, done: nat, st: State, shown: seq<Byte>, runStart: nat, run: seq<Byte>)
  {
    && Gathered(was, blocks, remove, done, st, shown, runStart, run)
    && (run != [] ==> done < |blocks| && blocks[done] in st.cache && st.cache[blocks[done]].IsDirty()
                      && st.cache[blocks[done]].d0 == 0 && runStart + |run| == Start(st.bs, blocks[done]))
  }

  lemma ExtendRun(b: seq<Byte>, runStart: nat, run: seq<Byte>, at: nat, more: seq<Byte>)
    requires runStart + |run| <= |b| && at + |more| <= |b| && (run == [] || runStart + |run| == at)
    ensures Patch(Patch(b, runStart, run), at, more) == Patch(b, if run == [] then at else runStart, run + more)
  {
    if run == [] {
      PatchNothing(b, runStart);
      assert run + more == more;
    } else {
      PatchTwice(b, runStart, run, more);
    }
  }

  /** Writing back one more block, on the device and in the cache. */
  lemma BackOne(was: State, blocks: seq<nat>, remove: bool, done: nat, v: State)
    requires done < |blocks| && Ascending(blocks) && v.bs == was.bs
    requires v.cache == AfterBack(was.cache, blocks[..done], remove) && v.inner == WroteEach(was, blocks[..done])
    ensures var blk := blocks[done];
            && WroteEach(was, blocks[..done + 1]) == WroteBack(v, blk)
            && AfterBack(was.cache, blocks[..done + 1], remove) ==
               (if remove then v.cache - {blk} else if blk in v.cache then v.cache[blk := Clean(v.cache[blk])] else v.cache)
  {
    var before, blk := blocks[..done], blocks[done];
    assert blocks[..done + 1] == before + [blk];
    assert (before + [blk])[..done] == before;
    assert blk !in before;
    AfterBackOne(was.cache, before, blk, remove);
    SameWrite(was.(inner := v.inner), v, blk);
  }

  lemma AfterBackOne(cache: map<nat, Entry>, before: seq<nat>, blk: nat, remove: bool)
    requires blk !in before
    ensures var c := AfterBack(cache, before, remove);
            && (blk in c <==> blk in cache) && (blk in c ==> c[blk] == cache[blk])
            && AfterBack(cache, before + [blk], remove) ==
               (if remove then c - {blk} else if blk in c then c[blk := Clean(c[blk])] else c)
  {
    assert forall x :: x in before + [blk] <==> x in before || x == blk;
  }

  /** What a write-back puts on the device depends only on the block's own entry. */
  lemma SameWrite(a: State, b: State, blk: nat)
    requires a.bs == b.bs && a.inner == b.inner && (blk in a.cache <==> blk in b.cache)
    requires blk in a.cache ==> a.cache[blk] == b.cache[blk]
    ensures WroteBack(a, blk) == WroteBack(b, blk)
  {
  }

  function RunStart(st: State, blk: nat, runStart: nat, run: seq<Byte>): nat
    requires blk in st.cache
  {
    if run == [] then Start(st.bs, blk) + st.cache[blk].d0 else runStart
  }

  function RunBytes(e: Entry, run: seq<Byte>): seq<Byte>
    requires e.d0 <= e.d1 <= |e.data|
  {
    run + e.data[e.d0..e.d1]
  }

  /** Adding a block's dirty bytes to the run is writing the block back after the run. */
  lemma GatherPatch(st: State, shown: seq<Byte>, blk: nat, runStart: nat, run: seq<Byte>)
    requires runStart + |run| <= |st.inner| && Shows(st.(inner := Patch(st.inner, runStart, run)), shown)
    requires blk in st.cache && st.cache[blk].IsDirty()
    requires run == [] || (st.cache[blk].d0 == 0 && runStart + |run| == Start(st.bs, blk))
    ensures InDevice(st.bs, |st.inner|, blk) && st.cache[blk].Ok(BlockLen(st.bs, |st.inner|, blk))
    ensures var start, bytes := RunStart(st, blk, runStart, run), RunBytes(st.cache[blk], run);
            && start + |bytes| <= |st.inner| && start + |bytes| == Start(st.bs, blk) + st.cache[blk].d1
            && Patch(st.inner, start, bytes) == WroteBack(st.(inner := Patch(st.inner, runStart, run)), blk)
  {
    var v, e := st.(inner := Patch(st.inner, runStart, run)), st.cache[blk];
    DirtyFits(v, shown, blk);
    var at, more := Start(st.bs, blk) + e.d0, e.data[e.d0..e.d1];
    ExtendRun(st.inner, runStart, run, at, more);
    WroteBackIs(v, blk, at, more);
  }

  lemma WroteBackIs(st: State, blk: nat, at: nat, bytes: seq<Byte>)
    requires blk in st.cache && st.cache[blk].IsDirty() && st.cache[blk].d1 <= |st.cache[blk].data|
    requires Start(st.bs, blk) + st.cache[blk].d1 <= |st.inner|
    requires at == Start(st.bs, blk) + st.cache[blk].d0 && bytes == st.cache[blk].data[st.cache[blk].d0..st.cache[blk].d1]
    ensures at + |bytes| <= |st.inner| && WroteBack(st, blk) == Patch(st.inner, at, bytes)
  {
  }

  lemma DirtyFits(st: State, shown: seq<Byte>, blk: nat)
    requires Shows(st, shown) && blk in st.cache && st.cache[blk].IsDirty()
    ensures InDevice(st.bs, |st.inner|, blk) && st.cache[blk].Ok(BlockLen(st.bs, |st.inner|, blk))
    ensures Start(st.bs, blk) + st.cache[blk].d1 <= |st.inner|
  {
    assert BlockShows(st, shown, blk);
  }

  /** The cache once a block's bytes are in the run: the block gone, or clean. */
  function Backed(st: State, blk: nat, remove: bool): State
    requires blk in st.cache
  {
    if remove then Without(st, blk) else WithEntry(st, blk, st.cache[blk].(d0 := 0, d1 := 0))
  }

  lemma GatherShows(was: State, blocks: seq<nat>, remove: bool, done: nat, st: State, shown: seq<Byte>, runStart: nat, run: seq<Byte>)
    requires Pending(was, blocks, remove, done, st, shown, runStart, run) && Ascending(blocks)
    requires done < |blocks| && blocks[done] in st.cache && st.cache[blocks[done]].IsDirty()
    ensures var blk := blocks[done];
            var e := st.cache[blk];
            && InDevice(st.bs, |st.inner|, blk) && e.Ok(BlockLen(st.bs, |st.inner|, blk))
            && var start, bytes := RunStart(st, blk, runStart, run), RunBytes(e, run);
            && start + |bytes| == Start(st.bs, blk) + e.d1
            && Gathered(was, blocks, remove, done + 1, Backed(st, blk, remove), shown, start, bytes)
  {
    var v, blk := st.(inner := Patch(st.inner, runStart, run)), blocks[done];
    GatherPatch(st, shown, blk, runStart, run);
    WriteBackShows(v, shown, blk);
    BackOne(was, blocks, remove, done, v);
  }

  /** A block with nothing dirty needs no write, and may leave. */
  lemma CleanStep(was: State, blocks: seq<nat>, remove: bool, done: nat, st: State, shown: seq<Byte>, runStart: nat)
    requires Gathered(was, blocks, remove, done, st, shown, runStart, []) && Ascending(blocks) && done < |blocks|
    requires blocks[done] !in st.cache || !st.cache[blocks[done]].IsDirty()
    ensures var st' := if remove then Without(st, blocks[done]) else st;
            Gathered(was, blocks, remove, done + 1, st', shown, runStart, [])
  {
    var blk := blocks[done];
    PatchNothing(st.inner, runStart);
    BackOne(was, blocks, remove, done, st);
    if blk in st.cache {
      WriteBackShows(st, shown, blk);
      assert st.cache[blk := Clean(st.cache[blk])] == st.cache;
    } else {
      assert Without(st, blk) == st;
    }
  }

  /** A run that reaches the end of its block meets the next block's first byte. */
  lemma JoinedRun(blocks: seq<nat>, i: nat, st: State, shown: seq<Byte>, start: nat, bytes: seq<Byte>, len: nat)
    requires Ascending(blocks) && i < |blocks| && blocks[i] + 1 in blocks && blocks[i] + 1 in st.cache
    requires start + |bytes| <= |st.inner| && Shows(st.(inner := Patch(st.inner, start, bytes)), shown)
    requires InDevice(st.bs, |st.inner|, blocks[i]) && len == BlockLen(st.bs, |st.inner|, blocks[i])
    requires start + |bytes| == Start(st.bs, blocks[i]) + len
    ensures i + 1 < |blocks| && blocks[i + 1] == blocks[i] + 1 && start + |bytes| == Start(st.bs, blocks[i + 1])
  {
    var j :| 0 <= j < |blocks| && blocks[j] == blocks[i] + 1;
    assert i < j;
    assert blocks[i] < blocks[i + 1];
  }

  /** The part of a range in one of its blocks: from `s` to `t` within the block. */
  method Piece(bs: nat, size: nat, offset: nat, end: nat, blk: nat) returns (s: nat, t: nat)
    requires 0 < bs && offset < end <= size && BlockOf(bs, offset) <= blk <= BlockOf(bs, end - 1)
    ensures InDevice(bs, size, blk) && s < t <= BlockLen(bs, size, blk)
    ensures offset <= Start(bs, blk) + s == At(bs, offset, end, blk) && Start(bs, blk) + t == At(bs, offset, end, blk + 1) <= end
  {
    RangeBlocks(bs, offset, end, blk);
    RangeInBlock(bs, size, offset, end, blk);
    var start, len := Start(bs, blk), BlockLen(bs, size, blk);
    s := (if offset < start then start else offset) - start;
    t := (if end < start + len then end else start + len) - start;
  }

  class CachedDevice {
    const bs: nat
    const maxBlocks: nat
    var inner: seq<Byte>
    var cache: map<nat, Entry>
    var tick: nat
    /** The flat array the device is meant to look like. */
    ghost var shown: seq<Byte>

    ghost function St(): State
      reads this
    {
      State(bs, inner, cache)
    }

    ghost predicate Valid()
      reads this
    {
      8 <= maxBlocks && |cache| <= maxBlocks && Shows(St(), shown)
    }

    constructor (device: seq<Byte>, blockSize: nat, capacity: nat)
      requires 512 <= blockSize
      ensures Valid() && shown == device && inner == device && bs == blockSize && cache == map[]
      ensures maxBlocks == if capacity / blockSize < 8 then 8 else capacity / blockSize
    {
      bs := blockSize;
      maxBlocks := if capacity / blockSize < 8 then 8 else capacity / blockSize;
      inner, cache, tick, shown := device, map[], 0, device;
      new;
      forall blk: nat | InDevice(bs, |inner|, blk) ensures BlockShows(St(), shown, blk) {
        forall off: nat | off < BlockLen(bs, |inner|, blk) ensures ByteShows(St(), shown, blk, off) {
        }
      }
    }

    function Len(blk: nat): (r: nat)
      requires InDevice(bs, |inner|, blk)
      reads this
    {
      BlockLen(bs, |inner|, blk)
    }

    /** Brings a cached block's valid bytes to the whole block, keeping those the cache has. */
    method FillEntry(blk: nat)
      requires Valid() && blk in cache
      modifies this`cache
      ensures Valid() && cache.Keys == old(cache.Keys)
      ensures InDevice(bs, |inner|, blk) && cache[blk].v0 == 0 && cache[blk].v1 == |cache[blk].data| == Len(blk)
    {
      FillShows(St(), shown, blk);
      var device := inner[Start(bs, blk)..Start(bs, blk) + BlockLen(bs, |inner|, blk)];
      cache := cache[blk := Filled(cache[blk], device)];
    }

    method Touch(blk: nat)
      requires Valid() && blk in cache
      modifies this`cache, this`tick
      ensures Valid() && tick == old(tick) + 1
      ensures cache == old(cache)[blk := old(cache)[blk].(tick := tick)]
    {
      TouchShows(St(), shown, blk, tick + 1);
      tick := tick + 1;
      cache := cache[blk := cache[blk].(tick := tick)];
    }

    /** The next block of `blocks` carries on where block `blk` ends on the device. */
    predicate NextJoins(blocks: seq<nat>, blk: nat, d1: nat, len: nat)
      reads this
    {
      d1 == len && blk + 1 in blocks && blk + 1 in cache && cache[blk + 1].IsDirty() && cache[blk + 1].d0 == 0
    }

    /** Takes one block's dirty bytes into the run, and drops the block or marks it clean. */
    method GatherBlock(blocks: seq<nat>, remove: bool, ghost was: State, ghost done: nat, blk: nat, runStart: nat, run: seq<Byte>)
      returns (start: nat, bytes: seq<Byte>)
      requires Pending(was, blocks, remove, done, St(), shown, runStart, run) && Ascending(blocks)
      requires done < |blocks| && blk == blocks[done] && blk in cache && cache[blk].IsDirty()
      modifies this`cache
      ensures Gathered(was, blocks, remove, done + 1, St(), shown, start, bytes)
      ensures bytes != [] && start + |bytes| == Start(bs, blk) + old(cache)[blk].d1 && (!remove ==> blk in cache)
    {
      GatherShows(was, blocks, remove, done, St(), shown, runStart, run);
      var e := cache[blk];
      start := if run == [] then Start(bs, blk) + e.d0 else runStart;
      bytes := RunBytes(e, run);
      cache := if remove then cache - {blk} else cache[blk := e.(d0 := 0, d1 := 0)];
      assert St() == Backed(old(St()), blk, remove);
    }

    /** One turn of a write-back: the block's bytes join the run, and the run goes out unless the next block continues it. */
    method BackOneBlock(blocks: seq<nat>, remove: bool, ghost was: State, i: nat, runStart: nat, run: seq<Byte>)
      returns (start: nat, bytes: seq<Byte>)
      requires Pending(was, blocks, remove, i, St(), shown, runStart, run) && Ascending(blocks) && i < |blocks|
      modifies this`cache, this`inner
      ensures Pending(was, blocks, remove, i + 1, St(), shown, start, bytes)
    {
      var blk := blocks[i];
      start, bytes := runStart, run;
      if blk !in cache || !cache[blk].IsDirty() {
        CleanStep(was, blocks, remove, i, St(), shown, runStart);
        if remove {
          ghost var next := Without(St(), blk);
          cache := cache - {blk};
          assert St() == next;
        }
        return;
      }
      GatherShows(was, blocks, remove, i, St(), shown, runStart, run);
      var d1, len := cache[blk].d1, |cache[blk].data|;
      start, bytes := GatherBlock(blocks, remove, was, i, blk, runStart, run);
      if NextJoins(blocks, blk, d1, len) {
        JoinedRun(blocks, i, St(), shown, start, bytes, len);
      } else {
        PatchNothing(Patch(inner, start, bytes), 0);
        inner, start, bytes := Patch(inner, start, bytes), 0, [];
      }
    }

    /** Writes the given blocks' dirty bytes back, ranges that continue one another as a single write. */
    method WriteBack(blocks: seq<nat>, remove: bool)
      requires Shows(St(), shown) && Ascending(blocks)
      modifies this`cache, this`inner
      ensures Shows(St(), shown)
      ensures inner == WroteEach(old(St()), blocks)
      ensures cache == AfterBack(old(cache), blocks, remove)
    {
      ghost var was := St();
      var start, run := 0, [];
      PatchNothing(inner, 0);
      assert AfterBack(cache, [], remove) == cache;
      for i := 0 to |blocks|
        invariant Pending(was, blocks, remove, i, St(), shown, start, run)
      {
        start, run := BackOneBlock(blocks, remove, was, i, start, run);
      }
      PatchNothing(inner, start);
      assert blocks[..|blocks|] == blocks;
    }

    /** Makes room for one more block, evicting the least recently used eighth of a full cache. */
    method MakeRoom()
      requires Valid()
      modifies this`cache, this`inner
      ensures Valid() && |inner| == old(|inner|)
      ensures |cache| < maxBlocks && cache.Keys <= old(cache.Keys)
      ensures forall blk :: blk in cache ==> cache[blk] == old(cache)[blk]
      ensures old(|cache|) < maxBlocks ==> cache == old(cache) && inner == old(inner)
      ensures old(|cache|) == maxBlocks ==>
                && |cache| == maxBlocks - maxBlocks / 8
                && forall a, b :: a in old(cache) && a !in cache && b in cache ==> Older(old(cache), a, b)
    {
      if |cache| < maxBlocks {
        return;
      }
      var batch := maxBlocks / 8;
      var oldest := Oldest(cache, batch);
      var victims := Sorted(oldest);
      ghost var was := cache;
      WriteBack(victims, true);
      assert cache == was - oldest;
      assert cache.Keys == was.Keys - oldest;
      assert |was.Keys - oldest| == |was.Keys| - |oldest|;
    }

    /** Writes every dirty byte back: the device becomes what is shown. */
    method Flush()
      requires Valid()
      modifies this`cache, this`inner
      ensures Valid() && inner == shown
      ensures cache.Keys == old(cache.Keys) && forall blk :: blk in cache ==> cache[blk] == Clean(old(cache)[blk])
    {
      var dirty := Sorted(set blk | blk in cache && cache[blk].IsDirty());
      ghost var was := cache;
      WriteBack(dirty, false);
      assert cache.Keys == was.Keys;
      assert |cache| == |cache.Keys| && |was| == |was.Keys|;
      CleanDeviceIsShown(St(), shown);
    }

    /** A cached block's bytes `s..t`, filling the block in first when some of them are not valid. */
    method ReadHit(blk: nat, s: nat, t: nat) returns (bytes: seq<Byte>)
      requires Valid() && blk in cache && InDevice(bs, |inner|, blk) && s <= t <= Len(blk)
      modifies this`cache, this`tick
      ensures Valid() && cache.Keys == old(cache.Keys) && blk in cache && cache[blk].tick == tick == old(tick) + 1
      ensures bytes == shown[Start(bs, blk) + s..Start(bs, blk) + t]
    {
      if s < cache[blk].v0 || cache[blk].v1 < t {
        FillEntry(blk);
      }
      Touch(blk);
      HitReads(St(), shown, blk, s, t);
      bytes := cache[blk].data[s..t];
    }

    /** Caches a block just read from the device. */
    method InsertClean(blk: nat, data: seq<Byte>)
      requires Valid() && blk !in cache && InDevice(bs, |inner|, blk)
      requires data == shown[Start(bs, blk)..Start(bs, blk) + Len(blk)]
      modifies this`cache, this`inner, this`tick
      ensures Valid() && |inner| == old(|inner|) && tick == old(tick) + 1 && cache.Keys <= old(cache.Keys) + {blk}
    {
      MakeRoom();
      MissReads(St(), shown, blk);
      tick := tick + 1;
      var e := Entry(data, 0, |data|, 0, 0, tick);
      InsertCleanShows(St(), shown, blk, e);
      cache := cache[blk := e];
      assert |cache| == |cache.Keys|;
    }

    /** The blocks from `first` up to `blk` in one read of the device, as long as their lengths add up to. */
    method ReadRun(first: nat, blk: nat) returns (data: seq<Byte>)
      requires 0 < bs && first < blk && forall b :: first <= b < blk ==> InDevice(bs, |inner|, b)
      ensures Start(bs, first) <= RunEnd(bs, |inner|, blk) <= |inner|
      ensures data == inner[Start(bs, first)..RunEnd(bs, |inner|, blk)]
    {
      var len: nat := 0;
      RunGrows(bs, |inner|, first);
      for b := first to blk
        invariant Start(bs, first) + len == RunEnd(bs, |inner|, b) <= |inner|
      {
        RunGrows(bs, |inner|, b);
        len := len + BlockLen(bs, |inner|, b);
      }
      data := inner[Start(bs, first)..Start(bs, first) + len];
    }

    /** Caches the blocks of a run, each of which may push others out. */
    method InsertRun(first: nat, blk: nat, data: seq<Byte>)
      requires Valid() && first < blk && InDevice(bs, |inner|, blk - 1) && forall b :: first <= b < blk ==> b !in cache
      requires Start(bs, first) <= RunEnd(bs, |shown|, blk) <= |shown| && data == shown[Start(bs, first)..RunEnd(bs, |shown|, blk)]
      modifies this`cache, this`inner, this`tick
      ensures Valid() && |inner| == old(|inner|)
    {
      var consumed: nat := 0;
      InDeviceBelow(bs, |inner|, first, blk - 1);
      RunGrows(bs, |inner|, first);
      for b := first to blk
        invariant Valid() && |inner| == old(|inner|)
        invariant forall x :: b <= x < blk ==> x !in cache
        invariant Start(bs, first) + consumed == RunEnd(bs, |shown|, b)
      {
        InDeviceBelow(bs, |inner|, b, blk - 1);
        consumed := InsertNext(first, b, blk, data, consumed);
      }
    }

    method InsertNext(first: nat, b: nat, blk: nat, data: seq<Byte>, consumed: nat) returns (next: nat)
      requires Valid() && first <= b < blk && InDevice(bs, |inner|, b) && b !in cache
      requires Start(bs, first) <= RunEnd(bs, |shown|, blk) <= |shown| && data == shown[Start(bs, first)..RunEnd(bs, |shown|, blk)]
      requires Start(bs, first) + consumed == RunEnd(bs, |shown|, b)
      modifies this`cache, this`inner, this`tick
      ensures Valid() && |inner| == old(|inner|) && cache.Keys <= old(cache.Keys) + {b}
      ensures Start(bs, first) + next == RunEnd(bs, |shown|, b + 1)
    {
      BlockOfRun(bs, shown, first, b, blk, consumed);
      next := consumed + BlockLen(bs, |inner|, b);
      InsertClean(b, data[consumed..next]);
    }

    /** How far the uncached blocks from `first` reach, within a request. */
    method MissEnd(offset: nat, end: nat, first: nat, last: nat) returns (blk: nat)
      requires 0 < bs && offset < end <= |inner| && BlockOf(bs, offset) <= first <= last == BlockOf(bs, end - 1) && first !in cache
      ensures first < blk <= last + 1
      ensures forall b :: first <= b < blk ==> b !in cache && InDevice(bs, |inner|, b)
    {
      blk := first;
      while blk <= last && blk !in cache
        invariant first <= blk <= last + 1 && (blk == first ==> first !in cache)
        invariant forall b :: first <= b < blk ==> b !in cache && InDevice(bs, |inner|, b)
      {
        RangeBlocks(bs, offset, end, blk);
        assert InDevice(bs, |inner|, blk);
        blk := blk + 1;
      }
    }

    /** Reads a run of uncached blocks in one go, serves the part asked for, then caches the blocks. */
    method ReadMiss(offset: nat, end: nat, first: nat, last: nat) returns (blk: nat, bytes: seq<Byte>)
      requires Valid() && offset < end <= |inner| && BlockOf(bs, offset) <= first <= last == BlockOf(bs, end - 1) && first !in cache
      modifies this`cache, this`inner, this`tick
      ensures Valid() && |inner| == old(|inner|) && first < blk <= last + 1
      ensures At(bs, offset, end, first) <= At(bs, offset, end, blk) <= |shown|
      ensures bytes == shown[At(bs, offset, end, first)..At(bs, offset, end, blk)]
    {
      blk := MissEnd(offset, end, first, last);
      var data;
      data, bytes := ServeRun(offset, end, first, blk);
      InsertRun(first, blk, data);
    }

    /** Reads a run of uncached blocks, and picks from it what is asked for. */
    method ServeRun(offset: nat, end: nat, first: nat, blk: nat) returns (data: seq<Byte>, bytes: seq<Byte>)
      requires Valid() && offset < end <= |inner| && BlockOf(bs, offset) <= first < blk <= BlockOf(bs, end - 1) + 1
      requires forall b :: first <= b < blk ==> b !in cache && InDevice(bs, |inner|, b)
      ensures Start(bs, first) <= RunEnd(bs, |shown|, blk) <= |shown| && data == shown[Start(bs, first)..RunEnd(bs, |shown|, blk)]
      ensures At(bs, offset, end, first) <= At(bs, offset, end, blk) <= |shown|
      ensures bytes == shown[At(bs, offset, end, first)..At(bs, offset, end, blk)]
    {
      data := ReadRun(first, blk);
      bytes := PartOf(offset, end, first, blk, data);
    }

    /** The part of a run's data that a read asks for. */
    method PartOf(offset: nat, end: nat, first: nat, blk: nat, data: seq<Byte>) returns (bytes: seq<Byte>)
      requires Valid() && offset < end <= |inner| && BlockOf(bs, offset) <= first < blk <= BlockOf(bs, end - 1) + 1
      requires forall b :: first <= b < blk ==> b !in cache && InDevice(bs, |inner|, b)
      requires Start(bs, first) <= RunEnd(bs, |inner|, blk) <= |inner| && data == inner[Start(bs, first)..RunEnd(bs, |inner|, blk)]
      ensures data == shown[Start(bs, first)..RunEnd(bs, |shown|, blk)]
      ensures At(bs, offset, end, first) <= At(bs, offset, end, blk) <= |shown|
      ensures bytes == shown[At(bs, offset, end, first)..At(bs, offset, end, blk)]
    {
      var start := Start(bs, first);
      var rs := if offset < start then start else offset;
      var re := if end < start + |data| then end else start + |data|;
      MissServed(St(), shown, offset, end, first, blk, data, rs, re);
      bytes := data[rs - start..re - start];
    }

    method ReadAt(offset: nat, n: nat) returns (r: Result<seq<Byte>>)
      requires Valid()
      modifies this`cache, this`inner, this`tick
      ensures Valid() && |inner| == old(|inner|)
      ensures r == if offset + n <= |shown| then Ok(shown[offset..offset + n]) else OutOfBounds
    {
      if offset + n > |inner| {
        return OutOfBounds;
      }
      if n == 0 {
        assert shown[offset..offset] == [];
        return Ok([]);
      }
      var end := offset + n;
      var last, blk, out := BlockOf(bs, end - 1), BlockOf(bs, offset), [];
      RangeEnds(bs, offset, end);
      while blk <= last
        invariant Valid() && |inner| == old(|inner|) && BlockOf(bs, offset) <= blk <= last + 1
        invariant offset <= At(bs, offset, end, blk) <= |shown| && out == shown[offset..At(bs, offset, end, blk)]
        decreases last + 1 - blk
      {
        var next, bytes := ReadPiece(offset, end, blk, last);
        JoinSlices(shown, offset, At(bs, offset, end, blk), At(bs, offset, end, next));
        out, blk := out + bytes, next;
      }
      return Ok(out);
    }

    /** The next part of a read: one cached block, or a run of blocks from the device. */
    method ReadPiece(offset: nat, end: nat, blk: nat, last: nat) returns (next: nat, bytes: seq<Byte>)
      requires Valid() && offset < end <= |inner| && BlockOf(bs, offset) <= blk <= last == BlockOf(bs, end - 1)
      modifies this`cache, this`inner, this`tick
      ensures Valid() && |inner| == old(|inner|) && blk < next <= last + 1
      ensures At(bs, offset, end, blk) <= At(bs, offset, end, next) <= |shown|
      ensures bytes == shown[At(bs, offset, end, blk)..At(bs, offset, end, next)]
    {
      if blk !in cache {
        next, bytes := ReadMiss(offset, end, blk, last);
        return;
      }
      bytes := ReadCached(offset, end, blk);
      next := blk + 1;
    }

    /** The part of a read that falls in a cached block. */
    method ReadCached(offset: nat, end: nat, blk: nat) returns (bytes: seq<Byte>)
      requires Valid() && offset < end <= |inner| && BlockOf(bs, offset) <= blk <= BlockOf(bs, end - 1) && blk in cache
      modifies this`cache, this`tick
      ensures Valid() && At(bs, offset, end, blk) <= At(bs, offset, end, blk + 1) <= |shown|
      ensures bytes == shown[At(bs, offset, end, blk)..At(bs, offset, end, blk + 1)]
    {
      var s, t := Piece(bs, |inner|, offset, end, blk);
      bytes := ReadHit(blk, s, t);
    }

    /** Makes sure block `blk` has an entry: an absent one starts with no valid byte, at `s`, and no read. */
    method EnsureEntry(blk: nat, s: nat)
      requires Valid() && InDevice(bs, |inner|, blk) && s <= Len(blk)
      modifies this`cache, this`inner, this`tick
      ensures Valid() && |inner| == old(|inner|) && blk in cache
      ensures blk in old(cache) ==> cache == old(cache) && inner == old(inner)
      ensures blk !in old(cache) ==> cache[blk].v0 == cache[blk].v1 == s
    {
      if blk !in cache {
        MakeRoom();
        tick := tick + 1;
        var e := Entry(Zeroes(BlockLen(bs, |inner|, blk)), s, s, s, s, tick);
        InsertEmptyShows(St(), shown, blk, e);
        cache := cache[blk := e];
        assert |cache| == |cache.Keys|;
      }
    }

    /** Takes `bytes` into block `blk` at `s`, filling the block in first if they would leave a gap in its valid bytes. */
    method WriteInBlock(blk: nat, s: nat, bytes: seq<Byte>, ghost at: nat)
      requires Valid() && InDevice(bs, |inner|, blk) && 0 < |bytes| && s + |bytes| <= Len(blk) && at == Start(bs, blk) + s
      modifies this`cache, this`inner, this`tick, this`shown
      ensures Valid() && |inner| == old(|inner|) && at + |bytes| <= |inner|
      ensures shown == Patch(old(shown), at, bytes)
    {
      EnsureEntry(blk, s);
      if s > cache[blk].v1 || s + |bytes| < cache[blk].v0 {
        FillEntry(blk);
      }
      PutEntry(blk, s, bytes);
    }

    /** Applies a write to a block whose valid bytes it touches. */
    method PutEntry(blk: nat, s: nat, bytes: seq<Byte>)
      requires Valid() && blk in cache && InDevice(bs, |inner|, blk) && 0 < |bytes| && s + |bytes| <= Len(blk)
      requires s <= cache[blk].v1 && cache[blk].v0 <= s + |bytes|
      modifies this`cache, this`tick, this`shown
      ensures Valid() && tick == old(tick) + 1 && cache.Keys == old(cache.Keys)
      ensures shown == Patch(old(shown), Start(bs, blk) + s, bytes)
    {
      tick := tick + 1;
      assert BlockShows(St(), shown, blk);
      PutShows(St(), shown, blk, s, bytes, tick);
      ghost var was := cache.Keys;
      cache := cache[blk := Put(cache[blk], s, bytes, tick)];
      shown := Patch(shown, Start(bs, blk) + s, bytes);
      assert cache.Keys == was && |cache| == |was|;
    }

    /** The part of a write that falls in block `blk`. */
    method WritePiece(offset: nat, buf: seq<Byte>, blk: nat) returns (a: nat, b: nat)
      requires Valid() && 0 < |buf| && offset + |buf| <= |inner|
      requires BlockOf(bs, offset) <= blk <= BlockOf(bs, offset + |buf| - 1)
      modifies this`cache, this`inner, this`tick, this`shown
      ensures Valid() && |inner| == old(|inner|)
      ensures a == At(bs, offset, offset + |buf|, blk) && b == At(bs, offset, offset + |buf|, blk + 1)
      ensures offset <= a < b <= offset + |buf| && shown == Patch(old(shown), a, buf[a - offset..b - offset])
    {
      var s, t := Piece(bs, |inner|, offset, offset + |buf|, blk);
      a, b := Start(bs, blk) + s, Start(bs, blk) + t;
      WriteInBlock(blk, s, buf[a - offset..b - offset], a);
    }

    method WriteAt(offset: nat, buf: seq<Byte>) returns (r: Result<()>)
      requires Valid()
      modifies this`cache, this`inner, this`tick, this`shown
      ensures Valid() && |inner| == old(|inner|)
      ensures r.OutOfBounds? <==> offset + |buf| > old(|shown|)
      ensures shown == if r.Ok? then Patch(old(shown), offset, buf) else old(shown)
    {
      if offset + |buf| > |inner| {
        return OutOfBounds;
      }
      if |buf| == 0 {
        PatchNothing(shown, offset);
      } else {
        WriteBlocks(offset, buf);
      }
      return Ok(());
    }

    method WriteBlocks(offset: nat, buf: seq<Byte>)
      requires Valid() && 0 < |buf| && offset + |buf| <= |inner|
      modifies this`cache, this`inner, this`tick, this`shown
      ensures Valid() && |inner| == old(|inner|) && shown == Patch(old(shown), offset, buf)
    {
      var first, last := BlockOf(bs, offset), BlockOf(bs, offset + |buf| - 1);
      ghost var was := shown;
      WritingStart(offset, buf, first, last);
      for blk := first to last + 1
        invariant Writing(offset, buf, first, last, blk, was)
      {
        WriteNext(offset, buf, first, last, blk, was);
      }
      WritingEnd(offset, buf, first, last, was);
    }

    /** A write that has come as far as block `blk`. */
    ghost predicate Writing(offset: nat, buf: seq<Byte>, first: nat, last: nat, blk: nat, was: seq<Byte>)
      reads this
    {
      && 0 < bs && 0 < |buf| && first == BlockOf(bs, offset) && last == BlockOf(bs, offset + |buf| - 1)
      && Valid() && |inner| == |was| && WrittenTo(was, shown, offset, buf, At(bs, offset, offset + |buf|, blk))
    }

    lemma WritingStart(offset: nat, buf: seq<Byte>, first: nat, last: nat)
      requires Valid() && 0 < |buf| && offset + |buf| <= |inner|
      requires first == BlockOf(bs, offset) && last == BlockOf(bs, offset + |buf| - 1)
      ensures Writing(offset, buf, first, last, first, shown) && first <= last
    {
      RangeEnds(bs, offset, offset + |buf|);
      WrittenNone(shown, offset, buf);
    }

    lemma WritingEnd(offset: nat, buf: seq<Byte>, first: nat, last: nat, was: seq<Byte>)
      requires Writing(offset, buf, first, last, last + 1, was)
      ensures Valid() && |inner| == |was| && offset + |buf| <= |was| && shown == Patch(was, offset, buf)
    {
      RangeEnds(bs, offset, offset + |buf|);
      WrittenAll(was, shown, offset, buf);
    }

    method WriteNext(offset: nat, buf: seq<Byte>, ghost first: nat, ghost last: nat, blk: nat, ghost was: seq<Byte>)
      requires first <= blk <= last && Writing(offset, buf, first, last, blk, was)
      modifies this`cache, this`inner, this`tick, this`shown
      ensures Writing(offset, buf, first, last, blk + 1, was)
    {
      ghost var before := shown;
      var a, b := WritePiece(offset, buf, blk);
      WrittenOn(was, before, shown, offset, buf, a, b);
    }

    /** Zeroing the part of a range in block `blk`: a block zeroed whole leaves the cache, others are zeroed where valid. */
    method ZeroPiece(offset: nat, end: nat, blk: nat, ghost device: seq<Byte>, ghost view: seq<Byte>)
      returns (ghost a: nat, ghost b: nat)
      requires 0 < bs && offset < end <= |inner| == |device| && BlockOf(bs, offset) <= blk <= BlockOf(bs, end - 1)
      requires Shows(State(bs, device, cache), view)
      modifies this`cache
      ensures cache.Keys <= old(cache.Keys)
      ensures a == At(bs, offset, end, blk) && b == At(bs, offset, end, blk + 1) && offset <= a <= b <= end
      ensures Shows(State(bs, Blank(device, a, b), cache), Blank(view, a, b))
    {
      var s, t := Piece(bs, |inner|, offset, end, blk);
      ghost var st := State(bs, device, cache);
      a, b := Start(bs, blk) + s, Start(bs, blk) + t;
      ghost var device', view' := Blank(device, a, b), Blank(view, a, b);
      BlankIs(device, a, b);
      BlankIs(view, a, b);
      if blk !in cache {
        ZeroBareShows(st, view, blk, s, t, device', view');
        assert cache - {blk} == cache;
      } else if s == 0 && t == |cache[blk].data| {
        assert BlockShows(st, view, blk);
        ZeroBareShows(st, view, blk, s, t, device', view');
        cache := cache - {blk};
      } else {
        ZeroCachedShows(st, view, blk, s, t, device', view');
        cache := cache[blk := Zeroed(cache[blk], s, t)];
      }
    }

    /** The cached side of a zeroing: afterwards the view is right for a device with those bytes zero. */
    method ZeroBlocks(offset: nat, end: nat)
      requires Valid() && offset < end <= |inner|
      modifies this`cache
      ensures |cache| <= maxBlocks
      ensures Shows(State(bs, Blank(inner, offset, end), cache), Blank(shown, offset, end))
    {
      var first, last := BlockOf(bs, offset), BlockOf(bs, end - 1);
      RangeEnds(bs, offset, end);
      ghost var device, view := inner, shown;
      ZeroedNothing(St(), view, offset);
      ghost var at := offset;
      for blk := first to last + 1
        invariant inner == device && shown == view && |cache| <= maxBlocks
        invariant at == At(bs, offset, end, blk) && ZeroedTo(State(bs, device, cache), view, offset, at)
      {
        at := ZeroNext(offset, end, blk, view, at);
      }
    }

    method ZeroNext(offset: nat, end: nat, blk: nat, ghost view: seq<Byte>, ghost at: nat) returns (ghost next: nat)
      requires 0 < bs && offset < end <= |inner| && BlockOf(bs, offset) <= blk <= BlockOf(bs, end - 1) && |cache| <= maxBlocks
      requires at == At(bs, offset, end, blk) && ZeroedTo(St(), view, offset, at)
      modifies this`cache
      ensures |cache| <= maxBlocks && next == At(bs, offset, end, blk + 1) && ZeroedTo(St(), view, offset, next)
    {
      ghost var was, device, seen := cache.Keys, Blank(inner, offset, at), Blank(view, offset, at);
      ghost var a, b := ZeroPiece(offset, end, blk, device, seen);
      FewerKeys(cache.Keys, was);
      ZeroedOn(bs, inner, cache, view, offset, at, b, device, seen);
      next := b;
    }

    method WriteZeroes(offset: nat, n: nat) returns (r: Result<()>)
      requires Valid()
      modifies this`cache, this`inner, this`shown
      ensures Valid() && |inner| == old(|inner|)
      ensures r.OutOfBounds? <==> offset + n > old(|shown|)
      ensures shown == if r.Ok? then Patch(old(shown), offset, Zeroes(n)) else old(shown)
    {
      if offset + n > |inner| {
        return OutOfBounds;
      }
      if n == 0 {
        PatchNothing(shown, offset);
        assert Zeroes(0) == [];
        return Ok(());
      }
      ZeroBlocks(offset, offset + n);
      inner := Patch(inner, offset, Zeroes(n));
      shown := Patch(shown, offset, Zeroes(n));
      return Ok(());
    }
  }

  /** The first bytes of `buf`, up to address `at`, have been written over `was`. */
  ghost predicate WrittenTo(was: seq<Byte>, shown: seq<Byte>, offset: nat, buf: seq<Byte>, at: nat)
  {
    && offset <= at <= offset + |buf| <= |was| == |shown|
    && shown == Patch(was, offset, buf[..at - offset])
  }

  lemma WrittenNone(was: seq<Byte>, offset: nat, buf: seq<Byte>)
    requires offset + |buf| <= |was|
    ensures WrittenTo(was, was, offset, buf, offset)
  {
    PatchNothing(was, offset);
    assert buf[..0] == [];
  }

  lemma WrittenAll(was: seq<Byte>, shown: seq<Byte>, offset: nat, buf: seq<Byte>)
    requires WrittenTo(was, shown, offset, buf, offset + |buf|)
    ensures shown == Patch(was, offset, buf)
  {
    assert buf[..|buf|] == buf;
  }

  lemma WrittenOn(was: seq<Byte>, shown: seq<Byte>, shown': seq<Byte>, offset: nat, buf: seq<Byte>, a: nat, b: nat)
    requires WrittenTo(was, shown, offset, buf, a) && a <= b <= offset + |buf|
    requires shown' == Patch(shown, a, buf[a - offset..b - offset])
    ensures WrittenTo(was, shown', offset, buf, b)
  {
    var head, more, whole := buf[..a - offset], buf[a - offset..b - offset], buf[..b - offset];
    assert whole == head + more;
    PatchChain(was, shown, shown', offset, head, more, whole);
  }

  /** With `offset..end` zeroed on the device, the cache shows the view with it zeroed. */
  ghost predicate ZeroedTo(st: State, view: seq<Byte>, offset: nat, end: nat)
  {
    && offset <= end <= |st.inner| == |view|
    && Shows(State(st.bs, Blank(st.inner, offset, end), st.cache), Blank(view, offset, end))
  }

  lemma ZeroedOn(bs: nat, inner: seq<Byte>, cache: map<nat, Entry>, view: seq<Byte>, offset: nat, a: nat, b: nat,
                 device: seq<Byte>, seen: seq<Byte>)
    requires offset <= a <= b <= |inner| == |view| && device == Blank(inner, offset, a) && seen == Blank(view, offset, a)
    requires Shows(State(bs, Blank(device, a, b), cache), Blank(seen, a, b))
    ensures ZeroedTo(State(bs, inner, cache), view, offset, b)
  {
    MoreZeroes(inner, offset, a, b);
    MoreZeroes(view, offset, a, b);
  }

  lemma ZeroedNothing(st: State, view: seq<Byte>, offset: nat)
    requires Shows(st, view) && offset <= |view|
    ensures ZeroedTo(st, view, offset, offset)
  {
    PatchNothing(st.inner, offset);
    PatchNothing(view, offset);
    assert Zeroes(0) == [];
  }

  lemma FewerKeys(a: set<nat>, b: set<nat>)
    requires a <= b
    ensures |a| <= |b|
  {
    assert |b - a| == |b| - |a|;
  }

  // ---- Any sequence of operations ----

  datatype Request =
    | Read(offset: nat, n: nat)
    | Write(offset: nat, buf: seq<Byte>)
    | Zero(offset: nat, n: nat)
    | Sync

  datatype Reply = Bytes(bytes: seq<Byte>) | Done | Refused

  /** What a plain array does with a request: the reply, and the array afterwards. */
  function Answer(flat: seq<Byte>, req: Request): (r: (Reply, seq<Byte>))
    ensures |r.1| == |flat|
  {
    match req
    case Read(offset, n) =>
      (if offset + n <= |flat| then Bytes(flat[offset..offset + n]) else Refused, flat)
    case Write(offset, buf) =>
      if offset + |buf| <= |flat| then (Done, Patch(flat, offset, buf)) else (Refused, flat)
    case Zero(offset, n) =>
      if offset + n <= |flat| then (Done, Patch(flat, offset, Zeroes(n))) else (Refused, flat)
    case Sync => (Done, flat)
  }

  /** The array after the first `i` requests. */
  function After(flat: seq<Byte>, reqs: seq<Request>, i: nat): (r: seq<Byte>)
    requires i <= |reqs|
    ensures |r| == |flat|
  {
    if i == 0 then flat else Answer(After(flat, reqs, i - 1), reqs[i - 1]).1
  }

  method Serve(dev: CachedDevice, req: Request) returns (reply: Reply)
    requires dev.Valid()
    modifies dev
    ensures dev.Valid()
    ensures (reply, dev.shown) == Answer(old(dev.shown), req)
    ensures req.Sync? ==> dev.inner == dev.shown
  {
    match req {
      case Read(offset, n) =>
        var r := dev.ReadAt(offset, n);
        reply := if r.Ok? then Bytes(r.value) else Refused;
      case Write(offset, buf) =>
        var r := dev.WriteAt(offset, buf);
        reply := if r.Ok? then Done else Refused;
      case Zero(offset, n) =>
        var r := dev.WriteZeroes(offset, n);
        reply := if r.Ok? then Done else Refused;
      case Sync =>
        dev.Flush();
        reply := Done;
    }
  }

  /** Whatever is asked of it, in whatever order, the cached device answers as a plain array would; flushed, it is that array. */
  method ServeAll(dev: CachedDevice, reqs: seq<Request>) returns (replies: seq<Reply>)
    requires dev.Valid()
    modifies dev
    ensures dev.Valid() && dev.inner == dev.shown == After(old(dev.shown), reqs, |reqs|)
    ensures AnsweredTo(old(dev.shown), reqs, replies, |reqs|)
  {
    replies := [];
    ghost var flat := dev.shown;
    for i := 0 to |reqs|
      invariant dev.Valid() && dev.shown == After(flat, reqs, i)
      invariant AnsweredTo(flat, reqs, replies, i)
    {
      var reply := Serve(dev, reqs[i]);
      AnsweredMore(flat, reqs, replies, reply, i);
      replies := replies + [reply];
    }
    dev.Flush();
  }

  lemma AnsweredMore(flat: seq<Byte>, reqs: seq<Request>, replies: seq<Reply>, reply: Reply, i: nat)
    requires i < |reqs| && AnsweredTo(flat, reqs, replies, i) && reply == Answer(After(flat, reqs, i), reqs[i]).0
    ensures AnsweredTo(flat, reqs, replies + [reply], i + 1)
  {
    var all := replies + [reply];
    forall j | 0 <= j < |all| ensures RightReply(flat, reqs, all, j) {
      assert j < i ==> RightReply(flat, reqs, replies, j);
    }
  }

  /** The first `i` replies are a plain array's. */
  ghost predicate AnsweredTo(flat: seq<Byte>, reqs: seq<Request>, replies: seq<Reply>, i: nat)
    requires i <= |reqs|
  {
    |replies| == i && forall j :: 0 <= j < i ==> RightReply(flat, reqs, replies, j)
  }

  ghost predicate RightReply(flat: seq<Byte>, reqs: seq<Request>, replies: seq<Reply>, j: nat)
    requires j < |reqs| && j < |replies|
  {
    replies[j] == Answer(After(flat, reqs, j), reqs[j]).0
  }
}
