// A write-back block cache, as values: what a set of cached blocks over a
// device shows to a reader, and which changes to them that view survives.
module CacheModel {
  import opened Arith
  import opened Bytes

  /** One cached block: `valid` bytes mean something, `dirty` ones the device does not have yet. */
  datatype Entry = Entry(data: seq<Byte>, v0: nat, v1: nat, d0: nat, d1: nat, tick: nat)
  {
    predicate IsDirty() { d0 < d1 }

    predicate DirtyAt(off: nat) { d0 <= off < d1 }

    predicate ValidAt(off: nat) { v0 <= off < v1 }

    predicate Ok(len: nat)
    {
      && |data| == len && v0 <= v1 <= len
      && (IsDirty() ==> v0 <= d0 && d1 <= v1)
    }
  }

  /** A cache over a device: block size, device bytes, cached blocks. */
  datatype State = State(bs: nat, inner: seq<Byte>, cache: map<nat, Entry>)

  predicate InDevice(bs: nat, size: nat, blk: nat) { Start(bs, blk) < size }

  /** Length of a block: short for the last one of a device that is not a multiple of the block size. */
  function BlockLen(bs: nat, size: nat, blk: nat): (r: nat)
    requires InDevice(bs, size, blk)
    ensures r <= bs && Start(bs, blk) + r <= size && (r < bs ==> Start(bs, blk) + r == size)
  {
    if bs <= size - Start(bs, blk) then bs else size - Start(bs, blk)
  }

  /** Byte `off` of block `blk` is what `shown` has there: a valid cached byte, and the device's unless it is dirty. */
  ghost predicate ByteShows(st: State, shown: seq<Byte>, blk: nat, off: nat)
    requires blk in st.cache ==> st.cache[blk].v1 <= |st.cache[blk].data|
    requires |shown| == |st.inner| && Start(st.bs, blk) + off < |shown|
  {
    var at := Start(st.bs, blk) + off;
    && (blk in st.cache && st.cache[blk].ValidAt(off) ==> shown[at] == st.cache[blk].data[off])
    && (!(blk in st.cache && st.cache[blk].DirtyAt(off)) ==> shown[at] == st.inner[at])
  }

  ghost predicate BlockShows(st: State, shown: seq<Byte>, blk: nat)
    requires |shown| == |st.inner| && InDevice(st.bs, |st.inner|, blk)
  {
    var len := BlockLen(st.bs, |st.inner|, blk);
    && (blk in st.cache ==> st.cache[blk].Ok(len))
    && forall off: nat :: off < len ==> ByteShows(st, shown, blk, off)
  }

  /** The cache over the device looks exactly like the flat array `shown`. */
  ghost predicate Shows(st: State, shown: seq<Byte>)
  {
    && 0 < st.bs && |shown| == |st.inner|
    && (forall blk :: blk in st.cache ==> InDevice(st.bs, |st.inner|, blk))
    && forall blk: nat {:trigger BlockShows(st, shown, blk)} :: InDevice(st.bs, |st.inner|, blk) ==> BlockShows(st, shown, blk)
  }

  // ---- Blocks do not overlap ----

  /** A change inside one block leaves the view of every other block as it was. */
  lemma OtherBlocksShow(st: State, shown: seq<Byte>, st': State, shown': seq<Byte>, blk: nat, other: nat)
    requires Shows(st, shown) && InDevice(st.bs, |st.inner|, blk) && InDevice(st.bs, |st.inner|, other) && other != blk
    requires st'.bs == st.bs && |st'.inner| == |st.inner| == |shown'|
    requires other in st'.cache <==> other in st.cache
    requires other in st.cache ==> st'.cache[other] == st.cache[other]
    requires forall i {:trigger st'.inner[i]} {:trigger shown'[i]} ::
               0 <= i < |st.inner| && !(Start(st.bs, blk) <= i < Start(st.bs, blk) + BlockLen(st.bs, |st.inner|, blk)) ==>
                 st'.inner[i] == st.inner[i] && shown'[i] == shown[i]
    ensures BlockShows(st', shown', other)
  {
    assert BlockShows(st, shown, other);
    if other < blk {
      StartMonotone(st.bs, other, blk);
    } else {
      StartMonotone(st.bs, blk, other);
    }
    forall off: nat | off < BlockLen(st.bs, |st.inner|, other) ensures ByteShows(st', shown', other, off) {
      assert ByteShows(st, shown, other, off);
      var at := Start(st.bs, other) + off;
      assert st'.inner[at] == st.inner[at] && shown'[at] == shown[at];
    }
  }

  /** To show that a view survives a change inside one block, look at that block alone. */
  lemma ChangeOneBlock(st: State, shown: seq<Byte>, st': State, shown': seq<Byte>, blk: nat)
    requires Shows(st, shown) && InDevice(st.bs, |st.inner|, blk)
    requires st'.bs == st.bs && |st'.inner| == |st.inner| == |shown'|
    requires st'.cache - {blk} == st.cache - {blk}
    requires forall i {:trigger st'.inner[i]} {:trigger shown'[i]} ::
               0 <= i < |st.inner| && !(Start(st.bs, blk) <= i < Start(st.bs, blk) + BlockLen(st.bs, |st.inner|, blk)) ==>
                 st'.inner[i] == st.inner[i] && shown'[i] == shown[i]
    requires BlockShows(st', shown', blk)
    ensures Shows(st', shown')
  {
    forall other: nat | InDevice(st.bs, |st.inner|, other) ensures BlockShows(st', shown', other) {
      if other != blk {
        assert other in st'.cache <==> other in st'.cache - {blk};
        assert other in st.cache <==> other in st.cache - {blk};
        assert other in st.cache ==> (st'.cache - {blk})[other] == (st.cache - {blk})[other];
        OtherBlocksShow(st, shown, st', shown', blk, other);
      }
    }
    forall other | other in st'.cache ensures InDevice(st.bs, |st.inner|, other) {
      assert other == blk || other in st'.cache - {blk};
    }
  }

  // ---- The changes the cache makes ----

  function WithEntry(st: State, blk: nat, e: Entry): State { st.(cache := st.cache[blk := e]) }

  function Without(st: State, blk: nat): State { st.(cache := st.cache - {blk}) }

  lemma WithEntryElsewhere(st: State, blk: nat, e: Entry)
    ensures WithEntry(st, blk, e).cache - {blk} == st.cache - {blk}
    ensures Without(st, blk).cache - {blk} == st.cache - {blk}
  {
  }

  /** An entry whose valid bytes are the whole block: cached bytes where they were valid, the device's elsewhere. */
  function Filled(e: Entry, device: seq<Byte>): (r: Entry)
    requires e.Ok(|device|)
    ensures r.Ok(|device|)
    ensures forall off: nat :: off < |device| ==> r.data[off] == if e.ValidAt(off) then e.data[off] else device[off]
  {
    e.(data := device[..e.v0] + e.data[e.v0..e.v1] + device[e.v1..], v0 := 0, v1 := |device|)
  }

  function DeviceBlock(st: State, blk: nat): (r: seq<Byte>)
    requires InDevice(st.bs, |st.inner|, blk)
    ensures |r| == BlockLen(st.bs, |st.inner|, blk)
  {
    st.inner[Start(st.bs, blk)..Start(st.bs, blk) + BlockLen(st.bs, |st.inner|, blk)]
  }

  lemma FilledByteShows(st: State, shown: seq<Byte>, blk: nat, off: nat, e': Entry)
    requires |shown| == |st.inner| && InDevice(st.bs, |st.inner|, blk) && blk in st.cache && BlockShows(st, shown, blk)
    requires off < BlockLen(st.bs, |st.inner|, blk) && e' == Filled(st.cache[blk], DeviceBlock(st, blk))
    ensures ByteShows(WithEntry(st, blk, e'), shown, blk, off)
  {
    assert ByteShows(st, shown, blk, off);
    assert DeviceBlock(st, blk)[off] == st.inner[Start(st.bs, blk) + off];
  }

  lemma FillShows(st: State, shown: seq<Byte>, blk: nat)
    requires Shows(st, shown) && blk in st.cache
    ensures BlockShows(st, shown, blk)
    ensures Shows(WithEntry(st, blk, Filled(st.cache[blk], DeviceBlock(st, blk))), shown)
  {
    assert BlockShows(st, shown, blk);
    var e' := Filled(st.cache[blk], DeviceBlock(st, blk));
    var st' := WithEntry(st, blk, e');
    WithEntryElsewhere(st, blk, e');
    forall off: nat | off < BlockLen(st.bs, |st.inner|, blk) ensures ByteShows(st', shown, blk, off) {
      FilledByteShows(st, shown, blk, off, e');
    }
    ChangeOneBlock(st, shown, st', shown, blk);
  }

  /** A fresh entry holding nothing yet changes nothing. */
  lemma InsertEmptyShows(st: State, shown: seq<Byte>, blk: nat, e: Entry)
    requires Shows(st, shown) && blk !in st.cache && InDevice(st.bs, |st.inner|, blk)
    requires e.Ok(BlockLen(st.bs, |st.inner|, blk)) && e.v0 == e.v1 && !e.IsDirty()
    ensures Shows(WithEntry(st, blk, e), shown)
  {
    assert BlockShows(st, shown, blk);
    WithEntryElsewhere(st, blk, e);
    forall off: nat | off < BlockLen(st.bs, |st.inner|, blk) ensures ByteShows(WithEntry(st, blk, e), shown, blk, off) {
      assert ByteShows(st, shown, blk, off);
    }
    ChangeOneBlock(st, shown, WithEntry(st, blk, e), shown, blk);
  }

  /** Nor does a clean copy of the device's block. */
  lemma InsertCleanShows(st: State, shown: seq<Byte>, blk: nat, e: Entry)
    requires Shows(st, shown) && blk !in st.cache && InDevice(st.bs, |st.inner|, blk)
    requires e.data == DeviceBlock(st, blk) && e.v0 == 0 && e.v1 == |e.data| && !e.IsDirty()
    ensures Shows(WithEntry(st, blk, e), shown)
  {
    assert BlockShows(st, shown, blk);
    WithEntryElsewhere(st, blk, e);
    forall off: nat | off < BlockLen(st.bs, |st.inner|, blk) ensures ByteShows(WithEntry(st, blk, e), shown, blk, off) {
      assert ByteShows(st, shown, blk, off);
    }
    ChangeOneBlock(st, shown, WithEntry(st, blk, e), shown, blk);
  }

  lemma TouchShows(st: State, shown: seq<Byte>, blk: nat, tick: nat)
    requires Shows(st, shown) && blk in st.cache
    ensures Shows(WithEntry(st, blk, st.cache[blk].(tick := tick)), shown)
  {
    assert BlockShows(st, shown, blk);
    var e := st.cache[blk].(tick := tick);
    WithEntryElsewhere(st, blk, e);
    forall off: nat | off < BlockLen(st.bs, |st.inner|, blk) ensures ByteShows(WithEntry(st, blk, e), shown, blk, off) {
      assert ByteShows(st, shown, blk, off);
    }
    ChangeOneBlock(st, shown, WithEntry(st, blk, e), shown, blk);
  }

  /** The entry after `bytes` is written at `s`: valid and dirty ranges grow to take it in. */
  function Put(e: Entry, s: nat, bytes: seq<Byte>, tick: nat): Entry
    requires s + |bytes| <= |e.data|
  {
    var t := s + |bytes|;
    Entry(Patch(e.data, s, bytes),
          if s < e.v0 then s else e.v0, if e.v1 < t then t else e.v1,
          if e.IsDirty() && e.d0 < s then e.d0 else s, if e.IsDirty() && t < e.d1 then e.d1 else t,
          tick)
  }

  lemma PutOk(e: Entry, s: nat, bytes: seq<Byte>, tick: nat)
    requires e.Ok(|e.data|) && 0 < |bytes| && s + |bytes| <= |e.data| && s <= e.v1 && e.v0 <= s + |bytes|
    ensures Put(e, s, bytes, tick).Ok(|e.data|)
  {
  }

  /** Writing where the range touches the valid bytes leaves them contiguous, with any byte newly dirty valid before. */
  lemma PutByte(e: Entry, s: nat, bytes: seq<Byte>, tick: nat, off: nat)
    requires e.Ok(|e.data|) && 0 < |bytes| && s + |bytes| <= |e.data| && s <= e.v1 && e.v0 <= s + |bytes| && off < |e.data|
    ensures var e', written := Put(e, s, bytes, tick), s <= off < s + |bytes|;
            && (e'.ValidAt(off) <==> e.ValidAt(off) || written) && (e.DirtyAt(off) || written ==> e'.DirtyAt(off))
            && e'.data[off] == if written then bytes[off - s] else e.data[off]
  {
  }

  lemma PutByteShows(st: State, shown: seq<Byte>, blk: nat, s: nat, bytes: seq<Byte>, tick: nat, off: nat)
    requires |shown| == |st.inner| && InDevice(st.bs, |st.inner|, blk) && BlockShows(st, shown, blk) && blk in st.cache && 0 < |bytes|
    requires s + |bytes| <= BlockLen(st.bs, |st.inner|, blk) && |st.cache[blk].data| == BlockLen(st.bs, |st.inner|, blk)
    requires s <= st.cache[blk].v1 && st.cache[blk].v0 <= s + |bytes| && off < BlockLen(st.bs, |st.inner|, blk)
    ensures Put(st.cache[blk], s, bytes, tick).Ok(BlockLen(st.bs, |st.inner|, blk))
    ensures ByteShows(WithEntry(st, blk, Put(st.cache[blk], s, bytes, tick)), Patch(shown, Start(st.bs, blk) + s, bytes), blk, off)
  {
    PutOk(st.cache[blk], s, bytes, tick);
    PutByte(st.cache[blk], s, bytes, tick, off);
    assert ByteShows(st, shown, blk, off);
    PatchReads(shown, Start(st.bs, blk), s, bytes, off);
  }

  lemma PutShows(st: State, shown: seq<Byte>, blk: nat, s: nat, bytes: seq<Byte>, tick: nat)
    requires Shows(st, shown) && blk in st.cache && 0 < |bytes|
    requires s + |bytes| <= BlockLen(st.bs, |st.inner|, blk) && |st.cache[blk].data| == BlockLen(st.bs, |st.inner|, blk)
    requires s <= st.cache[blk].v1 && st.cache[blk].v0 <= s + |bytes|
    ensures Shows(WithEntry(st, blk, Put(st.cache[blk], s, bytes, tick)), Patch(shown, Start(st.bs, blk) + s, bytes))
  {
    assert BlockShows(st, shown, blk);
    var start, e := Start(st.bs, blk), st.cache[blk];
    var e', shown' := Put(e, s, bytes, tick), Patch(shown, start + s, bytes);
    var st' := WithEntry(st, blk, e');
    PutOk(e, s, bytes, tick);
    WithEntryElsewhere(st, blk, e');
    forall off: nat | off < BlockLen(st.bs, |st.inner|, blk) ensures ByteShows(st', shown', blk, off) {
      PutByteShows(st, shown, blk, s, bytes, tick, off);
    }
    ChangeOneBlock(st, shown, st', shown', blk);
  }

  /** What a patch at `start + s` leaves at `start + off`. */
  lemma PatchReads(b: seq<Byte>, start: nat, s: nat, patch: seq<Byte>, off: nat)
    requires start + s + |patch| <= |b| && start + off < |b|
    ensures Patch(b, start + s, patch)[start + off] == if s <= off < s + |patch| then patch[off - s] else b[start + off]
  {
  }

  /** The device after one block's dirty bytes are written back. */
  function WroteBack(st: State, blk: nat): (r: seq<Byte>)
    ensures |r| == |st.inner|
  {
    if && blk in st.cache && st.cache[blk].IsDirty()
       && st.cache[blk].d1 <= |st.cache[blk].data| && Start(st.bs, blk) + st.cache[blk].d1 <= |st.inner|
    then Patch(st.inner, Start(st.bs, blk) + st.cache[blk].d0, st.cache[blk].data[st.cache[blk].d0..st.cache[blk].d1])
    else st.inner
  }

  /** The device after each block of `blocks` is written back on its own. */
  function WroteEach(st: State, blocks: seq<nat>): (r: seq<Byte>)
    ensures |r| == |st.inner|
  {
    if blocks == [] then st.inner
    else WroteBack(st.(inner := WroteEach(st, blocks[..|blocks| - 1])), blocks[|blocks| - 1])
  }

  function Clean(e: Entry): Entry { if e.IsDirty() then e.(d0 := 0, d1 := 0) else e }

  /** The cache after `blocks` are written back: gone, or still there and clean. */
  function AfterBack(cache: map<nat, Entry>, blocks: seq<nat>, remove: bool): map<nat, Entry>
  {
    if remove then map blk | blk in cache && blk !in blocks :: cache[blk]
    else map blk | blk in cache :: if blk in blocks then Clean(cache[blk]) else cache[blk]
  }

  /** After a write-back the device has the byte shown. */
  lemma WroteBackByte(st: State, shown: seq<Byte>, blk: nat, off: nat)
    requires 0 < st.bs && |shown| == |st.inner| && InDevice(st.bs, |st.inner|, blk) && blk in st.cache
    requires off < BlockLen(st.bs, |st.inner|, blk) && BlockShows(st, shown, blk)
    ensures WroteBack(st, blk)[Start(st.bs, blk) + off] == shown[Start(st.bs, blk) + off]
  {
    assert ByteShows(st, shown, blk, off);
    var start, e := Start(st.bs, blk), st.cache[blk];
    if e.IsDirty() {
      PatchReads(st.inner, start, e.d0, e.data[e.d0..e.d1], off);
    }
  }

  lemma WriteBackByte(st: State, shown: seq<Byte>, blk: nat, off: nat, st': State)
    requires 0 < st.bs && |shown| == |st.inner| && InDevice(st.bs, |st.inner|, blk) && blk in st.cache
    requires off < BlockLen(st.bs, |st.inner|, blk) && BlockShows(st, shown, blk) && st' == st.(inner := WroteBack(st, blk))
    ensures ByteShows(WithEntry(st', blk, st.cache[blk].(d0 := 0, d1 := 0)), shown, blk, off)
    ensures ByteShows(Without(st', blk), shown, blk, off)
  {
    assert ByteShows(st, shown, blk, off);
    WroteBackByte(st, shown, blk, off);
  }

  /** Writing a block back shows the same bytes, whether the block then stays, marked clean, or leaves. */
  lemma WriteBackShows(st: State, shown: seq<Byte>, blk: nat)
    requires Shows(st, shown) && blk in st.cache
    ensures BlockShows(st, shown, blk)
    ensures var st' := st.(inner := WroteBack(st, blk));
            && Shows(WithEntry(st', blk, st.cache[blk].(d0 := 0, d1 := 0)), shown)
            && Shows(Without(st', blk), shown)
  {
    assert BlockShows(st, shown, blk);
    var st' := st.(inner := WroteBack(st, blk));
    var e' := st.cache[blk].(d0 := 0, d1 := 0);
    WithEntryElsewhere(st', blk, e');
    forall off: nat | off < BlockLen(st.bs, |st.inner|, blk)
      ensures ByteShows(WithEntry(st', blk, e'), shown, blk, off) && ByteShows(Without(st', blk), shown, blk, off)
    {
      WriteBackByte(st, shown, blk, off, st');
    }
    ChangeOneBlock(st, shown, WithEntry(st', blk, e'), shown, blk);
    ChangeOneBlock(st, shown, Without(st', blk), shown, blk);
  }

  /** The entry with `s..e` zeroed where its bytes are valid. */
  function Zeroed(e: Entry, s: nat, t: nat): (r: Entry)
    requires e.v0 <= e.v1 <= |e.data|
  {
    var z0, z1 := if s < e.v0 then e.v0 else s, if t < e.v1 then t else e.v1;
    if z0 < z1 then e.(data := Patch(e.data, z0, Zeroes(z1 - z0))) else e
  }

  function Zeroes(n: nat): (r: seq<Byte>)
    ensures |r| == n && forall i :: 0 <= i < n ==> r[i] == 0
  {
    seq(n, i => 0)
  }

  /** `b'` is `b` with bytes `x` up to `y` zero. */
  ghost predicate Blanked(b: seq<Byte>, b': seq<Byte>, x: nat, y: nat)
  {
    |b'| == |b| && forall i {:trigger b'[i]} :: 0 <= i < |b| ==> b'[i] == if x <= i < y then 0 else b[i]
  }

  /** Bytes `x` up to `y` zeroed. */
  function Blank(b: seq<Byte>, x: nat, y: nat): (r: seq<Byte>)
    requires x <= y <= |b|
    ensures |r| == |b|
  {
    Patch(b, x, Zeroes(y - x))
  }

  lemma BlankIs(b: seq<Byte>, x: nat, y: nat)
    requires x <= y <= |b|
    ensures Blanked(b, Blank(b, x, y), x, y)
  {
  }

  /** Zeroing `s..t` of one cached block, on the device and in the cached copy, zeroes exactly that in the view. */
  lemma ZeroCachedShows(st: State, shown: seq<Byte>, blk: nat, s: nat, t: nat, inner': seq<Byte>, shown': seq<Byte>)
    requires Shows(st, shown) && blk in st.cache && s <= t <= BlockLen(st.bs, |st.inner|, blk)
    requires Blanked(st.inner, inner', Start(st.bs, blk) + s, Start(st.bs, blk) + t)
    requires Blanked(shown, shown', Start(st.bs, blk) + s, Start(st.bs, blk) + t)
    ensures BlockShows(st, shown, blk)
    ensures Shows(State(st.bs, inner', st.cache[blk := Zeroed(st.cache[blk], s, t)]), shown')
  {
    assert BlockShows(st, shown, blk);
    var e' := Zeroed(st.cache[blk], s, t);
    var st', len := State(st.bs, inner', st.cache[blk := e']), BlockLen(st.bs, |st.inner|, blk);
    WithEntryElsewhere(st, blk, e');
    ZeroedEntry(st.cache[blk], len, s, t);
    forall off: nat | off < len ensures ByteShows(st', shown', blk, off) {
      var at := Start(st.bs, blk) + off;
      assert ByteShows(st, shown, blk, off);
      assert inner'[at] == (if s <= off < t then 0 else st.inner[at]) && shown'[at] == if s <= off < t then 0 else shown[at];
      SameByte(st, st', shown, shown', blk, off, s <= off < t);
    }
    ChangeOneBlock(st, shown, st', shown', blk);
  }

  /** A byte zeroed, or left alone, in the entry, on the device and in the view alike. */
  lemma SameByte(st: State, st': State, shown: seq<Byte>, shown': seq<Byte>, blk: nat, off: nat, zero: bool)
    requires blk in st.cache && blk in st'.cache && st'.bs == st.bs && |shown| == |st.inner| == |st'.inner| == |shown'|
    requires Start(st.bs, blk) + off < |shown| && st.cache[blk].v1 <= |st.cache[blk].data| == |st'.cache[blk].data|
    requires st'.cache[blk] == st.cache[blk].(data := st'.cache[blk].data)
    requires st.cache[blk].ValidAt(off) ==> st'.cache[blk].data[off] == if zero then 0 else st.cache[blk].data[off]
    requires var at := Start(st.bs, blk) + off;
             st'.inner[at] == (if zero then 0 else st.inner[at]) && shown'[at] == if zero then 0 else shown[at]
    requires ByteShows(st, shown, blk, off)
    ensures ByteShows(st', shown', blk, off)
  {
  }

  /** Zeroing an uncached block, or dropping one that is zeroed whole, does the same. */
  lemma ZeroBareShows(st: State, shown: seq<Byte>, blk: nat, s: nat, t: nat, inner': seq<Byte>, shown': seq<Byte>)
    requires Shows(st, shown) && InDevice(st.bs, |st.inner|, blk) && s <= t <= BlockLen(st.bs, |st.inner|, blk)
    requires blk !in st.cache || (s == 0 && t == BlockLen(st.bs, |st.inner|, blk))
    requires Blanked(st.inner, inner', Start(st.bs, blk) + s, Start(st.bs, blk) + t)
    requires Blanked(shown, shown', Start(st.bs, blk) + s, Start(st.bs, blk) + t)
    ensures Shows(State(st.bs, inner', st.cache - {blk}), shown')
  {
    assert BlockShows(st, shown, blk);
    var st' := State(st.bs, inner', st.cache - {blk});
    forall off: nat | off < BlockLen(st.bs, |st.inner|, blk) ensures ByteShows(st', shown', blk, off) {
      assert ByteShows(st, shown, blk, off);
    }
    ChangeOneBlock(st, shown, st', shown', blk);
  }

  lemma ZeroedEntry(e: Entry, len: nat, s: nat, t: nat)
    requires e.Ok(len) && s <= t <= len
    ensures var e' := Zeroed(e, s, t);
            && e' == e.(data := e'.data) && |e'.data| == len
            && forall off: nat :: off < len && e.ValidAt(off) ==> e'.data[off] == if s <= off < t then 0 else e.data[off]
  {
  }

  // ---- What a reader sees ----

  lemma HitByte(st: State, shown: seq<Byte>, blk: nat, off: nat)
    requires Shows(st, shown) && blk in st.cache && st.cache[blk].ValidAt(off)
    ensures BlockShows(st, shown, blk)
    ensures st.cache[blk].data[off] == shown[Start(st.bs, blk) + off]
  {
    assert BlockShows(st, shown, blk);
    assert ByteShows(st, shown, blk, off);
  }

  /** Valid cached bytes are the bytes shown. */
  lemma HitReads(st: State, shown: seq<Byte>, blk: nat, s: nat, t: nat)
    requires Shows(st, shown) && blk in st.cache && st.cache[blk].v0 <= s <= t <= st.cache[blk].v1
    ensures BlockShows(st, shown, blk)
    ensures st.cache[blk].data[s..t] == shown[Start(st.bs, blk) + s..Start(st.bs, blk) + t]
  {
    assert BlockShows(st, shown, blk);
    var start := Start(st.bs, blk);
    var a, b := st.cache[blk].data[s..t], shown[start + s..start + t];
    forall i | 0 <= i < |a| ensures a[i] == b[i] {
      HitByte(st, shown, blk, s + i);
    }
  }

  /** An uncached block's bytes on the device are the bytes shown. */
  lemma MissReads(st: State, shown: seq<Byte>, blk: nat)
    requires Shows(st, shown) && blk !in st.cache && InDevice(st.bs, |st.inner|, blk)
    ensures var start, len := Start(st.bs, blk), BlockLen(st.bs, |st.inner|, blk);
            shown[start..start + len] == st.inner[start..start + len]
  {
    assert BlockShows(st, shown, blk);
    var start, len := Start(st.bs, blk), BlockLen(st.bs, |st.inner|, blk);
    var a, b := shown[start..start + len], st.inner[start..start + len];
    forall i | 0 <= i < |a| ensures a[i] == b[i] {
      assert ByteShows(st, shown, blk, i);
    }
  }

  /** With no dirty block left, the device is what is shown. */
  lemma CleanDeviceIsShown(st: State, shown: seq<Byte>)
    requires Shows(st, shown) && forall blk :: blk in st.cache ==> !st.cache[blk].IsDirty()
    ensures st.inner == shown
  {
    forall i | 0 <= i < |shown| ensures st.inner[i] == shown[i] {
      BlockOfIsQuotient(st.bs, i);
      var blk := BlockOf(st.bs, i);
      var off := i - Start(st.bs, blk);
      assert BlockShows(st, shown, blk);
      assert ByteShows(st, shown, blk, off);
    }
  }

  // ---- Where a byte range falls in the blocks ----

  /** First byte of `offset..end` at or after block `blk`. */
  function At(bs: nat, offset: nat, end: nat, blk: nat): nat
  {
    var at := if offset < Start(bs, blk) then Start(bs, blk) else offset;
    if end < at then end else at
  }

  /** The blocks of a range are those it reaches into. */
  lemma RangeBlocks(bs: nat, offset: nat, end: nat, blk: nat)
    requires 0 < bs && offset < end && BlockOf(bs, offset) <= blk <= BlockOf(bs, end - 1)
    ensures Start(bs, blk) < end && offset < Start(bs, blk) + bs
  {
    BlockOfIsQuotient(bs, offset);
    BlockOfIsQuotient(bs, end - 1);
    StartMonotone(bs, BlockOf(bs, offset), blk);
    StartMonotone(bs, blk, BlockOf(bs, end - 1));
  }

  lemma RangeEnds(bs: nat, offset: nat, end: nat)
    requires 0 < bs && offset < end
    ensures At(bs, offset, end, BlockOf(bs, offset)) == offset
    ensures At(bs, offset, end, BlockOf(bs, end - 1) + 1) == end
    ensures BlockOf(bs, offset) <= BlockOf(bs, end - 1)
  {
    var first, last := BlockOf(bs, offset), BlockOf(bs, end - 1);
    BlockOfIsQuotient(bs, offset);
    BlockOfIsQuotient(bs, end - 1);
    if last < first {
      StartMonotone(bs, last, first);
    }
  }

  /** The part of a range in one of its blocks: from `s` to `t` within the block, up to where the next block takes over. */
  lemma RangeInBlock(bs: nat, size: nat, offset: nat, end: nat, blk: nat)
    requires 0 < bs && offset < end <= size && Start(bs, blk) < end && offset < Start(bs, blk) + bs
    ensures InDevice(bs, size, blk)
    ensures var start, len := Start(bs, blk), BlockLen(bs, size, blk);
            var s, t := (if offset < start then start else offset) - start, (if end < start + len then end else start + len) - start;
            && 0 <= s < t <= len
            && At(bs, offset, end, blk) == start + s
            && At(bs, offset, end, blk + 1) == start + t
  {
  }

  lemma PatchTwice(b: seq<Byte>, at: nat, x: seq<Byte>, y: seq<Byte>)
    requires at + |x| + |y| <= |b|
    ensures Patch(Patch(b, at, x), at + |x|, y) == Patch(b, at, x + y)
  {
  }

  lemma PatchNothing(b: seq<Byte>, at: nat)
    requires at <= |b|
    ensures Patch(b, at, []) == b
  {
  }

  // ---- Runs of uncached blocks ----

  /** Where a run of blocks up to `blk` ends: at the block's start, or the end of the device. */
  function RunEnd(bs: nat, size: nat, blk: nat): nat
  {
    if size < Start(bs, blk) then size else Start(bs, blk)
  }

  /** One more block of a run adds its length. */
  lemma RunGrows(bs: nat, size: nat, blk: nat)
    requires InDevice(bs, size, blk)
    ensures RunEnd(bs, size, blk) == Start(bs, blk)
    ensures RunEnd(bs, size, blk + 1) == Start(bs, blk) + BlockLen(bs, size, blk)
  {
  }

  /** Blocks that are not cached read straight from the device. */
  lemma {:induction false} MissRunReads(st: State, shown: seq<Byte>, first: nat, blk: nat)
    requires Shows(st, shown) && first <= blk && Start(st.bs, first) <= |shown|
    requires forall b :: first <= b < blk ==> b !in st.cache && InDevice(st.bs, |shown|, b)
    ensures Start(st.bs, first) <= RunEnd(st.bs, |shown|, blk) <= |shown|
    ensures shown[Start(st.bs, first)..RunEnd(st.bs, |shown|, blk)] == st.inner[Start(st.bs, first)..RunEnd(st.bs, |shown|, blk)]
    decreases blk
  {
    if first < blk {
      var start, mid, end := Start(st.bs, first), RunEnd(st.bs, |shown|, blk - 1), RunEnd(st.bs, |shown|, blk);
      MissRunReads(st, shown, first, blk - 1);
      RunGrows(st.bs, |shown|, blk - 1);
      MissReads(st, shown, blk - 1);
      SameSlices(shown, st.inner, start, mid, end);
    }
  }

  lemma SameSlices(a: seq<Byte>, b: seq<Byte>, x: nat, y: nat, z: nat)
    requires x <= y <= z <= |a| == |b| && a[x..y] == b[x..y] && a[y..z] == b[y..z]
    ensures a[x..z] == b[x..z]
  {
    JoinSlices(a, x, y, z);
    JoinSlices(b, x, y, z);
  }

  lemma InDeviceBelow(bs: nat, size: nat, a: nat, b: nat)
    requires a <= b && InDevice(bs, size, b)
    ensures InDevice(bs, size, a)
  {
    StartMonotone(bs, a, b);
  }

  lemma RunFits(bs: nat, size: nat, a: nat, b: nat)
    requires a <= b
    ensures RunEnd(bs, size, a) <= RunEnd(bs, size, b)
  {
    StartMonotone(bs, a, b);
  }

  /** The part of a run that a range asks for. */
  lemma ServedPart(bs: nat, size: nat, offset: nat, end: nat, first: nat, blk: nat)
    requires 0 < bs && offset < end <= size && BlockOf(bs, offset) <= first < blk <= BlockOf(bs, end - 1) + 1
    ensures var start, stop := Start(bs, first), RunEnd(bs, size, blk);
            && start <= At(bs, offset, end, first) <= At(bs, offset, end, blk) <= stop
            && At(bs, offset, end, first) == (if offset < start then start else offset)
            && At(bs, offset, end, blk) == (if end < stop then end else stop)
  {
    RangeBlocks(bs, offset, end, first);
    RangeBlocks(bs, offset, end, blk - 1);
    StartMonotone(bs, first, blk);
  }

  lemma SliceOfSlice(b: seq<Byte>, lo: nat, hi: nat, x: nat, y: nat)
    requires lo <= hi <= |b| && x <= y <= hi - lo
    ensures b[lo..hi][x..y] == b[lo + x..lo + y]
  {
    forall k | 0 <= k < y - x ensures b[lo..hi][x..y][k] == b[lo + x..lo + y][k] {
      assert b[lo..hi][x + k] == b[lo + (x + k)];
    }
  }

  /** The piece of a run's data that is block `b`. */
  lemma BlockOfRun(bs: nat, shown: seq<Byte>, first: nat, b: nat, blk: nat, consumed: nat)
    requires first <= b < blk && InDevice(bs, |shown|, b) && Start(bs, first) + consumed == RunEnd(bs, |shown|, b)
    ensures var len, end := BlockLen(bs, |shown|, b), RunEnd(bs, |shown|, blk);
            && Start(bs, first) + consumed == Start(bs, b) && Start(bs, first) + consumed + len == RunEnd(bs, |shown|, b + 1)
            && Start(bs, first) + consumed + len <= end <= |shown|
            && shown[Start(bs, first)..end][consumed..consumed + len] == shown[Start(bs, b)..Start(bs, b) + len]
  {
    RunGrows(bs, |shown|, b);
    RunFits(bs, |shown|, b + 1, blk);
    SliceOfSlice(shown, Start(bs, first), RunEnd(bs, |shown|, blk), consumed, consumed + BlockLen(bs, |shown|, b));
  }

  lemma JoinSlices(b: seq<Byte>, x: nat, y: nat, z: nat)
    requires x <= y <= z <= |b|
    ensures b[x..y] + b[y..z] == b[x..z]
  {
  }

  /** Writing a buffer piece after piece is writing it at once. */
  lemma PatchChain(b: seq<Byte>, mid: seq<Byte>, b': seq<Byte>, at: nat, head: seq<Byte>, more: seq<Byte>, whole: seq<Byte>)
    requires at + |whole| <= |b| && whole == head + more && mid == Patch(b, at, head) && b' == Patch(mid, at + |head|, more)
    ensures b' == Patch(b, at, whole)
  {
    PatchTwice(b, at, head, more);
  }

  lemma MoreZeroes(b: seq<Byte>, offset: nat, x: nat, y: nat)
    requires offset <= x <= y <= |b|
    ensures Blank(Blank(b, offset, x), x, y) == Blank(b, offset, y)
  {
    assert Zeroes(x - offset) + Zeroes(y - x) == Zeroes(y - offset);
    PatchTwice(b, offset, Zeroes(x - offset), Zeroes(y - x));
  }

  /** The part of a run's data that a range asks for is the part of the view it asks for. */
  lemma ServedBytes(bs: nat, shown: seq<Byte>, offset: nat, end: nat, first: nat, blk: nat)
    requires 0 < bs && offset < end <= |shown| && BlockOf(bs, offset) <= first < blk <= BlockOf(bs, end - 1) + 1
    ensures var start, stop, a, b := Start(bs, first), RunEnd(bs, |shown|, blk), At(bs, offset, end, first), At(bs, offset, end, blk);
            && start <= a <= b <= stop <= |shown|
            && a == (if offset < start then start else offset) && b == (if end < stop then end else stop)
            && shown[start..stop][a - start..b - start] == shown[a..b]
  {
    ServedPart(bs, |shown|, offset, end, first, blk);
    var start, stop, a, b := Start(bs, first), RunEnd(bs, |shown|, blk), At(bs, offset, end, first), At(bs, offset, end, blk);
    SliceOfSlice(shown, start, stop, a - start, b - start);
  }

  /** A run of uncached blocks read from the device holds what is shown, and so does the part of it asked for. */
  lemma MissServed(st: State, shown: seq<Byte>, offset: nat, end: nat, first: nat, blk: nat, data: seq<Byte>, rs: nat, re: nat)
    requires Shows(st, shown) && offset < end <= |shown| && BlockOf(st.bs, offset) <= first < blk <= BlockOf(st.bs, end - 1) + 1
    requires forall b :: first <= b < blk ==> b !in st.cache && InDevice(st.bs, |shown|, b)
    requires Start(st.bs, first) <= RunEnd(st.bs, |shown|, blk) <= |shown| && data == st.inner[Start(st.bs, first)..RunEnd(st.bs, |shown|, blk)]
    requires var start := Start(st.bs, first);
             rs == (if offset < start then start else offset) && re == if end < start + |data| then end else start + |data|
    ensures data == shown[Start(st.bs, first)..RunEnd(st.bs, |shown|, blk)]
    ensures Start(st.bs, first) <= rs == At(st.bs, offset, end, first) <= At(st.bs, offset, end, blk) == re <= Start(st.bs, first) + |data|
    ensures data[rs - Start(st.bs, first)..re - Start(st.bs, first)] == shown[rs..re]
  {
    MissRunReads(st, shown, first, blk);
    ServedBytes(st.bs, shown, offset, end, first, blk);
  }
}
