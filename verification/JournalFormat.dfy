// The on-disk vocabulary of a JBD2 log: block headers, descriptor tags, revoke
// records, and sequence numbers that compare modulo 2^32.
module JournalFormat {
  import opened Arith
  import opened Bytes

  const MAGIC: nat := 0xc03b_3998
  const DESCRIPTOR: nat := 1
  const COMMIT: nat := 2
  const REVOKE: nat := 5

  const HEADER_LEN: nat := 12
  const REVOKE_HEADER_LEN: nat := 16
  const BLOCK_TAIL_LEN: nat := 4
  const COMMIT_SEC: nat := 48

  /** What the journal's features select, with the crc32c tests left as parameters. */
  datatype Format = Format(
    csumV2: bool,
    csumV3: bool,
    wide: bool,
    asyncCommit: bool,
    tailCrc: Block -> bool,
    commitCrc: Block -> bool,
    dataCrc: (seq<Byte>, Block, nat) -> bool,
    sbCrc: Block -> nat)
  {
    predicate Csum() { csumV2 || csumV3 }

    predicate TailOk(buf: Block) { !Csum() || tailCrc(buf) }

    predicate CommitOk(buf: Block) { !Csum() || commitCrc(buf) }

    predicate DataOk(tag: seq<Byte>, data: Block, sequence: nat) { !Csum() || dataCrc(tag, data, sequence) }

    function TailLen(): nat { if Csum() then BLOCK_TAIL_LEN else 0 }

    /** Bytes of one descriptor tag, before any UUID. */
    function TagBytes(): (r: nat)
      ensures 8 <= r <= 16
      ensures wide ==> 12 <= r
    {
      if csumV3 then 16
      else if wide then (if csumV2 then 14 else 12)
      else (if csumV2 then 10 else 8)
    }
  }

  // ---- Sequence numbers ----

  function WrappingSub(x: nat, y: nat): nat
    requires x < TWO32 && y < TWO32
  {
    (x - y) % TWO32
  }

  /** The wrapped difference, read as a signed 32-bit number, is positive. */
  predicate TidGt(x: nat, y: nat)
    requires x < TWO32 && y < TWO32
  {
    0 < WrappingSub(x, y) < TWO32 / 2
  }

  predicate TidGeq(x: nat, y: nat)
    requires x < TWO32 && y < TWO32
  {
    WrappingSub(x, y) < TWO32 / 2
  }

  /** The number written for the `k`-th transaction of a log that starts at `base`. */
  function Tid(base: nat, k: nat): (r: nat)
    ensures r < TWO32
  {
    (base + k) % TWO32
  }

  /** Within half the number space, the modular comparisons are the true order. */
  lemma TidOrder(base: nat, j: nat, k: nat)
    requires j < TWO32 / 2 && k < TWO32 / 2
    ensures TidGt(Tid(base, j), Tid(base, k)) <==> j > k
    ensures TidGeq(Tid(base, j), Tid(base, k)) <==> j >= k
    ensures Tid(base, j) == Tid(base, k) <==> j == k
  {
    var d := (base + j) / TWO32 - (base + k) / TWO32;
    assert Tid(base, j) - Tid(base, k) == j - k - d * TWO32;
  }

  /** Fewer than 2^32 transactions apart, two numbers differ. */
  lemma TidDiffers(base: nat, j: nat, k: nat)
    requires k < j < k + TWO32
    ensures Tid(base, j) != Tid(base, k)
  {
    var d := (base + j) / TWO32 - (base + k) / TWO32;
    assert Tid(base, j) - Tid(base, k) == j - k - d * TWO32;
  }

  function After(tid: nat): (r: nat)
    ensures r < TWO32
  {
    (tid + 1) % TWO32
  }

  lemma TidSuccessor(base: nat, k: nat)
    ensures After(Tid(base, k)) == Tid(base, k + 1)
  {
  }

  // ---- Block headers ----

  function Kind(buf: Block): nat
    requires HEADER_LEN <= |buf|
  {
    U32Be(buf, 4)
  }

  /** `buf` opens with the magic and belongs to the transaction numbered `tid`. */
  predicate IsHeader(buf: Block, tid: nat)
    requires HEADER_LEN <= |buf|
  {
    U32Be(buf, 0) == MAGIC && U32Be(buf, 8) == tid
  }

  function CommitTime(buf: Block): nat
    requires COMMIT_SEC + 8 <= |buf|
  {
    U32Be(buf, COMMIT_SEC) * TWO32 + U32Be(buf, COMMIT_SEC + 4)
  }

  // ---- Descriptor tags ----

  datatype Tag = Tag(raw: seq<Byte>, home: nat, flags: nat)
  {
    predicate Escaped() { flags % 2 == 1 }
    predicate SameUuid() { flags / 2 % 2 == 1 }
    predicate LastTag() { flags / 8 % 2 == 1 }
  }

  function TagAt(fmt: Format, buf: Block, at: nat): Tag
    requires at + fmt.TagBytes() <= |buf|
  {
    var raw := buf[at..at + fmt.TagBytes()];
    var low := U32Be(raw, 0);
    Tag(raw, if fmt.wide then U32Be(raw, 8) * TWO32 + low else low, U16Be(raw, 6))
  }

  /** The tags from `at` on: each is followed by a UUID unless it shares the previous one's. */
  function TagsFrom(fmt: Format, buf: Block, at: nat): seq<Tag>
    decreases |buf| - at
  {
    if at + fmt.TagBytes() + fmt.TailLen() > |buf| then []
    else
      var tag := TagAt(fmt, buf, at);
      if tag.LastTag() then [tag]
      else [tag] + TagsFrom(fmt, buf, at + fmt.TagBytes() + (if tag.SameUuid() then 0 else 16))
  }

  function Tags(fmt: Format, buf: Block): seq<Tag>
  {
    TagsFrom(fmt, buf, HEADER_LEN)
  }

  /** A descriptor never holds more tags than fit between its header and its end. */
  lemma {:induction false} TagCountBound(fmt: Format, buf: Block, at: nat)
    requires at <= |buf|
    ensures |TagsFrom(fmt, buf, at)| * fmt.TagBytes() <= |buf| - at
    decreases |buf| - at
  {
    var size := fmt.TagBytes();
    if at + size + fmt.TailLen() <= |buf| {
      var next := at + size + if TagAt(fmt, buf, at).SameUuid() then 0 else 16;
      OneMore(0, size, 0, |buf| - at);
      if next <= |buf| {
        TagCountBound(fmt, buf, next);
        OneMore(|TagsFrom(fmt, buf, next)|, size, |buf| - next, |buf| - at);
      }
    }
  }

  /** One more thing of size `m` where there is room for it. */
  lemma OneMore(n: nat, m: nat, room: nat, room': nat)
    requires n * m <= room && room + m <= room'
    ensures (n + 1) * m <= room'
  {
    MulSplit(n, 1, m);
  }

  /** No more tags than a block of that size has room for. */
  lemma TagsFit(fmt: Format, buf: Block, blockSize: nat)
    requires HEADER_LEN <= |buf| <= blockSize
    ensures |Tags(fmt, buf)| <= (blockSize - HEADER_LEN) / fmt.TagBytes()
  {
    TagCountBound(fmt, buf, HEADER_LEN);
    AtMostQuotient(|Tags(fmt, buf)|, fmt.TagBytes(), blockSize - HEADER_LEN);
  }

  lemma AtMostQuotient(n: nat, m: nat, x: nat)
    requires 0 < m && n * m <= x
    ensures n <= x / m
  {
    if x / m < n {
      MulMonotone(x / m, n, m);
      DivBounds(x, m);
    }
  }

  method ReadTags(fmt: Format, buf: Block) returns (out: seq<Tag>)
    ensures out == Tags(fmt, buf)
  {
    out := [];
    var at := HEADER_LEN;
    while at + fmt.TagBytes() + fmt.TailLen() <= |buf|
      invariant out + TagsFrom(fmt, buf, at) == Tags(fmt, buf)
      decreases |buf| - at
    {
      var tag := TagAt(fmt, buf, at);
      var next := at + fmt.TagBytes() + if tag.SameUuid() then 0 else 16;
      if tag.LastTag() {
        return out + [tag];
      }
      assert out + ([tag] + TagsFrom(fmt, buf, next)) == out + [tag] + TagsFrom(fmt, buf, next);
      out, at := out + [tag], next;
    }
  }

  /** A logged block as it belongs at home: the magic goes back where the log hid it. */
  function Unescape(tag: Tag, data: Block): (r: Block)
    ensures |r| == |data|
  {
    if tag.Escaped() && 4 <= |data| then Patch(data, 0, BytesBe(MAGIC)) else data
  }

  // ---- Revoke records ----

  datatype Revokes = Records(blocks: seq<nat>) | TooLong(claimed: nat)

  function RecordLen(fmt: Format): nat { if fmt.wide then 8 else 4 }

  function RecordAt(fmt: Format, buf: Block, at: nat): nat
    requires at + RecordLen(fmt) <= |buf|
  {
    if fmt.wide then U32Be(buf, at) * TWO32 + U32Be(buf, at + 4) else U32Be(buf, at)
  }

  function RecordsFrom(fmt: Format, buf: Block, at: nat, count: nat): seq<nat>
    requires count <= |buf|
    decreases |buf| - at
  {
    if at + RecordLen(fmt) > count then []
    else [RecordAt(fmt, buf, at)] + RecordsFrom(fmt, buf, at + RecordLen(fmt), count)
  }

  function RevokeRecords(fmt: Format, buf: Block): Revokes
    requires REVOKE_HEADER_LEN <= |buf|
  {
    var count := U32Be(buf, HEADER_LEN);
    if count + fmt.TailLen() > |buf| then TooLong(count)
    else Records(RecordsFrom(fmt, buf, REVOKE_HEADER_LEN, count))
  }

  lemma OneRecord(fmt: Format, buf: Block, at: nat, count: nat, out: seq<nat>)
    requires at + RecordLen(fmt) <= count <= |buf|
    ensures out + [RecordAt(fmt, buf, at)] + RecordsFrom(fmt, buf, at + RecordLen(fmt), count) == out + RecordsFrom(fmt, buf, at, count)
  {
  }

  method ReadRevokeRecords(fmt: Format, buf: Block) returns (r: Revokes)
    requires REVOKE_HEADER_LEN <= |buf|
    ensures r == RevokeRecords(fmt, buf)
  {
    var count := U32Be(buf, HEADER_LEN);
    if count + fmt.TailLen() > |buf| {
      return TooLong(count);
    }
    var out, at := [], REVOKE_HEADER_LEN;
    while at + RecordLen(fmt) <= count
      invariant out + RecordsFrom(fmt, buf, at, count) == RecordsFrom(fmt, buf, REVOKE_HEADER_LEN, count)
      decreases |buf| - at
    {
      OneRecord(fmt, buf, at, count, out);
      out := out + [RecordAt(fmt, buf, at)];
      at := at + RecordLen(fmt);
    }
    assert RecordsFrom(fmt, buf, at, count) == [] && out + [] == out;
    return Records(out);
  }
}
