// Writing a log, as the journal's format has it: headers, descriptors with
// their tags, escaped blocks, revoke records and commits, byte by byte. What
// recovery reads is what was written.
module JournalWriting {
  import opened Bytes
  import opened JournalFormat
  import opened JournalLog
  import opened JournalReplay

  /** A 32-bit number, most significant byte first. */
  function Word(v: nat): (r: seq<Byte>)
    requires v < 0x1_0000_0000
    ensures |r| == 4
  {
    [v / 16_777_216, v / 65_536 % 256, v / 256 % 256, v % 256]
  }

  lemma WordReads(v: nat, buf: seq<Byte>, at: nat)
    requires v < 0x1_0000_0000 && at + 4 <= |buf| && buf[at..at + 4] == Word(v)
    ensures U32Be(buf, at) == v
  {
    BytesBeValue(v);
    SameWord(buf, at, Word(v), 0);
  }

  /** A 64-bit number, most significant word first. */
  function LongWord(v: nat): (r: seq<Byte>)
    requires v < 0x1_0000_0000_0000_0000
    ensures |r| == 8
  {
    Word(v / 0x1_0000_0000) + Word(v % 0x1_0000_0000)
  }

  lemma LongWordReads(v: nat, buf: seq<Byte>, at: nat)
    requires v < 0x1_0000_0000_0000_0000 && at + 8 <= |buf| && buf[at..at + 8] == LongWord(v)
    ensures U32Be(buf, at) * 0x1_0000_0000 + U32Be(buf, at + 4) == v
  {
    assert buf[at..at + 4] == buf[at..at + 8][..4] == Word(v / 0x1_0000_0000);
    assert buf[at + 4..at + 8] == buf[at..at + 8][4..] == Word(v % 0x1_0000_0000);
    WordReads(v / 0x1_0000_0000, buf, at);
    WordReads(v % 0x1_0000_0000, buf, at + 4);
  }

  function Header(kind: nat, tid: nat): (r: seq<Byte>)
    requires kind < 0x1_0000_0000 && tid < 0x1_0000_0000
    ensures |r| == 12
  {
    [0xc0, 0x3b, 0x39, 0x98] + Word(kind) + Word(tid)
  }

  lemma HeaderReads(kind: nat, tid: nat, buf: Block, t: nat)
    requires kind < 0x1_0000_0000 && tid < 0x1_0000_0000 && 12 <= |buf| && buf[..12] == Header(kind, tid)
    ensures Kind(buf) == kind && (IsHeader(buf, t) <==> t == tid)
  {
    assert buf[0..4] == buf[..12][0..4] == Word(0xc03b_3998);
    assert buf[4..8] == buf[..12][4..8] == Word(kind);
    assert buf[8..12] == buf[..12][8..12] == Word(tid);
    WordReads(0xc03b_3998, buf, 0);
    WordReads(kind, buf, 4);
    WordReads(tid, buf, 8);
  }

  // ---- Descriptors ----

  /** A logged block as its tag has it: where it belongs, the tag's flags, and the bytes recovery takes no number from. */
  datatype Item = Item(home: nat, flags: nat, check: seq<Byte>, rest: seq<Byte>, uuid: seq<Byte>)

  /** Bytes of a tag after its numbers: checksums and filling. */
  function RestLen(fmt: Format): nat
  {
    if fmt.csumV3 then (if fmt.wide then 4 else 8) else if fmt.csumV2 then 2 else 0
  }

  predicate CanList(fmt: Format, it: Item)
  {
    && it.home < (if fmt.wide then 0x1_0000_0000_0000_0000 else 0x1_0000_0000) && it.flags < 65_536
    && |it.check| == 2 && |it.rest| == RestLen(fmt) && |it.uuid| == 16
  }

  function TagBytesOf(fmt: Format, it: Item): seq<Byte>
    requires CanList(fmt, it)
  {
    Word(it.home % 0x1_0000_0000) + it.check + [it.flags / 256, it.flags % 256]
    + (if fmt.wide then Word(it.home / 0x1_0000_0000) else []) + it.rest
  }

  /** The tag, and the UUID behind it unless it shares the one before. */
  function EntryOf(fmt: Format, it: Item): seq<Byte>
    requires CanList(fmt, it)
  {
    TagBytesOf(fmt, it) + if it.flags / 2 % 2 == 1 then [] else it.uuid
  }

  function EntriesOf(fmt: Format, items: seq<Item>): seq<Byte>
    requires forall i :: 0 <= i < |items| ==> CanList(fmt, items[i])
  {
    if items == [] then [] else EntryOf(fmt, items[0]) + EntriesOf(fmt, items[1..])
  }

  /** Bytes of a tag. */
  function TagLen(fmt: Format): nat
  {
    8 + (if fmt.wide then 4 else 0) + RestLen(fmt)
  }

  /** Bytes at the end of a block that its checksum takes. */
  function TailRoom(fmt: Format): nat
  {
    if fmt.csumV2 || fmt.csumV3 then 4 else 0
  }

  /** With `room` bytes behind the items: none but the last is flagged as the last, and if that is not either there is no room
    * for another tag. */
  predicate CanDescribe(fmt: Format, items: seq<Item>, room: nat)
  {
    && (forall i :: 0 <= i < |items| ==> CanList(fmt, items[i]))
    && (forall i :: 0 <= i < |items| - 1 ==> items[i].flags / 8 % 2 == 0)
    && TailRoom(fmt) <= room
    && ((items != [] && items[|items| - 1].flags / 8 % 2 == 1) || room < TagLen(fmt) + TailRoom(fmt))
  }

  /** What a descriptor block lists. */
  function TagsOf(fmt: Format, items: seq<Item>): (r: seq<Tag>)
    requires forall i :: 0 <= i < |items| ==> CanList(fmt, items[i])
    ensures |r| == |items|
  {
    seq(|items|, i requires 0 <= i < |items| && CanList(fmt, items[i]) => Tag(TagBytesOf(fmt, items[i]), items[i].home, items[i].flags))
  }

  lemma TagReads(fmt: Format, it: Item, buf: Block, at: nat)
    requires CanList(fmt, it) && at + |TagBytesOf(fmt, it)| <= |buf| && buf[at..at + |TagBytesOf(fmt, it)|] == TagBytesOf(fmt, it)
    ensures fmt.TagBytes() == |TagBytesOf(fmt, it)| && TagAt(fmt, buf, at) == Tag(TagBytesOf(fmt, it), it.home, it.flags)
  {
    var raw := TagBytesOf(fmt, it);
    assert raw[0..4] == Word(it.home % 0x1_0000_0000);
    WordReads(it.home % 0x1_0000_0000, raw, 0);
    assert raw[6] == it.flags / 256 && raw[7] == it.flags % 256;
    if fmt.wide {
      assert raw[8..12] == Word(it.home / 0x1_0000_0000);
      WordReads(it.home / 0x1_0000_0000, raw, 8);
    }
  }

  /** Where the first entry and the rest of them are. */
  lemma EntrySplit(fmt: Format, items: seq<Item>, buf: Block, at: nat, pad: seq<Byte>) returns (next: nat)
    requires items != [] && CanDescribe(fmt, items, |pad|) && at <= |buf| && buf[at..] == EntriesOf(fmt, items) + pad
    ensures var raw := TagBytesOf(fmt, items[0]);
            && at + |raw| <= next <= |buf| && buf[at..at + |raw|] == raw && buf[next..] == EntriesOf(fmt, items[1..]) + pad
            && at + |raw| + TailRoom(fmt) <= |buf| && next == at + |raw| + if items[0].flags / 2 % 2 == 1 then 0 else 16
  {
    var it := items[0];
    next := at + |EntryOf(fmt, it)|;
    SplitAt(buf, at, TagBytesOf(fmt, it), if it.flags / 2 % 2 == 1 then [] else it.uuid, EntriesOf(fmt, items[1..]), pad);
  }

  /** A tag read, and where the next one would be. */
  lemma TagGives(fmt: Format, it: Item, buf: Block, at: nat, next: nat)
    requires CanList(fmt, it) && at + |TagBytesOf(fmt, it)| + TailRoom(fmt) <= |buf|
    requires buf[at..at + |TagBytesOf(fmt, it)|] == TagBytesOf(fmt, it)
    requires next == at + |TagBytesOf(fmt, it)| + if it.flags / 2 % 2 == 1 then 0 else 16
    ensures var tag := Tag(TagBytesOf(fmt, it), it.home, it.flags);
            TagsFrom(fmt, buf, at) == if it.flags / 8 % 2 == 1 then [tag] else [tag] + TagsFrom(fmt, buf, next)
  {
    TagReads(fmt, it, buf, at);
    FlagBits(TagAt(fmt, buf, at));
    TagsStep(fmt, buf, at);
  }

  lemma SplitAt(buf: Block, at: nat, raw: seq<Byte>, uuid: seq<Byte>, rest: seq<Byte>, pad: seq<Byte>)
    requires at <= |buf| && buf[at..] == raw + uuid + rest + pad
    ensures at + |raw| + |uuid| <= |buf| && buf[at..at + |raw|] == raw && buf[at + |raw| + |uuid|..] == rest + pad
  {
    var all := buf[at..];
    assert all[..|raw|] == raw && buf[at..at + |raw|] == all[..|raw|];
    assert all[|raw| + |uuid|..] == rest + pad && buf[at + |raw| + |uuid|..] == all[|raw| + |uuid|..];
  }

  /** One entry is read as its tag, and then come those behind it unless it is flagged as the last. */
  lemma EntryReads(fmt: Format, items: seq<Item>, buf: Block, at: nat, pad: seq<Byte>) returns (next: nat)
    requires items != [] && CanDescribe(fmt, items, |pad|) && at <= |buf| && buf[at..] == EntriesOf(fmt, items) + pad
    ensures at < next <= |buf| && buf[next..] == EntriesOf(fmt, items[1..]) + pad
    ensures var tag := Tag(TagBytesOf(fmt, items[0]), items[0].home, items[0].flags);
            TagsFrom(fmt, buf, at) == if items[0].flags / 8 % 2 == 1 then [tag] else [tag] + TagsFrom(fmt, buf, next)
  {
    next := EntrySplit(fmt, items, buf, at, pad);
    TagGives(fmt, items[0], buf, at, next);
  }

  lemma Fewer(fmt: Format, items: seq<Item>, room: nat)
    requires items != [] && CanDescribe(fmt, items, room)
    ensures items[0].flags / 8 % 2 == 1 ==> |items| == 1
    ensures items[0].flags / 8 % 2 != 1 ==> CanDescribe(fmt, items[1..], room)
  {
  }

  lemma {:induction false} EntriesRead(fmt: Format, items: seq<Item>, buf: Block, at: nat, pad: seq<Byte>)
    requires CanDescribe(fmt, items, |pad|) && at <= |buf| && buf[at..] == EntriesOf(fmt, items) + pad
    ensures TagsFrom(fmt, buf, at) == TagsOf(fmt, items)
    decreases |items|
  {
    if items == [] {
      NoTag(fmt, buf, at);
    } else {
      var next := EntryReads(fmt, items, buf, at, pad);
      Fewer(fmt, items, |pad|);
      FirstTag(fmt, items);
      if items[0].flags / 8 % 2 != 1 {
        EntriesRead(fmt, items[1..], buf, next, pad);
      }
    }
  }

  lemma NoTag(fmt: Format, buf: Block, at: nat)
    ensures TagsFrom(fmt, buf, at) == [] <==> |buf| < at + TagLen(fmt) + TailRoom(fmt)
  {
  }

  lemma FirstTag(fmt: Format, items: seq<Item>)
    requires items != [] && forall i :: 0 <= i < |items| ==> CanList(fmt, items[i])
    ensures TagsOf(fmt, items) == [Tag(TagBytesOf(fmt, items[0]), items[0].home, items[0].flags)] + TagsOf(fmt, items[1..])
  {
  }

  lemma FlagBits(tag: Tag)
    ensures (tag.SameUuid() <==> tag.flags / 2 % 2 == 1) && (tag.LastTag() <==> tag.flags / 8 % 2 == 1)
  {
  }

  /** Reading one tag, and the rest if it is not the last. */
  lemma TagsStep(fmt: Format, buf: Block, at: nat)
    requires at + fmt.TagBytes() + fmt.TailLen() <= |buf|
    ensures var tag := TagAt(fmt, buf, at);
            TagsFrom(fmt, buf, at) ==
            if tag.LastTag() then [tag]
            else [tag] + TagsFrom(fmt, buf, at + fmt.TagBytes() + if tag.SameUuid() then 0 else 16)
  {
  }

  function DescriptorBlock(fmt: Format, tid: nat, items: seq<Item>, pad: seq<Byte>): Block
    requires tid < 0x1_0000_0000 && forall i :: 0 <= i < |items| ==> CanList(fmt, items[i])
  {
    Header(1, tid) + EntriesOf(fmt, items) + pad
  }

  lemma Joined(a: seq<Byte>, b: seq<Byte>, c: seq<Byte>)
    ensures (a + b + c)[..|a|] == a && (a + b + c)[|a|..] == b + c
  {
  }

  /** A descriptor block reads as the list it was written from: homes, flags and tags, in order, UUIDs skipped. */
  lemma DescriptorReads(fmt: Format, tid: nat, items: seq<Item>, pad: seq<Byte>, t: nat)
    requires tid < 0x1_0000_0000 && CanDescribe(fmt, items, |pad|)
    ensures var buf := DescriptorBlock(fmt, tid, items, pad);
            Kind(buf) == 1 && (IsHeader(buf, t) <==> t == tid) && Tags(fmt, buf) == TagsOf(fmt, items)
  {
    var buf := DescriptorBlock(fmt, tid, items, pad);
    Joined(Header(1, tid), EntriesOf(fmt, items), pad);
    HeaderReads(1, tid, buf, t);
    EntriesRead(fmt, items, buf, 12, pad);
  }

  // ---- Revoke blocks and commits ----

  function NumberOf(fmt: Format, n: nat): seq<Byte>
    requires n < if fmt.wide then 0x1_0000_0000_0000_0000 else 0x1_0000_0000
  {
    if fmt.wide then LongWord(n) else Word(n)
  }

  predicate CanRevoke(fmt: Format, nums: seq<nat>)
  {
    forall i :: 0 <= i < |nums| ==> nums[i] < if fmt.wide then 0x1_0000_0000_0000_0000 else 0x1_0000_0000
  }

  function NumbersOf(fmt: Format, nums: seq<nat>): (r: seq<Byte>)
    requires CanRevoke(fmt, nums)
    ensures |r| == |nums| * if fmt.wide then 8 else 4
  {
    if nums == [] then [] else NumberOf(fmt, nums[0]) + NumbersOf(fmt, nums[1..])
  }

  function RevokeBlock(fmt: Format, tid: nat, nums: seq<nat>, pad: seq<Byte>): Block
    requires tid < 0x1_0000_0000 && CanRevoke(fmt, nums) && 16 + |NumbersOf(fmt, nums)| < 0x1_0000_0000
  {
    Header(5, tid) + Word(16 + |NumbersOf(fmt, nums)|) + NumbersOf(fmt, nums) + pad
  }

  lemma {:induction false} NumbersRead(fmt: Format, nums: seq<nat>, buf: Block, at: nat, end: nat)
    requires CanRevoke(fmt, nums) && at <= end <= |buf| && buf[at..end] == NumbersOf(fmt, nums)
    ensures RecordsFrom(fmt, buf, at, end) == nums
    decreases |nums|
  {
    if nums != [] {
      var size := if fmt.wide then 8 else 4;
      assert buf[at..at + size] == buf[at..end][..size] == NumberOf(fmt, nums[0]);
      NumberReads(fmt, nums[0], buf, at);
      assert buf[at + size..end] == buf[at..end][size..] == NumbersOf(fmt, nums[1..]);
      NumbersRead(fmt, nums[1..], buf, at + size, end);
    }
  }

  lemma NumberReads(fmt: Format, n: nat, buf: Block, at: nat)
    requires n < if fmt.wide then 0x1_0000_0000_0000_0000 else 0x1_0000_0000
    requires var size := if fmt.wide then 8 else 4; at + size <= |buf| && buf[at..at + size] == NumberOf(fmt, n)
    ensures RecordLen(fmt) == (if fmt.wide then 8 else 4) && RecordAt(fmt, buf, at) == n
  {
    if fmt.wide {
      LongWordReads(n, buf, at);
    } else {
      WordReads(n, buf, at);
    }
  }

  /** A revoke block reads as the block numbers it was written from. */
  lemma RevokesRead(fmt: Format, tid: nat, nums: seq<nat>, pad: seq<Byte>, t: nat)
    requires tid < 0x1_0000_0000 && CanRevoke(fmt, nums) && 16 + |NumbersOf(fmt, nums)| < 0x1_0000_0000 && TailRoom(fmt) <= |pad|
    ensures var buf := RevokeBlock(fmt, tid, nums, pad);
            Kind(buf) == 5 && (IsHeader(buf, t) <==> t == tid) && RevokeRecords(fmt, buf) == Records(nums)
  {
    var buf, end := RevokeBlock(fmt, tid, nums, pad), 16 + |NumbersOf(fmt, nums)|;
    assert buf[..12] == Header(5, tid) && buf[12..16] == Word(end) && buf[16..end] == NumbersOf(fmt, nums);
    HeaderReads(5, tid, buf, t);
    WordReads(end, buf, 12);
    NumbersRead(fmt, nums, buf, 16, end);
  }

  /** A revoke block that claims more bytes than it has before its checksum is no list. */
  lemma LongRevokesFail(fmt: Format, tid: nat, count: nat, rest: seq<Byte>)
    requires tid < 0x1_0000_0000 && count < 0x1_0000_0000
    ensures var buf := Header(5, tid) + Word(count) + rest;
            RevokeRecords(fmt, buf) == TooLong(count) <==> |buf| < count + TailRoom(fmt)
  {
    var buf := Header(5, tid) + Word(count) + rest;
    assert buf[12..16] == Word(count);
    WordReads(count, buf, 12);
  }

  /** A commit block: its time is at byte 48. */
  function CommitBlock(tid: nat, time: nat, before: seq<Byte>, after: seq<Byte>): Block
    requires tid < 0x1_0000_0000 && time < 0x1_0000_0000_0000_0000 && |before| == 36
  {
    Header(2, tid) + before + LongWord(time) + after
  }

  lemma CommitReads(tid: nat, time: nat, before: seq<Byte>, after: seq<Byte>, t: nat)
    requires tid < 0x1_0000_0000 && time < 0x1_0000_0000_0000_0000 && |before| == 36
    ensures var buf := CommitBlock(tid, time, before, after);
            Kind(buf) == 2 && (IsHeader(buf, t) <==> t == tid) && CommitTime(buf) == time
  {
    var buf := CommitBlock(tid, time, before, after);
    assert buf[..12] == Header(2, tid) && buf[48..56] == LongWord(time);
    HeaderReads(2, tid, buf, t);
    LongWordReads(time, buf, 48);
  }

  // ---- Escaping ----

  /** A block as it is logged: where it would begin like a header, its first four bytes are zero, and the tag says so. */
  function Logged(it: Item, data: Block): Block
    requires 4 <= |data|
  {
    if it.flags % 2 == 1 then [0, 0, 0, 0] + data[4..] else data
  }

  predicate EscapedRight(it: Item, data: Block)
    requires 4 <= |data|
  {
    it.flags % 2 == 1 <==> data[..4] == [0xc0, 0x3b, 0x39, 0x98]
  }

  /** A logged block goes home as it was. */
  lemma LoggedComesBack(it: Item, data: Block, tag: Tag)
    requires 4 <= |data| && EscapedRight(it, data) && tag.flags == it.flags
    ensures Unescape(tag, Logged(it, data)) == data
  {
    if it.flags % 2 == 1 {
      assert BytesBe(MAGIC) == [0xc0, 0x3b, 0x39, 0x98];
      assert data == data[..4] + data[4..];
    }
  }

  // ---- A written log ----

  /** What a log is written from: blocks with their tags, revoked block numbers, and the ends of transactions. */
  datatype Piece =
    | Described(items: seq<Item>, data: seq<Block>, pad: seq<Byte>)
    | Revoking(nums: seq<nat>, pad: seq<Byte>)
    | Committed(time: nat, before: seq<Byte>, after: seq<Byte>)

  predicate CanWrite(fmt: Format, piece: Piece)
  {
    match piece
    case Described(items, data, pad) =>
      && CanDescribe(fmt, items, |pad|) && |data| == |items|
      && forall j :: 0 <= j < |items| ==> 4 <= |data[j]| && EscapedRight(items[j], data[j])
    case Revoking(nums, pad) => CanRevoke(fmt, nums) && 16 + |NumbersOf(fmt, nums)| < 0x1_0000_0000 && TailRoom(fmt) <= |pad|
    case Committed(time, before, _) => time < 0x1_0000_0000_0000_0000 && |before| == 36
  }

  function HeadOf(fmt: Format, tid: nat, piece: Piece): Block
    requires tid < 0x1_0000_0000 && CanWrite(fmt, piece)
  {
    match piece
    case Described(items, _, pad) => DescriptorBlock(fmt, tid, items, pad)
    case Revoking(nums, pad) => RevokeBlock(fmt, tid, nums, pad)
    case Committed(time, before, after) => CommitBlock(tid, time, before, after)
  }

  /** The header's checksum is right, when there are any. */
  predicate Sealed(fmt: Format, head: Block, piece: Piece)
  {
    fmt.csumV2 || fmt.csumV3 ==> if piece.Committed? then fmt.commitCrc(head) else fmt.tailCrc(head)
  }

  predicate PieceAt(log: Log, p: nat, k: nat, piece: Piece)
    requires log.Valid()
  {
    && CanWrite(log.fmt, piece) && log.At(p) == HeadOf(log.fmt, log.TidOf(k), piece) && Sealed(log.fmt, log.At(p), piece)
    && (piece.Described? ==> forall j :: 0 <= j < |piece.items| ==> log.At(p + 1 + j) == Logged(piece.items[j], piece.data[j]))
  }

  function Width(piece: Piece): nat
  {
    if piece.Described? then 1 + |piece.items| else 1
  }

  function TxnAfter(k: nat, piece: Piece): nat
  {
    if piece.Committed? then k + 1 else k
  }

  /** Where piece `m` is: the blocks that the pieces before it fill, and the transactions they complete. */
  function Offset(pieces: seq<Piece>, m: nat): nat
    requires m <= |pieces|
  {
    if m == 0 then 0 else Offset(pieces, m - 1) + Width(pieces[m - 1])
  }

  function Txn(pieces: seq<Piece>, m: nat): nat
    requires m <= |pieces|
  {
    if m == 0 then 0 else TxnAfter(Txn(pieces, m - 1), pieces[m - 1])
  }

  ghost predicate Stands(log: Log, pieces: seq<Piece>, m: nat)
    requires log.Valid() && m < |pieces|
  {
    PieceAt(log, Offset(pieces, m), Txn(pieces, m), pieces[m])
  }

  /** The log has the pieces from its start, one after another. */
  ghost predicate AllStand(log: Log, pieces: seq<Piece>)
    requires log.Valid()
  {
    forall m :: 0 <= m < |pieces| ==> Stands(log, pieces, m)
  }

  predicate Whole(pieces: seq<Piece>)
  {
    pieces != [] ==> pieces[|pieces| - 1].Committed?
  }

  /** What a piece says, in transaction `k`. */
  function SaidBy(fmt: Format, k: nat, piece: Piece): (r: seq<Event>)
    requires CanWrite(fmt, piece)
  {
    match piece
    case Described(items, data, _) =>
      seq(|items|, j requires 0 <= j < |items| && CanWrite(fmt, piece) => Copy(k, TagsOf(fmt, items)[j], Logged(items[j], data[j])))
    case Revoking(nums, _) => seq(|nums|, j requires 0 <= j < |nums| => Revoked(k, nums[j]))
    case Committed(_, _, _) => []
  }

  ghost predicate AllWritable(fmt: Format, pieces: seq<Piece>)
  {
    forall m :: 0 <= m < |pieces| ==> Writable(fmt, pieces, m)
  }

  ghost predicate Writable(fmt: Format, pieces: seq<Piece>, m: nat)
    requires m < |pieces|
  {
    CanWrite(fmt, pieces[m])
  }

  ghost function SaidAt(fmt: Format, pieces: seq<Piece>, m: nat): seq<Event>
    requires m < |pieces| && Writable(fmt, pieces, m)
  {
    SaidBy(fmt, Txn(pieces, m), pieces[m])
  }

  /** What the pieces from the `m`-th on say. */
  ghost function Said(fmt: Format, pieces: seq<Piece>, m: nat): seq<Event>
    requires AllWritable(fmt, pieces) && m <= |pieces|
    decreases |pieces| - m
  {
    if m == |pieces| then []
    else
      assert Writable(fmt, pieces, m);
      SaidAt(fmt, pieces, m) + Said(fmt, pieces, m + 1)
  }

  lemma DescriptionReads(log: Log, p: nat, k: nat, piece: Piece)
    requires log.Valid() && PieceAt(log, p, k, piece) && piece.Described?
    ensures HeadAt(log, p, k) == Descriptor(TagsOf(log.fmt, piece.items)) && EventsAt(log, p, k) == SaidBy(log.fmt, k, piece)
  {
    var tid := log.TidOf(k);
    DescriptorReads(log.fmt, tid, piece.items, piece.pad, tid);
    var here, said := EventsAt(log, p, k), SaidBy(log.fmt, k, piece);
    forall j | 0 <= j < |here| ensures here[j] == said[j] {
    }
  }

  lemma RevokingReads(log: Log, p: nat, k: nat, piece: Piece)
    requires log.Valid() && PieceAt(log, p, k, piece) && piece.Revoking?
    ensures HeadAt(log, p, k) == Revocation(Records(piece.nums)) && EventsAt(log, p, k) == SaidBy(log.fmt, k, piece)
  {
    var tid := log.TidOf(k);
    RevokesRead(log.fmt, tid, piece.nums, piece.pad, tid);
    var here, said := EventsAt(log, p, k), SaidBy(log.fmt, k, piece);
    forall j | 0 <= j < |here| ensures here[j] == said[j] {
    }
  }

  lemma CommittedReads(log: Log, p: nat, k: nat, piece: Piece)
    requires log.Valid() && PieceAt(log, p, k, piece) && piece.Committed?
    ensures HeadAt(log, p, k) == Commit && EventsAt(log, p, k) == []
  {
    var tid := log.TidOf(k);
    CommitReads(tid, piece.time, piece.before, piece.after, tid);
  }

  /** One piece is read as the header it is, verified, and steps on to the next piece. */
  lemma PieceReads(log: Log, p: nat, k: nat, piece: Piece)
    requires log.Valid() && PieceAt(log, p, k, piece)
    ensures Verified(log, p, k) && NextPos(log, p, k) == p + Width(piece) && NextTxn(log, p, k) == TxnAfter(k, piece)
    ensures HeadAt(log, p, k).Commit? == piece.Committed? && EventsAt(log, p, k) == SaidBy(log.fmt, k, piece)
  {
    match piece
    case Described(_, _, _) => DescriptionReads(log, p, k, piece);
    case Revoking(_, _) => RevokingReads(log, p, k, piece);
    case Committed(_, _, _) => CommittedReads(log, p, k, piece);
  }

  lemma PieceScans(log: Log, c: Cursor, piece: Piece, steps: nat) returns (next: Cursor)
    requires log.Valid() && PieceAt(log, c.p, c.k, piece) && !c.doubt && 0 < steps
    ensures next.p == c.p + Width(piece) && next.k == TxnAfter(c.k, piece) && !next.doubt
    ensures ScanFrom(log, c, steps) == ScanFrom(log, next, steps - 1)
  {
    PieceReads(log, c.p, c.k, piece);
    next := ScanStep(log, c).next;
  }

  lemma StandsScans(log: Log, c: Cursor, pieces: seq<Piece>, m: nat, steps: nat) returns (next: Cursor)
    requires log.Valid() && AllStand(log, pieces) && m < |pieces| && c.p == Offset(pieces, m) && c.k == Txn(pieces, m) && !c.doubt && 0 < steps
    ensures next.p == Offset(pieces, m + 1) && next.k == Txn(pieces, m + 1) && !next.doubt
    ensures ScanFrom(log, c, steps) == ScanFrom(log, next, steps - 1)
  {
    assert Stands(log, pieces, m);
    next := PieceScans(log, c, pieces[m], steps);
  }

  lemma ForeignStops(log: Log, c: Cursor, steps: nat)
    requires log.Valid() && HeadAt(log, c.p, c.k).Foreign?
    ensures ScanFrom(log, c, steps) == ScanResult(c.k, Stopped)
  {
  }

  /** The scan of a written log takes every transaction written, and stops at the first block after them. */
  lemma {:induction false} ScanReads(log: Log, c: Cursor, pieces: seq<Piece>, m: nat, steps: nat)
    requires log.Valid() && AllStand(log, pieces) && m <= |pieces| && c.p == Offset(pieces, m) && c.k == Txn(pieces, m) && !c.doubt
    requires |pieces| - m < steps && HeadAt(log, Offset(pieces, |pieces|), Txn(pieces, |pieces|)).Foreign?
    ensures ScanFrom(log, c, steps) == ScanResult(Txn(pieces, |pieces|), Stopped)
    decreases |pieces| - m
  {
    if m == |pieces| {
      ForeignStops(log, c, steps);
    } else {
      var next := StandsScans(log, c, pieces, m, steps);
      ScanReads(log, next, pieces, m + 1, steps - 1);
    }
  }

  /** One header's events, and then those from the next on. */
  lemma OneHeader(log: Log, p: nat, k: nat, n: nat, steps: nat, here: seq<Event>, p': nat, k': nat)
    requires log.Valid() && k < n && 0 < steps && here == EventsAt(log, p, k) && p' == NextPos(log, p, k) && k' == NextTxn(log, p, k)
    ensures EventsFrom(log, p, k, n, steps) == here + EventsFrom(log, p', k', n, steps - 1)
  {
  }

  lemma StandsAs(log: Log, pieces: seq<Piece>, m: nat)
    requires log.Valid() && m < |pieces| && Stands(log, pieces, m)
    ensures Writable(log.fmt, pieces, m) && EventsAt(log, Offset(pieces, m), Txn(pieces, m)) == SaidAt(log.fmt, pieces, m)
    ensures NextPos(log, Offset(pieces, m), Txn(pieces, m)) == Offset(pieces, m + 1)
    ensures NextTxn(log, Offset(pieces, m), Txn(pieces, m)) == Txn(pieces, m + 1)
  {
    PieceReads(log, Offset(pieces, m), Txn(pieces, m), pieces[m]);
  }

  lemma {:induction false} TxnGrows(pieces: seq<Piece>, m: nat, n: nat)
    requires m <= n <= |pieces|
    ensures Txn(pieces, m) <= Txn(pieces, n) && (m < n && Whole(pieces) && n == |pieces| ==> Txn(pieces, m) < Txn(pieces, n))
    decreases n
  {
    if m < n {
      TxnGrows(pieces, m, n - 1);
    }
  }

  /** What the later passes meet is what was written. */
  lemma {:induction false} EventsRead(log: Log, pieces: seq<Piece>, m: nat, steps: nat)
    requires log.Valid() && AllStand(log, pieces) && AllWritable(log.fmt, pieces) && Whole(pieces) && m <= |pieces| <= m + steps
    ensures EventsFrom(log, Offset(pieces, m), Txn(pieces, m), Txn(pieces, |pieces|), steps) == Said(log.fmt, pieces, m)
    decreases |pieces| - m
  {
    if m == |pieces| {
      NoEvents(log, Offset(pieces, m), Txn(pieces, m), steps);
    } else {
      EventsRead(log, pieces, m + 1, steps - 1);
      StandsEvents(log, pieces, m, steps, Said(log.fmt, pieces, m + 1));
    }
  }

  lemma NoEvents(log: Log, p: nat, k: nat, steps: nat)
    requires log.Valid()
    ensures EventsFrom(log, p, k, k, steps) == []
  {
  }

  lemma StandsEvents(log: Log, pieces: seq<Piece>, m: nat, steps: nat, rest: seq<Event>)
    requires log.Valid() && AllStand(log, pieces) && Whole(pieces) && m < |pieces| && 0 < steps
    requires rest == EventsFrom(log, Offset(pieces, m + 1), Txn(pieces, m + 1), Txn(pieces, |pieces|), steps - 1)
    ensures Writable(log.fmt, pieces, m)
    ensures EventsFrom(log, Offset(pieces, m), Txn(pieces, m), Txn(pieces, |pieces|), steps) == SaidAt(log.fmt, pieces, m) + rest
  {
    assert Stands(log, pieces, m);
    StandsAs(log, pieces, m);
    TxnGrows(pieces, m, |pieces|);
    OneHeader(log, Offset(pieces, m), Txn(pieces, m), Txn(pieces, |pieces|), steps, SaidAt(log.fmt, pieces, m),
              Offset(pieces, m + 1), Txn(pieces, m + 1));
  }

  /** The log holds the pieces from its start, and nothing of the next transaction after them. */
  ghost predicate HoldsAll(log: Log, pieces: seq<Piece>)
    requires log.Valid()
  {
    && AllStand(log, pieces) && Whole(pieces) && |pieces| < log.last
    && HeadAt(log, Offset(pieces, |pieces|), Txn(pieces, |pieces|)).Foreign?
  }

  lemma StandingIsWritable(log: Log, pieces: seq<Piece>)
    requires log.Valid() && AllStand(log, pieces)
    ensures AllWritable(log.fmt, pieces)
  {
    forall m | 0 <= m < |pieces| ensures Writable(log.fmt, pieces, m) {
      assert Stands(log, pieces, m);
    }
  }

  /** Recovery reads a log as it was written: as many transactions, and every block, home and revoke in order. */
  lemma LogReads(log: Log, pieces: seq<Piece>)
    requires log.Valid() && HoldsAll(log, pieces)
    ensures AllWritable(log.fmt, pieces)
    ensures Scan(log) == ScanResult(Txn(pieces, |pieces|), Stopped) && Events(log) == Said(log.fmt, pieces, 0)
  {
    StandingIsWritable(log, pieces);
    ScanReads(log, Cursor(0, 0, 0, false), pieces, 0, log.last);
    EventsRead(log, pieces, 0, log.last);
  }
}
