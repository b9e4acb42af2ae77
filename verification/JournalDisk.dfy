// The journal as it sits on a device: where its blocks are, what its
// superblock says, and what recovering it does to the device as a whole.
module JournalDisk {
  import opened Bytes
  import opened JournalFormat
  import opened JournalLog
  import opened JournalReplay

  const S_SEQUENCE: nat := 0x18
  const S_START: nat := 0x1c
  const S_ERRNO: nat := 0x20
  const S_CHECKSUM: nat := 0xfc
  const JOURNAL_SB_LEN: nat := 1024

  /** The parts of an open journal that recovery never changes. */
  datatype Config = Config(fmt: Format, first: nat, last: nat, blockMap: seq<nat>)
  {
    /** The map covers the log and stays on a device of `size` blocks. */
    ghost predicate Fits(size: nat)
    {
      && 1 <= first < last < TWO32 / 2
      && |blockMap| == last
      && forall i :: 0 <= i < last ==> blockMap[i] < size
    }
  }

  // ---- The journal superblock ----

  function StartOf(raw: Block): nat
    requires JOURNAL_SB_LEN <= |raw|
  {
    U32Be(raw, S_START)
  }

  function SequenceOf(raw: Block): nat
    requires JOURNAL_SB_LEN <= |raw|
  {
    U32Be(raw, S_SEQUENCE)
  }

  function Stamp(fmt: Format, raw: Block): (r: Block)
    requires JOURNAL_SB_LEN <= |raw|
    ensures |r| == |raw|
  {
    if !fmt.Csum() then raw
    else
      var blank := Patch(raw, S_CHECKSUM, [0, 0, 0, 0]);
      Patch(blank, S_CHECKSUM, BytesBe(fmt.sbCrc(blank[..JOURNAL_SB_LEN]) % TWO32))
  }

  /** `Journal::reset`: empty, starting again at `sequence`, with no error recorded. */
  function ResetBlock(fmt: Format, raw: Block, sequence: nat): (r: Block)
    requires JOURNAL_SB_LEN <= |raw| && sequence < TWO32
    ensures |r| == |raw|
  {
    Stamp(fmt, Patch(Patch(Patch(raw, S_SEQUENCE, BytesBe(sequence)),
                           S_START, [0, 0, 0, 0]), S_ERRNO, [0, 0, 0, 0]))
  }

  /** The checksum test `Journal::open` makes on the superblock. */
  predicate SuperblockOk(fmt: Format, raw: Block)
    requires JOURNAL_SB_LEN <= |raw|
  {
    fmt.Csum() ==>
      U32Be(raw, S_CHECKSUM) == fmt.sbCrc(Patch(raw, S_CHECKSUM, [0, 0, 0, 0])[..JOURNAL_SB_LEN]) % TWO32
  }

  lemma StampKeeps(fmt: Format, raw: Block, at: nat)
    requires JOURNAL_SB_LEN <= |raw| && at + 4 <= |raw|
    requires at + 4 <= S_CHECKSUM || S_CHECKSUM + 4 <= at
    ensures U32Be(Stamp(fmt, raw), at) == U32Be(raw, at)
  {
    if fmt.Csum() {
      var blank := Patch(raw, S_CHECKSUM, [0, 0, 0, 0]);
      WordElsewhere(raw, S_CHECKSUM, [0, 0, 0, 0], at);
      WordElsewhere(blank, S_CHECKSUM, BytesBe(fmt.sbCrc(blank[..JOURNAL_SB_LEN]) % TWO32), at);
    }
  }

  lemma StampVerifies(fmt: Format, raw: Block)
    requires JOURNAL_SB_LEN <= |raw|
    ensures SuperblockOk(fmt, Stamp(fmt, raw))
  {
    if fmt.Csum() {
      var zero: seq<Byte> := [0, 0, 0, 0];
      var blank := Patch(raw, S_CHECKSUM, zero);
      var crc := fmt.sbCrc(blank[..JOURNAL_SB_LEN]) % TWO32;
      WordRoundTrip(blank, S_CHECKSUM, crc);
      assert Patch(Patch(blank, S_CHECKSUM, BytesBe(crc)), S_CHECKSUM, zero) == blank;
    }
  }

  /** A reset superblock reads back as an empty journal at `sequence`, and passes the check on opening. */
  lemma ResetReadsBack(fmt: Format, raw: Block, sequence: nat)
    requires JOURNAL_SB_LEN <= |raw| && sequence < TWO32
    ensures StartOf(ResetBlock(fmt, raw, sequence)) == 0
    ensures SequenceOf(ResetBlock(fmt, raw, sequence)) == sequence
    ensures U32Be(ResetBlock(fmt, raw, sequence), S_ERRNO) == 0
    ensures SuperblockOk(fmt, ResetBlock(fmt, raw, sequence))
  {
    var zero: seq<Byte> := [0, 0, 0, 0];
    var a := Patch(raw, S_SEQUENCE, BytesBe(sequence));
    var b := Patch(a, S_START, zero);
    var c := Patch(b, S_ERRNO, zero);
    StampVerifies(fmt, c);
    StampKeeps(fmt, c, S_START);
    StampKeeps(fmt, c, S_SEQUENCE);
    StampKeeps(fmt, c, S_ERRNO);
    BytesBeValue(0);
    assert BytesBe(0) == zero;
    WordRoundTrip(b, S_ERRNO, 0);
    WordElsewhere(b, S_ERRNO, zero, S_START);
    WordRoundTrip(a, S_START, 0);
    WordElsewhere(b, S_ERRNO, zero, S_SEQUENCE);
    WordElsewhere(a, S_START, zero, S_SEQUENCE);
    WordRoundTrip(raw, S_SEQUENCE, sequence);
  }

  // ---- The log a device holds ----

  function LogOn(cfg: Config, dev: seq<Block>): (log: Log)
    requires cfg.Fits(|dev|) && JOURNAL_SB_LEN <= |dev[cfg.blockMap[0]]|
    ensures |log.blocks| == cfg.last
  {
    var raw := dev[cfg.blockMap[0]];
    Log(cfg.fmt, cfg.first, cfg.last, StartOf(raw), SequenceOf(raw),
        seq(cfg.last, i requires 0 <= i < cfg.last && cfg.Fits(|dev|) => dev[cfg.blockMap[i]]))
  }

  /** `dev` still holds the blocks of `log`. */
  ghost predicate Mirrors(cfg: Config, log: Log, dev: seq<Block>)
  {
    && cfg.Fits(|dev|)
    && log.Valid()
    && log.fmt == cfg.fmt && log.first == cfg.first && log.last == cfg.last
    && forall i :: 0 <= i < cfg.last ==> log.blocks[i] == dev[cfg.blockMap[i]]
  }

  /** A device this journal can be recovered on: empty, or holding a log. */
  ghost predicate Recoverable(cfg: Config, dev: seq<Block>)
  {
    && cfg.Fits(|dev|)
    && JOURNAL_SB_LEN <= |dev[cfg.blockMap[0]]|
    && (StartOf(dev[cfg.blockMap[0]]) != 0 ==>
          && LogOn(cfg, dev).Valid()
          && HomesApart(cfg, Events(LogOn(cfg, dev))))
  }

  /** The journal's scan reads past its log. */
  ghost predicate Straying(cfg: Config, dev: seq<Block>)
    requires Recoverable(cfg, dev)
  {
    StartOf(dev[cfg.blockMap[0]]) != 0 && !Stays(LogOn(cfg, dev))
  }

  /** No logged copy belongs to a block of the journal itself. */
  ghost predicate HomesApart(cfg: Config, events: seq<Event>)
  {
    forall j :: 0 <= j < |events| && events[j].Copy? ==> events[j].tag.home !in cfg.blockMap
  }

  // ---- What recovery leaves ----

  /** The replay goes ahead: the scan did not fail, and every revoke block can be read. */
  ghost predicate Replays(log: Log)
    requires log.Valid()
  {
    !Scan(log).end.BadChecksum? && WellFormedRevokes(Events(log))
  }

  /** The device with every surviving copy written home. */
  ghost function HomesOf(log: Log, dev: seq<Block>): (r: seq<Block>)
    requires log.Valid()
    ensures |r| == |dev|
  {
    if Replays(log) then Replay(log, Events(log), dev, |Events(log)|) else dev
  }

  ghost function HomeWritesOf(log: Log, size: nat): seq<Op>
    requires log.Valid()
  {
    if Replays(log) then Written(log, Events(log), size, |Events(log)|) else []
  }

  /** The replay goes ahead and every copy in it is good. */
  ghost predicate CleanReplay(log: Log, size: nat)
    requires log.Valid()
  {
    Replays(log) && Count(log, Events(log), size, |Events(log)|).faults == []
  }

  /** Where the log starts again: past what it held after a clean replay, else where it was. */
  ghost function RestartOf(log: Log, size: nat): (r: nat)
    requires log.Valid()
    ensures r < TWO32
  {
    if CleanReplay(log, size) then After(log.TidOf(Scan(log).count)) else log.sequence
  }

  /** After a clean replay no block left in the log is numbered as the first transaction to come, the leftovers of one that was
    * never committed included; after any other it starts again where it did. */
  lemma RestartIsNew(log: Log, size: nat, k: nat)
    requires log.Valid() && k <= Scan(log).count
    ensures CleanReplay(log, size) ==> RestartOf(log, size) != log.TidOf(k)
    ensures !CleanReplay(log, size) ==> RestartOf(log, size) == log.sequence
  {
    ScanIsLongest(log, 0);
    TidSuccessor(log.sequence, Scan(log).count);
    TidDiffers(log.sequence, Scan(log).count + 1, k);
  }

  /** The journal superblock's words: the transaction the log starts with, the block, and the error. */
  lemma SuperblockWords(raw: Block)
    requires JOURNAL_SB_LEN <= |raw|
    ensures SequenceOf(raw) == U32Be(raw, 24) && StartOf(raw) == U32Be(raw, 28) && S_ERRNO == 32 && S_CHECKSUM == 252
  {
  }

  /** The device before the journal is reset. */
  ghost function Homes(cfg: Config, dev: seq<Block>): (r: seq<Block>)
    requires Recoverable(cfg, dev)
    ensures |r| == |dev|
  {
    if StartOf(dev[cfg.blockMap[0]]) == 0 then dev else HomesOf(LogOn(cfg, dev), dev)
  }

  ghost function Restart(cfg: Config, dev: seq<Block>): (r: nat)
    requires Recoverable(cfg, dev)
    ensures r < TWO32
  {
    if StartOf(dev[cfg.blockMap[0]]) == 0 then After(SequenceOf(dev[cfg.blockMap[0]]))
    else RestartOf(LogOn(cfg, dev), |dev|)
  }

  /** The whole device after recovery. */
  ghost function Recovered(cfg: Config, dev: seq<Block>): (r: seq<Block>)
    requires Recoverable(cfg, dev)
    ensures |r| == |dev|
  {
    Homes(cfg, dev)[cfg.blockMap[0] := ResetBlock(cfg.fmt, dev[cfg.blockMap[0]], Restart(cfg, dev))]
  }

  /** What recovery asks of the device, in order. */
  ghost function Script(cfg: Config, dev: seq<Block>): seq<Op>
    requires Recoverable(cfg, dev)
  {
    var reset := Write(cfg.blockMap[0], ResetBlock(cfg.fmt, dev[cfg.blockMap[0]], Restart(cfg, dev)));
    if StartOf(dev[cfg.blockMap[0]]) == 0 then [reset]
    else HomeWritesOf(LogOn(cfg, dev), |dev|) + [Flush] + [reset] + [Flush]
  }

  /** Nothing goes wrong: the scan ends at a block that is not the next one, and the replay is clean. */
  ghost predicate Faultless(cfg: Config, dev: seq<Block>)
    requires Recoverable(cfg, dev)
  {
    StartOf(dev[cfg.blockMap[0]]) == 0
    || (Scan(LogOn(cfg, dev)).end.Stopped? && CleanReplay(LogOn(cfg, dev), |dev|))
  }

  /** After a faultless recovery every block but the journal superblock holds what the log owes it. */
  lemma RecoveryPays(cfg: Config, dev: seq<Block>, b: nat)
    requires Recoverable(cfg, dev) && Faultless(cfg, dev) && b < |dev| && b != cfg.blockMap[0]
    ensures if StartOf(dev[cfg.blockMap[0]]) == 0 then Recovered(cfg, dev)[b] == dev[b]
            else Owed(Events(LogOn(cfg, dev)), b, dev[b], Recovered(cfg, dev)[b])
  {
    if StartOf(dev[cfg.blockMap[0]]) != 0 {
      FaultlessReplayPays(LogOn(cfg, dev), Events(LogOn(cfg, dev)), dev, b);
    }
  }

  /** Recovery leaves an empty journal that opens again, and recovering once more changes no home block. */
  lemma RecoveryEmptiesJournal(cfg: Config, dev: seq<Block>)
    requires Recoverable(cfg, dev)
    ensures Recoverable(cfg, Recovered(cfg, dev))
    ensures var raw := Recovered(cfg, dev)[cfg.blockMap[0]];
            StartOf(raw) == 0 && SequenceOf(raw) == Restart(cfg, dev) && SuperblockOk(cfg.fmt, raw)
    ensures forall b :: 0 <= b < |dev| && b != cfg.blockMap[0] ==>
              Recovered(cfg, Recovered(cfg, dev))[b] == Recovered(cfg, dev)[b]
  {
    ResetReadsBack(cfg.fmt, dev[cfg.blockMap[0]], Restart(cfg, dev));
  }
}
