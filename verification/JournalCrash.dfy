// Crashing in the middle of a recovery, and recovering again.
//
// A device may hold writes back until it is flushed. After a crash it holds
// everything flushed, and for each block either that or any later write to it.
module JournalCrash {
  import opened Bytes
  import opened JournalFormat
  import opened JournalLog
  import opened JournalReplay
  import opened JournalDisk

  /** The device after doing `ops` in order. */
  function Applied(dev: seq<Block>, ops: seq<Op>): (r: seq<Block>)
    ensures |r| == |dev|
  {
    if ops == [] then dev
    else
      var op, before := ops[|ops| - 1], Applied(dev, ops[..|ops| - 1]);
      if op.Write? && op.block < |dev| then before[op.block := op.data] else before
  }

  /** Some write from `s` on put `data` in block `b`. */
  ghost predicate WroteSince(ops: seq<Op>, s: nat, b: nat, data: Block)
  {
    exists i :: s <= i < |ops| && ops[i] == Write(b, data)
  }

  /** What a crash after `ops` can leave, when everything up to `s` was flushed and nothing after. */
  ghost predicate CrashFrom(dev: seq<Block>, ops: seq<Op>, s: nat, after: seq<Block>)
  {
    && s <= |ops| && |after| == |dev|
    && (s == 0 || ops[s - 1].Flush?)
    && (forall i :: s <= i < |ops| ==> ops[i].Write?)
    && forall b :: 0 <= b < |dev| ==> after[b] == Applied(dev, ops[..s])[b] || WroteSince(ops, s, b, after[b])
  }

  ghost predicate Crash(dev: seq<Block>, ops: seq<Op>, after: seq<Block>)
  {
    exists s: nat :: CrashFrom(dev, ops, s, after)
  }

  // ---- The home writes ----

  lemma {:induction false} WrittenIsReplay(log: Log, events: seq<Event>, dev: seq<Block>, i: nat)
    requires i <= |events|
    ensures Applied(dev, Written(log, events, |dev|, i)) == Replay(log, events, dev, i)
  {
    if i > 0 {
      WrittenIsReplay(log, events, dev, i - 1);
      var e, before := events[i - 1], Written(log, events, |dev|, i - 1);
      if Judge(log, events, |dev|, e).Kept? {
        var op := Write(e.tag.home, Unescape(e.tag, e.data));
        assert (before + [op])[..|before|] == before;
      }
    }
  }

  /** Every home write is the copy of some event that is kept. */
  lemma {:induction false} WrittenOps(log: Log, events: seq<Event>, size: nat, i: nat, x: nat)
    requires i <= |events| && x < |Written(log, events, size, i)|
    ensures Written(log, events, size, i)[x].Write?
    ensures LastWriter(log, events, size, Written(log, events, size, i)[x].block, i) >= 0
  {
    var before := Written(log, events, size, i - 1);
    if x < |before| {
      WrittenOps(log, events, size, i - 1, x);
    }
  }

  /** A device that differs only in blocks the log writes holds the same log and recovers to the same homes. */
  lemma SameLogSameHomes(cfg: Config, dev: seq<Block>, after: seq<Block>)
    requires Recoverable(cfg, dev) && StartOf(dev[cfg.blockMap[0]]) != 0 && |after| == |dev|
    requires var log := LogOn(cfg, dev);
             forall b :: 0 <= b < |dev| ==>
               after[b] == dev[b] || (Replays(log) && LastWriter(log, Events(log), |dev|, b, |Events(log)|) >= 0)
    ensures Recoverable(cfg, after) && LogOn(cfg, after) == LogOn(cfg, dev) && (Straying(cfg, after) ==> Straying(cfg, dev))
    ensures forall b :: 0 <= b < |dev| && b != cfg.blockMap[0] ==> Recovered(cfg, after)[b] == Recovered(cfg, dev)[b]
  {
    var log := LogOn(cfg, dev);
    forall i | 0 <= i < cfg.last ensures after[cfg.blockMap[i]] == dev[cfg.blockMap[i]] {
      assert cfg.blockMap[i] in cfg.blockMap;
      LastWriterIsLast(log, Events(log), |dev|, cfg.blockMap[i], |Events(log)|);
    }
    assert LogOn(cfg, after).blocks == log.blocks;
    assert LogOn(cfg, after) == log;
    forall b | 0 <= b < |dev| && b != cfg.blockMap[0] ensures Recovered(cfg, after)[b] == Recovered(cfg, dev)[b] {
      if Replays(log) {
        ReplayForgets(log, Events(log), dev, after, b);
      }
    }
  }

  // ---- The three stages a crash can fall in ----

  lemma CrashAmongHomeWrites(cfg: Config, dev: seq<Block>, j: nat, after: seq<Block>)
    requires Recoverable(cfg, dev) && StartOf(dev[cfg.blockMap[0]]) != 0
    requires j <= |HomeWritesOf(LogOn(cfg, dev), |dev|)|
    requires Crash(dev, HomeWritesOf(LogOn(cfg, dev), |dev|)[..j], after)
    ensures |after| == |dev| && Recoverable(cfg, after) && (Straying(cfg, after) ==> Straying(cfg, dev))
    ensures forall b :: 0 <= b < |dev| && b != cfg.blockMap[0] ==> Recovered(cfg, after)[b] == Recovered(cfg, dev)[b]
  {
    var log := LogOn(cfg, dev);
    var ops := HomeWritesOf(log, |dev|);
    var s: nat :| CrashFrom(dev, ops[..j], s, after);
    forall x | 0 <= x < |ops| ensures ops[x].Write? {
      WrittenOps(log, Events(log), |dev|, |Events(log)|, x);
    }
    forall b | 0 <= b < |dev|
      ensures after[b] == dev[b] || (Replays(log) && LastWriter(log, Events(log), |dev|, b, |Events(log)|) >= 0)
    {
      if WroteSince(ops[..j], s, b, after[b]) {
        var i: nat :| s <= i < j && ops[..j][i] == Write(b, after[b]);
        WrittenOps(log, Events(log), |dev|, |Events(log)|, i);
      }
    }
    SameLogSameHomes(cfg, dev, after);
  }

  /** Once the first flush is done, only the superblock is still open. */
  lemma CrashAfterFlush(dev: seq<Block>, writes: seq<Op>, reset: Op, j: nat, after: seq<Block>)
    requires reset.Write? && reset.block < |dev|
    requires |writes| < j <= |writes| + 3
    requires Crash(dev, (writes + [Flush] + [reset] + [Flush])[..j], after)
    ensures |after| == |dev|
    ensures forall b :: 0 <= b < |dev| && b != reset.block ==> after[b] == Applied(dev, writes)[b]
    ensures after[reset.block] == Applied(dev, writes)[reset.block] || after[reset.block] == reset.data
  {
    var all, n := writes + [Flush] + [reset] + [Flush], |writes|;
    var ops := all[..j];
    var s: nat :| CrashFrom(dev, ops, s, after);
    assert ops[n] == Flush;
    AppliedFront(dev, writes, reset);
    assert s > n && ops[..s] == all[..s];
    forall b | 0 <= b < |dev|
      ensures after[b] == Applied(dev, all[..s])[b] || (b == reset.block && after[b] == reset.data)
    {
      LateWrite(ops, all, n, s, b, after[b]);
    }
  }

  /** After the first flush the only write is the one before the second. */
  lemma LateWrite(ops: seq<Op>, all: seq<Op>, n: nat, s: nat, b: nat, data: Block)
    requires |all| == n + 3 && all[n] == Flush && all[n + 2] == Flush && |ops| <= |all| && ops == all[..|ops|] && n < s
    ensures WroteSince(ops, s, b, data) ==> all[n + 1] == Write(b, data)
  {
    if WroteSince(ops, s, b, data) {
      var i :| s <= i < |ops| && ops[i] == Write(b, data);
      assert all[i] == ops[i];
    }
  }

  lemma AppliedFront(dev: seq<Block>, writes: seq<Op>, reset: Op)
    requires reset.Write? && reset.block < |dev|
    ensures var all, n := writes + [Flush] + [reset] + [Flush], |writes|;
            && Applied(dev, all[..n + 1]) == Applied(dev, writes)
            && Applied(dev, all[..n + 2]) == Applied(dev, writes)[reset.block := reset.data]
            && Applied(dev, all[..n + 3]) == Applied(dev, all[..n + 2])
  {
    var a := writes + [Flush];
    var b := a + [reset];
    var all, n := b + [Flush], |writes|;
    assert all[..n + 2] == b by { Front(b, [Flush], n + 2); }
    assert all[..n + 1] == a by { Front(b, [Flush], n + 1); Front(a, [reset], n + 1); }
    assert all[..n + 3] == all by { Front(all, [], n + 3); }
    AppliedAppend(dev, writes, Flush);
    AppliedAppend(dev, a, reset);
    AppliedAppend(dev, b, Flush);
  }

  lemma Front<T>(s: seq<T>, t: seq<T>, m: nat)
    requires m <= |s|
    ensures (s + t)[..m] == s[..m]
    ensures s[..|s|] == s && s + [] == s
  {
  }

  lemma AppliedAppend(dev: seq<Block>, ops: seq<Op>, op: Op)
    ensures Applied(dev, ops + [op]) ==
            if op.Write? && op.block < |dev| then Applied(dev, ops)[op.block := op.data] else Applied(dev, ops)
  {
    assert (ops + [op])[..|ops|] == ops;
  }

  /** With every home block in place, recovering again changes none, whichever superblock survived. */
  lemma CrashWithHomesInPlace(cfg: Config, dev: seq<Block>, after: seq<Block>)
    requires Recoverable(cfg, dev) && StartOf(dev[cfg.blockMap[0]]) != 0 && |after| == |dev|
    requires forall b :: 0 <= b < |dev| && b != cfg.blockMap[0] ==> after[b] == Homes(cfg, dev)[b]
    requires after[cfg.blockMap[0]] == Homes(cfg, dev)[cfg.blockMap[0]]
             || after[cfg.blockMap[0]] == ResetBlock(cfg.fmt, dev[cfg.blockMap[0]], Restart(cfg, dev))
    ensures Recoverable(cfg, after) && (Straying(cfg, after) ==> Straying(cfg, dev))
    ensures forall b :: 0 <= b < |dev| && b != cfg.blockMap[0] ==> Recovered(cfg, after)[b] == Recovered(cfg, dev)[b]
  {
    var log := LogOn(cfg, dev);
    var raw := dev[cfg.blockMap[0]];
    if after[cfg.blockMap[0]] == ResetBlock(cfg.fmt, raw, Restart(cfg, dev)) {
      ResetReadsBack(cfg.fmt, raw, Restart(cfg, dev));
    } else {
      forall b | 0 <= b < |dev|
        ensures after[b] == dev[b] || (Replays(log) && LastWriter(log, Events(log), |dev|, b, |Events(log)|) >= 0)
      {
        if Replays(log) {
          ReplayLeaves(log, Events(log), dev, |Events(log)|, b);
        }
      }
      SameLogSameHomes(cfg, dev, after);
    }
  }

  /** Crash at any point of a recovery, lose any unflushed writes, recover again: every home block is as if uninterrupted, and
    * the second scan stays in the log if the first did. */
  lemma RecoveryIsCrashIdempotent(cfg: Config, dev: seq<Block>, j: nat, after: seq<Block>)
    requires Recoverable(cfg, dev) && j <= |Script(cfg, dev)|
    requires Crash(dev, Script(cfg, dev)[..j], after)
    ensures |after| == |dev| && Recoverable(cfg, after) && (Straying(cfg, after) ==> Straying(cfg, dev))
    ensures forall b :: 0 <= b < |dev| && b != cfg.blockMap[0] ==> Recovered(cfg, after)[b] == Recovered(cfg, dev)[b]
  {
    var raw := dev[cfg.blockMap[0]];
    var reset := Write(cfg.blockMap[0], ResetBlock(cfg.fmt, raw, Restart(cfg, dev)));
    if StartOf(raw) == 0 {
      ResetReadsBack(cfg.fmt, raw, Restart(cfg, dev));
      CrashBeforeReset(dev, reset, j, after);
    } else {
      var log := LogOn(cfg, dev);
      var writes := HomeWritesOf(log, |dev|);
      if j <= |writes| {
        assert Script(cfg, dev)[..j] == writes[..j];
        CrashAmongHomeWrites(cfg, dev, j, after);
      } else {
        CrashAfterFlush(dev, writes, reset, j, after);
        WrittenIsReplay(log, Events(log), dev, |Events(log)|);
        CrashWithHomesInPlace(cfg, dev, after);
      }
    }
  }

  /** An empty journal is reset in a single write, which a crash either loses or keeps. */
  lemma CrashBeforeReset(dev: seq<Block>, reset: Op, j: nat, after: seq<Block>)
    requires reset.Write? && reset.block < |dev| && j <= 1 && Crash(dev, [reset][..j], after)
    ensures |after| == |dev|
    ensures forall b :: 0 <= b < |dev| && b != reset.block ==> after[b] == dev[b]
    ensures after[reset.block] == dev[reset.block] || after[reset.block] == reset.data
  {
    var s: nat :| CrashFrom(dev, [reset][..j], s, after);
    assert s == 0;
  }

  /** No replayed block is the journal's superblock. */
  lemma WritesSpareSuper(cfg: Config, dev: seq<Block>, log: Log, writes: seq<Op>, x: nat)
    requires Recoverable(cfg, dev) && StartOf(dev[cfg.blockMap[0]]) != 0 && log == LogOn(cfg, dev)
    requires writes == HomeWritesOf(log, |dev|) && x < |writes|
    ensures writes[x].Write? && writes[x].block != cfg.blockMap[0]
  {
    assert cfg.blockMap[0] in cfg.blockMap;
    WrittenOps(log, Events(log), |dev|, |Events(log)|, x);
    LastWriterIsLast(log, Events(log), |dev|, writes[x].block, |Events(log)|);
  }

  /** A block no operation writes is as it was, whatever the crash. */
  lemma Unwritten(dev: seq<Block>, ops: seq<Op>, b: nat, after: seq<Block>)
    requires Crash(dev, ops, after) && b < |dev| && forall x :: 0 <= x < |ops| ==> ops[x].Write? && ops[x].block != b
    ensures |after| == |dev| && after[b] == dev[b]
  {
    var s: nat :| CrashFrom(dev, ops, s, after);
    assert s == 0;
  }

  /** A persisted reset implies every replayed block is persisted. */
  lemma ResetImpliesReplayed(cfg: Config, dev: seq<Block>, j: nat, after: seq<Block>)
    requires Recoverable(cfg, dev) && StartOf(dev[cfg.blockMap[0]]) != 0 && j <= |Script(cfg, dev)|
    requires Crash(dev, Script(cfg, dev)[..j], after) && |after| == |dev|
    requires after[cfg.blockMap[0]] != dev[cfg.blockMap[0]]
    ensures forall b :: 0 <= b < |dev| && b != cfg.blockMap[0] ==> after[b] == Homes(cfg, dev)[b]
  {
    var log := LogOn(cfg, dev);
    var writes := HomeWritesOf(log, |dev|);
    var reset := Write(cfg.blockMap[0], ResetBlock(cfg.fmt, dev[cfg.blockMap[0]], Restart(cfg, dev)));
    WrittenIsReplay(log, Events(log), dev, |Events(log)|);
    if j <= |writes| {
      assert Script(cfg, dev)[..j] == writes[..j];
      forall x | 0 <= x < |writes| ensures writes[x].Write? && writes[x].block != cfg.blockMap[0] {
        WritesSpareSuper(cfg, dev, log, writes, x);
      }
      Unwritten(dev, writes[..j], cfg.blockMap[0], after);
    } else {
      CrashAfterFlush(dev, writes, reset, j, after);
    }
  }
}
