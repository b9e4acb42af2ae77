// Journal recovery as the program runs it: a scan, a revoke pass and a replay
// pass over the circular log, then a reset of the journal superblock.
module JournalRecovery {
  import opened Options
  import opened Bytes
  import opened JournalFormat
  import L = JournalLog
  import opened JournalReplay
  import opened JournalDisk

  /** How the scan ends; it strays when it reads a block number that the journal's map does not have. */
  datatype Outcome<T> = Ok(value: T) | Err(fault: Fault) | Strayed

  datatype Recovery = Recovery(
    first: nat,
    end: nat,
    blocksReplayed: nat,
    revokeHits: nat,
    revokes: nat,
    errors: seq<Fault>,
    errno: int)

  /** `rec` with a replay's counters and faults added. */
  function Credit(rec: Recovery, t: Tally): Recovery
  {
    rec.(blocksReplayed := rec.blocksReplayed + t.written,
         revokeHits := rec.revokeHits + t.hits,
         errors := rec.errors + t.faults)
  }

  /** Where a replay set out from. */
  datatype Origin = Origin(blocks: seq<Block>, trace: seq<Op>, rec: Recovery)

  /** The device, its trace and the report are what the first `j` events make of the origin. */
  ghost predicate ReplayedTo(log: L.Log, events: seq<Event>, from: Origin,
                             blocks: seq<Block>, trace: seq<Op>, rec: Recovery, j: nat)
  {
    && j <= |events|
    && blocks == Replay(log, events, from.blocks, j)
    && trace == from.trace + Written(log, events, |from.blocks|, j)
    && rec == Credit(from.rec, Count(log, events, |from.blocks|, j))
  }

  /** What a clean replay adds to `rec`. */
  ghost function Report(log: L.Log, size: nat, rec: Recovery): Recovery
    requires log.Valid()
  {
    var events := Events(log);
    Credit(rec.(revokes := rec.revokes + RevokeCount(events, |events|)), Count(log, events, size, |events|))
  }

  /** A block device, with the order of its writes and flushes on record. */
  class Device {
    var blocks: seq<Block>
    ghost var trace: seq<Op>

    constructor (contents: seq<Block>)
      ensures blocks == contents && trace == []
    {
      blocks, trace := contents, [];
    }

    method WriteBlock(b: nat, data: Block)
      requires b < |blocks|
      modifies this
      ensures blocks == old(blocks)[b := data]
      ensures trace == old(trace) + [Write(b, data)]
    {
      blocks, trace := blocks[b := data], trace + [Write(b, data)];
    }

    method FlushAll()
      modifies this
      ensures blocks == old(blocks)
      ensures trace == old(trace) + [Flush]
    {
      trace := trace + [Flush];
    }
  }

  class Journal {
    const cfg: Config
    var raw: Block
    var sequence: nat
    var start: nat
    var errno: int

    ghost predicate Loaded(dev: seq<Block>)
      reads this
    {
      && Recoverable(cfg, dev)
      && raw == dev[cfg.blockMap[0]]
      && sequence == SequenceOf(raw)
      && start == StartOf(raw)
    }

    constructor (cfg: Config, dev: Device)
      requires Recoverable(cfg, dev.blocks)
      ensures this.cfg == cfg && Loaded(dev.blocks)
      ensures var word := U32Be(raw, 32); errno == if word < 2_147_483_648 then word else word - 4_294_967_296
    {
      this.cfg := cfg;
      raw := dev.blocks[cfg.blockMap[0]];
      sequence := SequenceOf(dev.blocks[cfg.blockMap[0]]);
      start := StartOf(dev.blocks[cfg.blockMap[0]]);
      var e := U32Be(dev.blocks[cfg.blockMap[0]], S_ERRNO);
      errno := if e < TWO32 / 2 then e else e - TWO32;
    }

    /** The block at `nextBlock`, what it is to a walk expecting `nextCommit`, and the block after it. */
    method ReadHead(dev: Device, ghost log: L.Log, ghost p: nat, ghost k: nat, nextBlock: nat, nextCommit: nat)
      returns (buf: Block, head: L.Head, next: nat)
      requires Mirrors(cfg, log, dev.blocks) && nextBlock == log.Phys(p) && nextCommit == log.TidOf(k)
      ensures buf == log.At(p) && head == L.HeadAt(log, p, k) && next == log.Phys(p + 1)
      ensures 1024 <= |buf|
    {
      buf := dev.blocks[cfg.blockMap[nextBlock]];
      L.WrapIsUnrolled(log, p, 1);
      next := L.Wrap(cfg.first, cfg.last, nextBlock + 1);
      head := L.Foreign;
      if IsHeader(buf, nextCommit) {
        if Kind(buf) == DESCRIPTOR {
          var tags := ReadTags(cfg.fmt, buf);
          head := L.Descriptor(tags);
        } else if Kind(buf) == COMMIT {
          head := L.Commit;
        } else if Kind(buf) == REVOKE {
          var records := ReadRevokeRecords(cfg.fmt, buf);
          head := L.Revocation(records);
        }
      }
    }

    /** One turn of the scan: the block at the cursor, and where the cursor goes. */
    method ScanBlock(dev: Device, ghost log: L.Log, ghost c: L.Cursor,
                     nextBlock: nat, nextCommit: nat, lastTime: nat, doubt: bool)
      returns (end: Option<L.ScanEnd>, block: nat, commit: nat, time: nat, doubtful: bool, ghost next: L.Cursor)
      requires Mirrors(cfg, log, dev.blocks)
      requires nextBlock == log.Phys(c.p) && nextCommit == log.TidOf(c.k) && lastTime == c.time && doubt == c.doubt
      ensures L.ScanStep(log, c) == if end.Some? then L.Halt(end.value) else L.Go(next)
      ensures end.None? ==> commit == log.TidOf(next.k) && time == next.time && doubtful == next.doubt
      ensures end.None? ==> if L.OneTurn(log, c.p, c.k) then block == log.Phys(next.p) else block >= cfg.last
    {
      end, commit, time, doubtful := None, nextCommit, lastTime, doubt;
      var buf, head;
      buf, head, block := ReadHead(dev, log, c.p, c.k, nextBlock, nextCommit);
      match head {
        case Descriptor(tags) =>
          L.WrapIsUnrolled(log, c.p + 1, |tags|);
          L.WrapStaysInLog(log.first, log.last, block + |tags|);
          block := L.Wrap(cfg.first, cfg.last, block + |tags|);
          doubtful := doubt || !cfg.fmt.TailOk(buf);
        case Commit =>
          time := CommitTime(buf);
          if !cfg.fmt.CommitOk(buf) {
            end := Some(if time < lastTime then L.Stopped else L.CorruptCommit);
          } else if doubt {
            end := Some(if time >= lastTime then L.BadChecksum else L.Stopped);
          } else {
            TidSuccessor(log.sequence, c.k);
            commit := After(nextCommit);
          }
        case Revocation(_) =>
          doubtful := doubt || !cfg.fmt.TailOk(buf);
        case Foreign =>
          end := Some(L.Stopped);
      }
      next := L.Cursor(L.NextPos(log, c.p, c.k), L.NextTxn(log, c.p, c.k), time, doubtful);
    }

    /** What a scan that ends at transaction `nextCommit` reports. */
    method Conclude(halt: L.ScanEnd, nextCommit: nat, rec: Recovery) returns (rec': Recovery, end: Outcome<nat>)
      ensures end == if halt.BadChecksum? then Err(InvalidChecksum(nextCommit)) else Ok(nextCommit)
      ensures rec' == if !halt.CorruptCommit? then rec
                      else rec.(errors := rec.errors + [CorruptTransaction(nextCommit)],
                                errno := if cfg.fmt.asyncCommit then rec.errno else -22)
    {
      rec', end := rec, Ok(nextCommit);
      if halt == L.BadChecksum {
        end := Err(InvalidChecksum(nextCommit));
      } else if halt == L.CorruptCommit {
        rec' := rec.(errors := rec.errors + [CorruptTransaction(nextCommit)],
                     errno := if cfg.fmt.asyncCommit then rec.errno else -22);
      }
    }

    /** The scan has `steps` headers to go from `c`, which the variables stand for. */
    ghost predicate InHand(log: L.Log, c: L.Cursor, steps: nat, block: nat, commit: nat, time: nat, doubt: bool)
      requires log.Valid()
    {
      && commit == log.TidOf(c.k) && time == c.time && doubt == c.doubt
      && L.Scan(log) == L.ScanFrom(log, c, steps)
      && if block < log.last then block == log.Phys(c.p) && (L.Stays(log) <==> L.StaysFrom(log, c, steps))
         else L.Stays(log) <==> steps == 0
    }

    lemma ScanStarts(log: L.Log) returns (c: L.Cursor)
      requires log.Valid()
      ensures InHand(log, c, log.last, log.start, log.sequence, 0, false)
    {
      c := L.Cursor(0, 0, 0, false);
    }

    lemma ScanOn(log: L.Log, c: L.Cursor, steps: nat, block: nat, commit: nat, time: nat, doubt: bool,
                 next: L.Cursor, block': nat, commit': nat, time': nat, doubt': bool)
      requires log.Valid() && 0 < steps && block < log.last && InHand(log, c, steps, block, commit, time, doubt)
      requires L.ScanStep(log, c) == L.Go(next) && commit' == log.TidOf(next.k) && time' == next.time && doubt' == next.doubt
      requires if L.OneTurn(log, c.p, c.k) then block' == log.Phys(next.p) else block' >= log.last
      ensures InHand(log, next, steps - 1, block', commit', time', doubt')
    {
    }

    lemma ScanStops(log: L.Log, c: L.Cursor, steps: nat, block: nat, commit: nat, time: nat, doubt: bool, end: L.ScanEnd)
      requires log.Valid() && block < log.last && 0 < steps && InHand(log, c, steps, block, commit, time, doubt) && L.ScanStep(log, c) == L.Halt(end)
      ensures L.Stays(log) && L.Scan(log) == L.ScanResult(c.k, end)
    {
    }

    method ScanTurn(dev: Device, ghost log: L.Log, ghost c: L.Cursor, ghost steps: nat,
                    nextBlock: nat, nextCommit: nat, lastTime: nat, doubt: bool)
      returns (end: Option<L.ScanEnd>, block: nat, commit: nat, time: nat, doubtful: bool, ghost next: L.Cursor)
      requires Mirrors(cfg, log, dev.blocks) && 0 < steps && nextBlock < log.last
      requires InHand(log, c, steps, nextBlock, nextCommit, lastTime, doubt)
      ensures end.Some? ==> L.Stays(log) && L.Scan(log).end == end.value && log.TidOf(L.Scan(log).count) == nextCommit
      ensures end.None? ==> InHand(log, next, steps - 1, block, commit, time, doubtful)
    {
      end, block, commit, time, doubtful, next := ScanBlock(dev, log, c, nextBlock, nextCommit, lastTime, doubt);
      if end.Some? {
        ScanStops(log, c, steps, nextBlock, nextCommit, lastTime, doubt, end.value);
      } else {
        ScanOn(log, c, steps, nextBlock, nextCommit, lastTime, doubt, next, block, commit, time, doubtful);
      }
    }

    method Scan(dev: Device, ghost log: L.Log, rec: Recovery) returns (rec': Recovery, end: Outcome<nat>)
      requires Mirrors(cfg, log, dev.blocks) && start == log.start && sequence == log.sequence
      ensures end.Strayed? <==> !L.Stays(log)
      ensures var s, tid := L.Scan(log), log.TidOf(L.Scan(log).count); L.Stays(log) ==>
              && end == (if s.end.BadChecksum? then Err(InvalidChecksum(tid)) else Ok(tid))
              && rec' == (if !s.end.CorruptCommit? then rec
                          else rec.(errors := rec.errors + [CorruptTransaction(tid)],
                                    errno := if cfg.fmt.asyncCommit then rec.errno else -22))
    {
      ghost var c := ScanStarts(log);
      var nextCommit: nat, nextBlock: nat, lastTime: nat, doubt := sequence, start, 0, false;
      for i := 0 to cfg.last
        invariant InHand(log, c, cfg.last - i, nextBlock, nextCommit, lastTime, doubt)
      {
        if nextBlock >= cfg.last {
          return rec, Strayed;
        }
        var halt, block, commit, time, doubtful;
        ghost var next;
        halt, block, commit, time, doubtful, next := ScanTurn(dev, log, c, cfg.last - i, nextBlock, nextCommit, lastTime, doubt);
        if halt.Some? {
          rec', end := Conclude(halt.value, nextCommit, rec);
          return;
        }
        nextBlock, nextCommit, lastTime, doubt, c := block, commit, time, doubtful, next;
      }
      ScanEnded(log, c, nextBlock, nextCommit, lastTime, doubt);
      return rec, Ok(nextCommit);
    }

    lemma ScanEnded(log: L.Log, c: L.Cursor, block: nat, commit: nat, time: nat, doubt: bool)
      requires log.Valid() && InHand(log, c, 0, block, commit, time, doubt)
      ensures L.Stays(log) && L.Scan(log) == L.ScanResult(c.k, L.Stopped)
    {
    }

    /** Enters one revoke block's records in the table, keeping the latest transaction for each block. */
    method NoteRevokes(ghost log: L.Log, ghost events: seq<Event>, ghost k: nat, nextCommit: nat,
                       blocks: seq<nat>, revoked: map<nat, nat>)
      returns (revoked': map<nat, nat>)
      requires k < TWO32 / 2 && nextCommit == log.TidOf(k) && UpTo(events, k) && Tracks(log, revoked, events)
      ensures Tracks(log, revoked', events + RevokeEvents(k, blocks))
    {
      revoked' := revoked;
      ghost var seen := events;
      for i := 0 to |blocks|
        invariant seen == events + RevokeEvents(k, blocks)[..i]
        invariant UpTo(seen, k) && Tracks(log, revoked', seen)
      {
        ghost var e := RevokeEvents(k, blocks)[i];
        LastRevokeUpTo(seen, blocks[i], k);
        forall b: nat { LastRevokeAfter(seen, e, b); }
        if LastRevoke(seen, blocks[i]) >= 0 {
          TidOrder(log.sequence, k, LastRevoke(seen, blocks[i]));
        }
        revoked' := NoteRevoke(blocks[i], nextCommit, revoked');
        assert events + RevokeEvents(k, blocks)[..i + 1] == seen + [e];
        seen := seen + [e];
      }
      assert RevokeEvents(k, blocks)[..|blocks|] == RevokeEvents(k, blocks);
    }

    static function NoteRevoke(block: nat, tid: nat, revoked: map<nat, nat>): map<nat, nat>
      requires tid < TWO32 && (block in revoked ==> revoked[block] < TWO32)
    {
      if block !in revoked || TidGt(tid, revoked[block]) then revoked[block := tid] else revoked
    }

    /** Replays the logged block behind one tag, unless it was revoked or is no good. */
    method ReplayTag(dev: Device, ghost log: L.Log, ghost events: seq<Event>, ghost j: nat, ghost from: Origin,
                     tag: Tag, logged: nat, nextCommit: nat, revoked: map<nat, nat>, rec: Recovery)
      returns (rec': Recovery)
      requires Mirrors(cfg, log, dev.blocks) && Tracks(log, revoked, events) && UpTo(events, cfg.last)
      requires j < |events| && cfg.first <= logged < cfg.last && tag.home !in cfg.blockMap
      requires events[j] == Copy(events[j].k, tag, log.blocks[logged]) && nextCommit == log.TidOf(events[j].k)
      requires ReplayedTo(log, events, from, dev.blocks, dev.trace, rec, j)
      modifies dev
      ensures Mirrors(cfg, log, dev.blocks)
      ensures ReplayedTo(log, events, from, dev.blocks, dev.trace, rec', j + 1)
    {
      LastRevokeUpTo(events, tag.home, cfg.last);
      if LastRevoke(events, tag.home) >= 0 {
        TidOrder(log.sequence, events[j].k, LastRevoke(events, tag.home));
      }
      if tag.home in revoked && !TidGt(nextCommit, revoked[tag.home]) {
        return rec.(revokeHits := rec.revokeHits + 1);
      }
      var data := dev.blocks[cfg.blockMap[logged]];
      if !cfg.fmt.DataOk(tag.raw, data, nextCommit) {
        return rec.(errors := rec.errors + [BadBlock(tag.home)]);
      }
      if tag.home >= |dev.blocks| {
        return rec.(errors := rec.errors + [OutsideBlock(tag.home)]);
      }
      data := Unescape(tag, data);
      dev.WriteBlock(tag.home, data);
      return rec.(blocksReplayed := rec.blocksReplayed + 1);
    }

    /** Replays the blocks of one descriptor, which follow it in the log. */
    method ReplayTags(dev: Device, ghost log: L.Log, ghost events: seq<Event>, ghost done: nat, ghost from: Origin,
                      ghost p: nat, ghost k: nat, tags: seq<Tag>, nextBlock: nat, nextCommit: nat,
                      revoked: map<nat, nat>, rec: Recovery)
      returns (next: nat, rec': Recovery)
      requires Mirrors(cfg, log, dev.blocks) && Tracks(log, revoked, events) && UpTo(events, cfg.last)
      requires HomesApart(cfg, events) && CopiesAt(log, events, done, k, tags, p)
      requires nextBlock == log.Phys(p) && nextCommit == log.TidOf(k)
      requires ReplayedTo(log, events, from, dev.blocks, dev.trace, rec, done)
      modifies dev
      ensures Mirrors(cfg, log, dev.blocks) && next == log.Phys(p + |tags|)
      ensures ReplayedTo(log, events, from, dev.blocks, dev.trace, rec', done + |tags|)
    {
      next, rec' := nextBlock, rec;
      for i := 0 to |tags|
        invariant Mirrors(cfg, log, dev.blocks) && next == log.Phys(p + i)
        invariant ReplayedTo(log, events, from, dev.blocks, dev.trace, rec', done + i)
      {
        var logged := next;
        L.WrapIsUnrolled(log, p + i, 1);
        next := L.Wrap(cfg.first, cfg.last, next + 1);
        assert events[done + i] == Copy(k, tags[i], log.At(p + i));
        rec' := ReplayTag(dev, log, events, done + i, from, tags[i], logged, nextCommit, revoked, rec');
      }
    }

    /** One turn of the replay pass: the header the walk stands at, with the blocks logged behind it. */
    method ReplayHead(dev: Device, ghost log: L.Log, ghost events: seq<Event>, ghost from: Origin, ghost w: Walk,
                      ghost next: Walk, nextBlock: nat, nextCommit: nat, revoked: map<nat, nat>, rec: Recovery)
      returns (block: nat, commit: nat, rec': Recovery)
      requires Mirrors(cfg, log, dev.blocks) && Tracks(log, revoked, events) && UpTo(events, cfg.last)
      requires HomesApart(cfg, events)
      requires w.steps > 0 && L.Verified(log, w.p, w.k) && Here(events, w.done, EventsAt(log, w.p, w.k))
      requires next == Onward(log, w)
      requires nextBlock == log.Phys(w.p) && nextCommit == log.TidOf(w.k)
      requires ReplayedTo(log, events, from, dev.blocks, dev.trace, rec, w.done)
      modifies dev
      ensures Mirrors(cfg, log, dev.blocks)
      ensures block == log.Phys(next.p) && commit == log.TidOf(next.k)
      ensures ReplayedTo(log, events, from, dev.blocks, dev.trace, rec', next.done)
    {
      commit, rec' := nextCommit, rec;
      var buf, head;
      buf, head, block := ReadHead(dev, log, w.p, w.k, nextBlock, nextCommit);
      match head {
        case Descriptor(tags) =>
          // Its checksum cannot fail here: the scan verified it (PassesReachEnd).
          assert cfg.fmt.TailOk(buf);
          CopiesAreHere(log, events, w);
          assert next.done == w.done + |tags| && next.p == w.p + 1 + |tags| && next.k == w.k;
          block, rec' := ReplayTags(dev, log, events, w.done, from, w.p + 1, w.k, tags, block, nextCommit, revoked, rec);
        case Commit =>
          TidSuccessor(log.sequence, w.k);
          assert next.done == w.done && next.p == w.p + 1 && next.k == w.k + 1;
          commit := After(nextCommit);
        case Revocation(_) =>
          SkipRevokes(log, events, from, dev.blocks, dev.trace, rec, w);
          assert next.p == w.p + 1 && next.k == w.k;
        case Foreign =>
          assert false;
      }
    }

    /** `ReplayHead` with the walk moved on past what it replayed. */
    method ReplayStep(dev: Device, ghost log: L.Log, ghost events: seq<Event>, ghost n: nat, ghost from: Origin, ghost w: Walk,
                      end: nat, nextBlock: nat, nextCommit: nat, revoked: map<nat, nat>, rec: Recovery)
      returns (block: nat, commit: nat, rec': Recovery)
      requires Mirrors(cfg, log, dev.blocks) && n < TWO32 / 2 && end == log.TidOf(n)
      requires Tracks(log, revoked, events) && UpTo(events, cfg.last) && HomesApart(cfg, events)
      requires Ahead(log, events, w, n) && w.k < n
      requires nextBlock == log.Phys(w.p) && nextCommit == log.TidOf(w.k)
      requires ReplayedTo(log, events, from, dev.blocks, dev.trace, rec, w.done)
      modifies dev
      ensures Mirrors(cfg, log, dev.blocks) && w.steps > 0
      ensures block == log.Phys(Onward(log, w).p) && commit == log.TidOf(Onward(log, w).k)
      ensures TidGeq(commit, end) <==> Onward(log, w).k >= n
      ensures Ahead(log, events, Onward(log, w), n)
      ensures ReplayedTo(log, events, from, dev.blocks, dev.trace, rec', Onward(log, w).done)
    {
      PassHeader(log, events, w, n);
      block, commit, rec' := ReplayHead(dev, log, events, from, w, Onward(log, w), nextBlock, nextCommit, revoked, rec);
      TidOrder(log.sequence, Onward(log, w).k, n);
    }

    /** The replay pass: every logged block written home, unless revoked at or after its transaction. */
    method ReplayPass(dev: Device, ghost log: L.Log, end: nat, revoked: map<nat, nat>, rec: Recovery)
      returns (rec': Recovery)
      requires Mirrors(cfg, log, dev.blocks) && start == log.start && sequence == log.sequence
      requires end == log.TidOf(L.Scan(log).count)
      requires Tracks(log, revoked, Events(log)) && HomesApart(cfg, Events(log))
      modifies dev
      ensures ReplayedTo(log, Events(log), Origin(old(dev.blocks), old(dev.trace), rec),
                         dev.blocks, dev.trace, rec', |Events(log)|)
    {
      ghost var events, n := Events(log), L.Scan(log).count;
      ghost var from, w := Origin(dev.blocks, dev.trace, rec), Walk(0, 0, 0, log.last);
      AllAhead(log);
      TidOrder(log.sequence, 0, n);
      rec' := rec;
      var nextCommit, nextBlock := sequence, start;
      while !TidGeq(nextCommit, end)
        invariant Mirrors(cfg, log, dev.blocks)
        invariant nextBlock == log.Phys(w.p) && nextCommit == log.TidOf(w.k)
        invariant TidGeq(nextCommit, end) <==> w.k >= n
        invariant Ahead(log, events, w, n)
        invariant ReplayedTo(log, events, from, dev.blocks, dev.trace, rec', w.done)
        decreases w.steps
      {
        nextBlock, nextCommit, rec' :=
          ReplayStep(dev, log, events, n, from, w, end, nextBlock, nextCommit, revoked, rec');
        w := Onward(log, w);
      }
      assert events[w.done..] == [];
    }

    /** Over a descriptor's data blocks, one at a time. */
    method StepOver(ghost log: L.Log, ghost p: nat, block: nat, n: nat) returns (next: nat)
      requires log.Valid() && cfg.first == log.first && cfg.last == log.last && block == log.Phys(p)
      ensures next == log.Phys(p + n)
    {
      next := block;
      for i := 0 to n
        invariant next == log.Phys(p + i)
      {
        L.WrapIsUnrolled(log, p + i, 1);
        next := L.Wrap(cfg.first, cfg.last, next + 1);
      }
    }

    /** One turn of the revoke pass: a revoke block's records go into the table, everything else is stepped over. */
    method RevokeHead(dev: Device, ghost log: L.Log, ghost seen: seq<Event>, ghost w: Walk, ghost next: Walk,
                      nextBlock: nat, nextCommit: nat, revoked: map<nat, nat>)
      returns (fault: Option<Fault>, block: nat, commit: nat, revoked': map<nat, nat>, noted: nat)
      requires Mirrors(cfg, log, dev.blocks) && w.steps > 0 && next == Onward(log, w)
      requires w.k < TWO32 / 2 && L.Verified(log, w.p, w.k) && UpTo(seen, w.k) && Tracks(log, revoked, seen)
      requires nextBlock == log.Phys(w.p) && nextCommit == log.TidOf(w.k)
      ensures block == log.Phys(next.p) && commit == log.TidOf(next.k)
      ensures var here := EventsAt(log, w.p, w.k);
              && (fault.None? ==> Tracks(log, revoked', seen + here) && WellFormedRevokes(here))
              && (fault.None? ==> noted == if L.HeadAt(log, w.p, w.k).Revocation? then |here| else 0)
              && (fault.Some? ==> |here| == 1 && here[0].Malformed? && fault.value == RevokeTooLong(here[0].claimed))
    {
      fault, commit, revoked', noted := None, nextCommit, revoked, 0;
      ghost var here := EventsAt(log, w.p, w.k);
      var buf, head;
      buf, head, block := ReadHead(dev, log, w.p, w.k, nextBlock, nextCommit);
      match head {
        case Descriptor(tags) =>
          block := StepOver(log, w.p + 1, block, |tags|);
          NothingRevoked(log, w.p, w.k, revoked, seen);
        case Commit =>
          TidSuccessor(log.sequence, w.k);
          commit := After(nextCommit);
          NothingRevoked(log, w.p, w.k, revoked, seen);
        case Revocation(Records(blocks)) =>
          revoked' := NoteRevokes(log, seen, w.k, nextCommit, blocks, revoked);
          noted := |blocks|;
        case Revocation(TooLong(claimed)) =>
          fault := Some(RevokeTooLong(claimed));
        case Foreign =>
          assert false;
      }
    }

    /** `RevokeHead` with the events it consumed added to those read so far. */
    method RevokeStep(dev: Device, ghost log: L.Log, ghost events: seq<Event>, ghost n: nat, ghost w: Walk,
                      end: nat, nextBlock: nat, nextCommit: nat, revoked: map<nat, nat>, count: nat)
      returns (fault: Option<Fault>, block: nat, commit: nat, revoked': map<nat, nat>, count': nat)
      requires Mirrors(cfg, log, dev.blocks) && n < TWO32 / 2 && end == log.TidOf(n)
      requires Ahead(log, events, w, n) && w.k < n && Noted(log, events, w, revoked, count)
      requires nextBlock == log.Phys(w.p) && nextCommit == log.TidOf(w.k)
      ensures w.steps > 0
      ensures block == log.Phys(Onward(log, w).p) && commit == log.TidOf(Onward(log, w).k)
      ensures TidGeq(commit, end) <==> Onward(log, w).k >= n
      ensures fault.None? ==> Ahead(log, events, Onward(log, w), n) && Noted(log, events, Onward(log, w), revoked', count')
      ensures fault.Some? ==> fault.value.RevokeTooLong? && !WellFormedRevokes(events)
    {
      PassHeader(log, events, w, n);
      var noted;
      fault, block, commit, revoked', noted :=
        RevokeHead(dev, log, events[..w.done], w, Onward(log, w), nextBlock, nextCommit, revoked);
      count' := count + noted;
      if fault.Some? {
        assert events[w.done] == EventsAt(log, w.p, w.k)[0];
      } else {
        NotedOn(log, events, w, revoked, count, revoked', noted);
      }
      TidOrder(log.sequence, Onward(log, w).k, n);
    }

    /** The revoke pass: for each block, the latest transaction that revoked it. */
    method RevokePass(dev: Device, ghost log: L.Log, end: nat, rec: Recovery)
      returns (fault: Option<Fault>, revoked: map<nat, nat>, rec': Recovery)
      requires Mirrors(cfg, log, dev.blocks) && start == log.start && sequence == log.sequence
      requires end == log.TidOf(L.Scan(log).count)
      ensures if fault.None? then
                && WellFormedRevokes(Events(log)) && Tracks(log, revoked, Events(log))
                && rec' == rec.(revokes := rec.revokes + RevokeCount(Events(log), |Events(log)|))
              else
                && !WellFormedRevokes(Events(log)) && fault.value.RevokeTooLong?
                && rec' == rec.(revokes := rec'.revokes)
    {
      ghost var events, n := Events(log), L.Scan(log).count;
      ghost var w := Walk(0, 0, 0, log.last);
      AllAhead(log);
      TidOrder(log.sequence, 0, n);
      revoked := map[];
      var nextCommit, nextBlock, count := sequence, start, 0;
      while !TidGeq(nextCommit, end)
        invariant nextBlock == log.Phys(w.p) && nextCommit == log.TidOf(w.k)
        invariant TidGeq(nextCommit, end) <==> w.k >= n
        invariant Ahead(log, events, w, n)
        invariant Noted(log, events, w, revoked, count)
        decreases w.steps
      {
        fault, nextBlock, nextCommit, revoked, count :=
          RevokeStep(dev, log, events, n, w, end, nextBlock, nextCommit, revoked, count);
        if fault.Some? {
          return fault, revoked, rec.(revokes := rec.revokes + count);
        }
        w := Onward(log, w);
      }
      NotedAll(log, events, w, n, revoked, count);
      return None, revoked, rec.(revokes := rec.revokes + count);
    }

    static lemma CopiesAreHere(log: L.Log, events: seq<Event>, w: Walk)
      requires log.Valid() && L.HeadAt(log, w.p, w.k).Descriptor?
      requires Here(events, w.done, EventsAt(log, w.p, w.k))
      ensures CopiesAt(log, events, w.done, w.k, L.HeadAt(log, w.p, w.k).tags, w.p + 1)
    {
      var here, tags := EventsAt(log, w.p, w.k), L.HeadAt(log, w.p, w.k).tags;
      forall i | 0 <= i < |tags| ensures events[w.done + i] == Copy(w.k, tags[i], log.At(w.p + 1 + i)) {
        assert events[w.done + i] == here[i];
      }
    }

    /** Revoke events change nothing in a replay. */
    static lemma SkipRevokes(log: L.Log, events: seq<Event>, from: Origin, blocks: seq<Block>, trace: seq<Op>,
                             rec: Recovery, w: Walk)
      requires log.Valid() && L.HeadAt(log, w.p, w.k).Revocation?
      requires Here(events, w.done, EventsAt(log, w.p, w.k))
      requires ReplayedTo(log, events, from, blocks, trace, rec, w.done)
      ensures ReplayedTo(log, events, from, blocks, trace, rec, w.done + |EventsAt(log, w.p, w.k)|)
    {
      var here := EventsAt(log, w.p, w.k);
      for i := 0 to |here|
        invariant ReplayedTo(log, events, from, blocks, trace, rec, w.done + i)
      {
        assert events[w.done + i] == here[i] && !here[i].Copy?;
      }
    }

    /** Marks the journal empty, starting again at `next`. */
    method Reset(dev: Device, next: nat)
      requires next < TWO32 && cfg.Fits(|dev.blocks|) && JOURNAL_SB_LEN <= |raw|
      modifies this, dev
      ensures raw == ResetBlock(cfg.fmt, old(raw), next)
      ensures sequence == next && start == 0 && errno == 0
      ensures dev.blocks == old(dev.blocks)[cfg.blockMap[0] := raw]
      ensures dev.trace == old(dev.trace) + [Write(cfg.blockMap[0], raw)]
    {
      raw := ResetBlock(cfg.fmt, raw, next);
      sequence, start, errno := next, 0, 0;
      dev.WriteBlock(cfg.blockMap[0], raw);
    }

    /** The revoke pass and, when it can read every revoke block, the replay pass. */
    method RevokeAndReplay(dev: Device, ghost log: L.Log, end: nat, rec: Recovery) returns (rec': Recovery, next: nat)
      requires Mirrors(cfg, log, dev.blocks) && start == log.start && sequence == log.sequence
      requires !L.Scan(log).end.BadChecksum? && end == log.TidOf(L.Scan(log).count) && HomesApart(cfg, Events(log))
      modifies dev
      ensures dev.blocks == HomesOf(log, old(dev.blocks))
      ensures dev.trace == old(dev.trace) + HomeWritesOf(log, old(|dev.blocks|))
      ensures next == RestartOf(log, old(|dev.blocks|))
      ensures CleanReplay(log, old(|dev.blocks|)) ==> rec' == Report(log, old(|dev.blocks|), rec)
      ensures |rec.errors| <= |rec'.errors| && (CleanReplay(log, old(|dev.blocks|)) <==> |rec'.errors| == |rec.errors|)
    {
      var fault, revoked;
      fault, revoked, rec' := RevokePass(dev, log, end, rec);
      if fault.Some? {
        rec' := rec'.(errors := rec'.errors + [fault.value]);
        return rec', sequence;
      }
      var before := |rec'.errors|;
      rec' := ReplayPass(dev, log, end, revoked, rec');
      next := if |rec'.errors| == before then After(end) else sequence;
    }

    /** The three passes: what they leave at home, and where the log is to start again. */
    method Passes(dev: Device, ghost log: L.Log, rec: Recovery) returns (strayed: bool, rec': Recovery, next: nat)
      requires Mirrors(cfg, log, dev.blocks) && start == log.start && sequence == log.sequence
      requires HomesApart(cfg, Events(log)) && rec.errors == []
      modifies dev
      ensures strayed <==> !L.Stays(log)
      ensures strayed ==> dev.blocks == old(dev.blocks) && dev.trace == old(dev.trace)
      ensures !strayed ==>
                && dev.blocks == HomesOf(log, old(dev.blocks))
                && dev.trace == old(dev.trace) + HomeWritesOf(log, old(|dev.blocks|))
                && next == RestartOf(log, old(|dev.blocks|))
                && (rec'.errors == [] <==> L.Scan(log).end.Stopped? && CleanReplay(log, old(|dev.blocks|)))
                && (rec'.errors == [] ==> rec' == Report(log, old(|dev.blocks|), rec.(end := log.TidOf(L.Scan(log).count))))
    {
      var end;
      rec', end := Scan(dev, log, rec);
      strayed, next := end.Strayed?, sequence;
      if end.Err? {
        rec' := rec'.(errors := rec'.errors + [end.fault]);
      } else if end.Ok? {
        rec', next := RevokeAndReplay(dev, log, end.value, rec'.(end := end.value));
      }
    }

    /** Recovery of a journal that is not empty. */
    method RecoverLog(dev: Device, ghost log: L.Log, rec: Recovery) returns (strayed: bool, rec': Recovery)
      requires Mirrors(cfg, log, dev.blocks) && start == log.start && sequence == log.sequence
      requires HomesApart(cfg, Events(log)) && rec.errors == [] && JOURNAL_SB_LEN <= |raw|
      modifies this, dev
      ensures strayed <==> !L.Stays(log)
      ensures strayed ==> dev.blocks == old(dev.blocks) && dev.trace == old(dev.trace) && Unchanged(old(raw), old(sequence), old(start), old(errno))
      ensures !strayed ==>
                && raw == ResetBlock(cfg.fmt, old(raw), RestartOf(log, old(|dev.blocks|)))
                && sequence == RestartOf(log, old(|dev.blocks|)) && start == 0 && errno == 0
                && dev.blocks == HomesOf(log, old(dev.blocks))[cfg.blockMap[0] := raw]
                && dev.trace == old(dev.trace) + HomeWritesOf(log, old(|dev.blocks|)) + [Flush] + [Write(cfg.blockMap[0], raw)] + [Flush]
                && (rec'.errors == [] <==> L.Scan(log).end.Stopped? && CleanReplay(log, old(|dev.blocks|)))
                && (rec'.errors == [] ==> rec' == Report(log, old(|dev.blocks|), rec.(end := log.TidOf(L.Scan(log).count))))
    {
      var next;
      strayed, rec', next := Passes(dev, log, rec);
      if strayed {
        return;
      }
      dev.FlushAll();
      Reset(dev, next);
      dev.FlushAll();
    }

    ghost predicate Unchanged(raw: Block, sequence: nat, start: nat, errno: int)
      reads this
    {
      this.raw == raw && this.sequence == sequence && this.start == start && this.errno == errno
    }

    static lemma Assoc(before: seq<Op>, writes: seq<Op>, reset: Op)
      ensures before + writes + [Flush] + [reset] + [Flush] == before + (writes + [Flush] + [reset] + [Flush])
    {
    }

    /** Replays the journal into the device and marks the journal empty. Where the scan strays from the log, recovery stops
      * there with nothing written. */
    method Recover(dev: Device) returns (strayed: bool, rec: Recovery)
      requires Loaded(dev.blocks)
      modifies this, dev
      ensures strayed <==> Straying(cfg, old(dev.blocks))
      ensures strayed ==> dev.blocks == old(dev.blocks) && dev.trace == old(dev.trace) && Loaded(dev.blocks) && start == old(start)
      ensures !strayed ==>
                && dev.blocks == Recovered(cfg, old(dev.blocks))
                && dev.trace == old(dev.trace) + Script(cfg, old(dev.blocks))
                && Loaded(dev.blocks) && start == 0
                && (rec.errors == [] <==> Faultless(cfg, old(dev.blocks)))
      ensures !strayed && rec.errors == [] && old(start) != 0 ==>
                var log := LogOn(cfg, old(dev.blocks));
                rec == Report(log, old(|dev.blocks|), Recovery(log.sequence, log.TidOf(L.Scan(log).count), 0, 0, 0, [], old(errno)))
    {
      rec, strayed := Recovery(sequence, sequence, 0, 0, 0, [], errno), false;
      RecoveryEmptiesJournal(cfg, dev.blocks);
      if start == 0 {
        Reset(dev, After(sequence));
      } else {
        ghost var log, size, before := LogOn(cfg, dev.blocks), |dev.blocks|, dev.trace;
        strayed, rec := RecoverLog(dev, log, rec);
        if !strayed {
          Assoc(before, HomeWritesOf(log, size), Write(cfg.blockMap[0], raw));
        }
      }
    }
  }
}
