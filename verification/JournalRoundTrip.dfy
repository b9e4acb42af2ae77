// Writing a log and recovering it: every block ends up with what was last
// written for it and not revoked since.
module JournalRoundTrip {
  import opened Bytes
  import opened JournalFormat
  import opened JournalLog
  import opened JournalReplay
  import opened JournalDisk
  import opened JournalWriting
  import JournalRecovery

  // ---- Which piece an event comes from ----

  function Size(piece: Piece): nat
  {
    match piece
    case Described(items, _, _) => |items|
    case Revoking(nums, _) => |nums|
    case Committed(_, _, _) => 0
  }

  /** Events of the pieces before the `m`-th. */
  function Before(pieces: seq<Piece>, m: nat): nat
    requires m <= |pieces|
  {
    if m == 0 then 0 else Before(pieces, m - 1) + Size(pieces[m - 1])
  }

  lemma {:induction false} BeforeGrows(pieces: seq<Piece>, m: nat, n: nat)
    requires m <= n <= |pieces|
    ensures Before(pieces, m) <= Before(pieces, n) && (m < n ==> Before(pieces, m) + Size(pieces[m]) <= Before(pieces, n))
    decreases n
  {
    if m < n {
      BeforeGrows(pieces, m, n - 1);
    }
  }

  lemma SaidSize(fmt: Format, pieces: seq<Piece>, m: nat)
    requires m < |pieces| && Writable(fmt, pieces, m)
    ensures |SaidAt(fmt, pieces, m)| == Size(pieces[m])
  {
  }

  /** What the pieces from the `s`-th on say: that one's events, and then the others'. */
  lemma SaidStep(fmt: Format, pieces: seq<Piece>, s: nat)
    requires AllWritable(fmt, pieces) && s < |pieces|
    ensures Writable(fmt, pieces, s) && |SaidAt(fmt, pieces, s)| == Size(pieces[s]) && Before(pieces, s + 1) == Before(pieces, s) + Size(pieces[s])
    ensures Said(fmt, pieces, s) == SaidAt(fmt, pieces, s) + Said(fmt, pieces, s + 1)
  {
    assert Writable(fmt, pieces, s);
    SaidSize(fmt, pieces, s);
  }

  lemma SaidFirst(fmt: Format, pieces: seq<Piece>, s: nat, e: nat)
    requires AllWritable(fmt, pieces) && s < |pieces| && e < Size(pieces[s])
    ensures Writable(fmt, pieces, s) && |SaidAt(fmt, pieces, s)| == Size(pieces[s])
    ensures e < |Said(fmt, pieces, s)| && Said(fmt, pieces, s)[e] == SaidAt(fmt, pieces, s)[e]
  {
    SaidStep(fmt, pieces, s);
  }

  lemma SaidBehind(fmt: Format, pieces: seq<Piece>, s: nat, e: nat) returns (e': nat)
    requires AllWritable(fmt, pieces) && s < |pieces| && Size(pieces[s]) <= e
    ensures Before(pieces, s + 1) + e' == Before(pieces, s) + e
    ensures e' < |Said(fmt, pieces, s + 1)| ==> e < |Said(fmt, pieces, s)| && Said(fmt, pieces, s)[e] == Said(fmt, pieces, s + 1)[e']
  {
    SaidStep(fmt, pieces, s);
    e' := e - Size(pieces[s]);
  }

  /** Event `j` of piece `m` is the `e`-th of those from piece `s` on. */
  lemma {:induction false} SaidIndexFrom(fmt: Format, pieces: seq<Piece>, s: nat, m: nat, j: nat, e: nat)
    requires AllWritable(fmt, pieces) && s <= m < |pieces| && j < Size(pieces[m]) && Before(pieces, s) + e == Before(pieces, m) + j
    ensures Writable(fmt, pieces, m) && |SaidAt(fmt, pieces, m)| == Size(pieces[m])
    ensures e < |Said(fmt, pieces, s)| && Said(fmt, pieces, s)[e] == SaidAt(fmt, pieces, m)[j]
    decreases m - s
  {
    if s < m {
      BeforeGrows(pieces, s + 1, m);
      var e' := SaidBehind(fmt, pieces, s, e);
      SaidIndexFrom(fmt, pieces, s + 1, m, j, e');
    } else {
      SaidFirst(fmt, pieces, s, e);
    }
  }

  lemma SaidIndex(fmt: Format, pieces: seq<Piece>, m: nat, j: nat)
    requires AllWritable(fmt, pieces) && m < |pieces| && j < Size(pieces[m])
    ensures Writable(fmt, pieces, m) && |SaidAt(fmt, pieces, m)| == Size(pieces[m])
    ensures Before(pieces, m) + j < |Said(fmt, pieces, 0)| && Said(fmt, pieces, 0)[Before(pieces, m) + j] == SaidAt(fmt, pieces, m)[j]
  {
    SaidIndexFrom(fmt, pieces, 0, m, j, Before(pieces, m) + j);
  }

  lemma {:induction false} SaidFrom(fmt: Format, pieces: seq<Piece>, s: nat, e: nat) returns (m: nat, j: nat)
    requires AllWritable(fmt, pieces) && s <= |pieces| && e < |Said(fmt, pieces, s)|
    ensures s <= m < |pieces| && j < Size(pieces[m]) && Before(pieces, s) + e == Before(pieces, m) + j
    decreases |pieces| - s
  {
    SaidStep(fmt, pieces, s);
    m, j := s, e;
    if e >= Size(pieces[s]) {
      m, j := SaidFrom(fmt, pieces, s + 1, e - Size(pieces[s]));
    }
  }

  // ---- What was written ----

  /** The `j`-th block of piece `m` is written for block `b`. */
  predicate CopyOf(pieces: seq<Piece>, m: nat, j: nat, b: nat)
  {
    m < |pieces| && pieces[m].Described? && j < |pieces[m].items| && pieces[m].items[j].home == b
  }

  predicate RevokeOf(pieces: seq<Piece>, m: nat, j: nat, b: nat)
  {
    m < |pieces| && pieces[m].Revoking? && j < |pieces[m].nums| && pieces[m].nums[j] == b
  }

  /** No transaction as late as piece `m`'s revokes the block. */
  ghost predicate Lives(pieces: seq<Piece>, m: nat, b: nat)
    requires m < |pieces|
  {
    forall x: nat, r: nat :: RevokeOf(pieces, x, r, b) ==> Txn(pieces, x) < Txn(pieces, m)
  }

  ghost predicate LiveCopy(pieces: seq<Piece>, m: nat, j: nat, b: nat)
  {
    CopyOf(pieces, m, j, b) && Lives(pieces, m, b)
  }

  ghost predicate LastCopy(pieces: seq<Piece>, m: nat, j: nat, b: nat)
  {
    && LiveCopy(pieces, m, j, b)
    && forall x: nat, y: nat :: LiveCopy(pieces, x, y, b) ==> x < m || (x == m && y <= j)
  }

  /** The block holds what was last written for it and not revoked since or at the same time, or what it held before. */
  ghost predicate Restored(fmt: Format, pieces: seq<Piece>, b: nat, before: Block, value: Block)
    requires AllWritable(fmt, pieces)
  {
    || (exists m: nat, j: nat :: LastCopy(pieces, m, j, b) && Writable(fmt, pieces, m) && value == pieces[m].data[j])
    || (value == before && forall m: nat, j: nat :: !LiveCopy(pieces, m, j, b))
  }

  lemma CopyEvent(fmt: Format, pieces: seq<Piece>, m: nat, j: nat, b: nat)
    requires AllWritable(fmt, pieces) && CopyOf(pieces, m, j, b)
    ensures var e, events := Before(pieces, m) + j, Said(fmt, pieces, 0);
            && e < |events| && events[e].Copy? && events[e].k == Txn(pieces, m) && events[e].tag.home == b
            && Writable(fmt, pieces, m) && events[e].tag == TagsOf(fmt, pieces[m].items)[j]
            && events[e].data == Logged(pieces[m].items[j], pieces[m].data[j])
            && Unescape(events[e].tag, events[e].data) == pieces[m].data[j]
  {
    SaidIndex(fmt, pieces, m, j);
    LoggedComesBack(pieces[m].items[j], pieces[m].data[j], TagsOf(fmt, pieces[m].items)[j]);
  }

  lemma RevokeEvent(fmt: Format, pieces: seq<Piece>, m: nat, j: nat, b: nat)
    requires AllWritable(fmt, pieces) && RevokeOf(pieces, m, j, b)
    ensures var e, events := Before(pieces, m) + j, Said(fmt, pieces, 0);
            e < |events| && events[e] == Revoked(Txn(pieces, m), b)
  {
    SaidIndex(fmt, pieces, m, j);
  }

  /** Every event is a block or a revoke record written. */
  lemma EventIsWritten(fmt: Format, pieces: seq<Piece>, e: nat) returns (m: nat, j: nat)
    requires AllWritable(fmt, pieces) && e < |Said(fmt, pieces, 0)|
    ensures m < |pieces| && e == Before(pieces, m) + j && j < Size(pieces[m])
    ensures var ev := Said(fmt, pieces, 0)[e];
            || (ev.Copy? && CopyOf(pieces, m, j, ev.tag.home) && ev.k == Txn(pieces, m))
            || (ev.Revoked? && RevokeOf(pieces, m, j, ev.block) && ev.k == Txn(pieces, m))
  {
    m, j := SaidFrom(fmt, pieces, 0, e);
    SaidIndex(fmt, pieces, m, j);
  }

  /** A copy survives in the log exactly when it lives in what was written. */
  lemma SurvivesIfLives(fmt: Format, pieces: seq<Piece>, m: nat, j: nat, b: nat)
    requires AllWritable(fmt, pieces) && CopyOf(pieces, m, j, b)
    ensures Before(pieces, m) + j < |Said(fmt, pieces, 0)|
    ensures Survives(Said(fmt, pieces, 0), Before(pieces, m) + j) <==> Lives(pieces, m, b)
  {
    var events := Said(fmt, pieces, 0);
    CopyEvent(fmt, pieces, m, j, b);
    LastRevokeIsLatest(events, b);
    if Lives(pieces, m, b) && LastRevoke(events, b) != -1 {
      var i: nat :| i < |events| && events[i].Revoked? && events[i].block == b && events[i].k == LastRevoke(events, b);
      var x, r := EventIsWritten(fmt, pieces, i);
      assert RevokeOf(pieces, x, r, b);
    }
    forall x: nat, r: nat | RevokeOf(pieces, x, r, b) ensures Txn(pieces, x) <= LastRevoke(events, b) {
      RevokeEvent(fmt, pieces, x, r, b);
      assert events[Before(pieces, x) + r].Revoked?;
    }
  }

  /** Pieces come in the order of their events. */
  lemma Later(pieces: seq<Piece>, m: nat, j: nat, x: nat, y: nat)
    requires m < |pieces| && x < |pieces| && j < Size(pieces[m]) && y < Size(pieces[x])
    ensures Before(pieces, x) + y <= Before(pieces, m) + j <==> x < m || (x == m && y <= j)
  {
    if x < m {
      BeforeGrows(pieces, x, m);
    } else if m < x {
      BeforeGrows(pieces, m, x);
    }
  }

  /** The last copy to survive in the log is the last that lives in what was written. */
  lemma LastIsLast(fmt: Format, pieces: seq<Piece>, b: nat, e: nat) returns (m: nat, j: nat)
    requires AllWritable(fmt, pieces) && LastSurvivor(Said(fmt, pieces, 0), b, e)
    ensures LastCopy(pieces, m, j, b) && e == Before(pieces, m) + j
  {
    m, j := EventIsWritten(fmt, pieces, e);
    SurvivesIfLives(fmt, pieces, m, j, b);
    forall x: nat, y: nat | LiveCopy(pieces, x, y, b) ensures x < m || (x == m && y <= j) {
      CopyEvent(fmt, pieces, x, y, b);
      SurvivesIfLives(fmt, pieces, x, y, b);
      Later(pieces, m, j, x, y);
    }
  }

  lemma NoneLives(fmt: Format, pieces: seq<Piece>, b: nat)
    requires AllWritable(fmt, pieces)
    requires forall e: nat :: e < |Said(fmt, pieces, 0)| && Said(fmt, pieces, 0)[e].Copy? && Said(fmt, pieces, 0)[e].tag.home == b ==>
               !Survives(Said(fmt, pieces, 0), e)
    ensures forall m: nat, j: nat :: !LiveCopy(pieces, m, j, b)
  {
    forall m: nat, j: nat ensures !LiveCopy(pieces, m, j, b) {
      if LiveCopy(pieces, m, j, b) {
        CopyEvent(fmt, pieces, m, j, b);
        SurvivesIfLives(fmt, pieces, m, j, b);
      }
    }
  }

  /** What the log owes a block is what was last written for it. */
  lemma OwedIsRestored(fmt: Format, pieces: seq<Piece>, b: nat, before: Block, value: Block)
    requires AllWritable(fmt, pieces) && Owed(Said(fmt, pieces, 0), b, before, value)
    ensures Restored(fmt, pieces, b, before, value)
  {
    var events := Said(fmt, pieces, 0);
    if e: nat :| LastSurvivor(events, b, e) && value == Unescape(events[e].tag, events[e].data) {
      var m, j := LastIsLast(fmt, pieces, b, e);
      CopyEvent(fmt, pieces, m, j, b);
    } else {
      NoneLives(fmt, pieces, b);
    }
  }

  // ---- Recovering it ----

  /** Every block belongs on the device, and its checksum is right when there are any. */
  ghost predicate GoodData(log: Log, pieces: seq<Piece>, size: nat)
    requires log.Valid() && AllWritable(log.fmt, pieces)
  {
    forall m: nat, j: nat, b: nat :: CopyOf(pieces, m, j, b) ==> GoodCopy(log, pieces, size, m, j)
  }

  ghost predicate GoodCopy(log: Log, pieces: seq<Piece>, size: nat, m: nat, j: nat)
    requires log.Valid() && AllWritable(log.fmt, pieces) && m < |pieces| && pieces[m].Described? && j < |pieces[m].items|
  {
    assert Writable(log.fmt, pieces, m);
    var it := pieces[m].items[j];
    && it.home < size
    && (log.fmt.csumV2 || log.fmt.csumV3 ==>
          log.fmt.dataCrc(TagBytesOf(log.fmt, it), Logged(it, pieces[m].data[j]), log.TidOf(Txn(pieces, m))))
  }

  lemma GoodIsJudged(log: Log, pieces: seq<Piece>, size: nat, e: nat)
    requires log.Valid() && AllWritable(log.fmt, pieces) && GoodData(log, pieces, size) && e < |Said(log.fmt, pieces, 0)|
    ensures var ev, verdict := Said(log.fmt, pieces, 0)[e], Judge(log, Said(log.fmt, pieces, 0), size, Said(log.fmt, pieces, 0)[e]);
            !ev.Malformed? && !verdict.BadData? && !verdict.PastEnd?
  {
    var events := Said(log.fmt, pieces, 0);
    var m, j := EventIsWritten(log.fmt, pieces, e);
    if events[e].Copy? {
      CopyEvent(log.fmt, pieces, m, j, events[e].tag.home);
      assert GoodCopy(log, pieces, size, m, j);
    }
  }

  lemma GoodIsFaultless(log: Log, pieces: seq<Piece>, size: nat)
    requires log.Valid() && HoldsAll(log, pieces) && AllWritable(log.fmt, pieces) && GoodData(log, pieces, size)
    ensures Scan(log).end.Stopped? && CleanReplay(log, size)
  {
    LogReads(log, pieces);
    var events := Events(log);
    forall e | 0 <= e < |events|
      ensures !events[e].Malformed? && !Judge(log, events, size, events[e]).BadData? && !Judge(log, events, size, events[e]).PastEnd?
    {
      GoodIsJudged(log, pieces, size, e);
    }
    CopiesAccountedFor(log, events, size, |events|);
  }

  /** A log written with good data is recovered without fault, and every block holds what was last written for it and not
    * revoked, or else what it held before. */
  lemma RecoveryRestores(cfg: Config, dev: seq<Block>, pieces: seq<Piece>, b: nat)
    requires Recoverable(cfg, dev) && StartOf(dev[cfg.blockMap[0]]) != 0 && b < |dev| && b != cfg.blockMap[0]
    requires var log := LogOn(cfg, dev); HoldsAll(log, pieces) && AllWritable(log.fmt, pieces) && GoodData(log, pieces, |dev|)
    ensures Faultless(cfg, dev) && Restored(cfg.fmt, pieces, b, dev[b], Recovered(cfg, dev)[b])
  {
    var log := LogOn(cfg, dev);
    GoodIsFaultless(log, pieces, |dev|);
    LogReads(log, pieces);
    RecoveryPays(cfg, dev, b);
    OwedIsRestored(cfg.fmt, pieces, b, dev[b], Recovered(cfg, dev)[b]);
  }

  /** The scan stays in a log written with no more blocks to a descriptor than the log is long. */
  lemma {:induction false} ShortPiecesStay(log: Log, c: Cursor, pieces: seq<Piece>, m: nat, steps: nat)
    requires log.Valid() && AllStand(log, pieces) && m <= |pieces| && c.p == Offset(pieces, m) && c.k == Txn(pieces, m) && !c.doubt
    requires HeadAt(log, Offset(pieces, |pieces|), Txn(pieces, |pieces|)).Foreign?
    requires forall x :: 0 <= x < |pieces| && pieces[x].Described? ==> |pieces[x].items| <= log.Len()
    ensures StaysFrom(log, c, steps)
    decreases |pieces| - m
  {
    if m < |pieces| && steps > 1 {
      var next := StandsStays(log, c, pieces, m);
      ShortPiecesStay(log, next, pieces, m + 1, steps - 1);
    }
  }

  lemma StandsStays(log: Log, c: Cursor, pieces: seq<Piece>, m: nat) returns (next: Cursor)
    requires log.Valid() && AllStand(log, pieces) && m < |pieces| && c.p == Offset(pieces, m) && c.k == Txn(pieces, m) && !c.doubt
    requires pieces[m].Described? ==> |pieces[m].items| <= log.Len()
    ensures next.p == Offset(pieces, m + 1) && next.k == Txn(pieces, m + 1) && !next.doubt
    ensures ScanStep(log, c) == Go(next) && OneTurn(log, c.p, c.k)
  {
    assert Stands(log, pieces, m);
    PieceReads(log, c.p, c.k, pieces[m]);
    next := ScanStep(log, c).next;
  }

  /** Recovers a journal that was written so. */
  method RecoverWritten(journal: JournalRecovery.Journal, dev: JournalRecovery.Device, ghost pieces: seq<Piece>) returns (rec: JournalRecovery.Recovery)
    requires journal.Loaded(dev.blocks) && journal.start != 0
    requires var log := LogOn(journal.cfg, dev.blocks);
             && HoldsAll(log, pieces) && AllWritable(log.fmt, pieces) && GoodData(log, pieces, |dev.blocks|)
             && forall x :: 0 <= x < |pieces| && pieces[x].Described? ==> |pieces[x].items| <= log.Len()
    modifies journal, dev
    ensures rec.errors == [] && journal.Loaded(dev.blocks) && journal.start == 0 && |dev.blocks| == |old(dev.blocks)|
    ensures forall b :: 0 <= b < |dev.blocks| && b != journal.cfg.blockMap[0] ==>
              Restored(journal.cfg.fmt, pieces, b, old(dev.blocks)[b], dev.blocks[b])
  {
    ghost var cfg, was := journal.cfg, dev.blocks;
    ghost var log := LogOn(cfg, was);
    ShortPiecesStay(log, Cursor(0, 0, 0, false), pieces, 0, log.last);
    GoodIsFaultless(log, pieces, |was|);
    forall b | 0 <= b < |was| && b != cfg.blockMap[0] ensures Restored(cfg.fmt, pieces, b, was[b], Recovered(cfg, was)[b]) {
      RecoveryRestores(cfg, was, pieces, b);
    }
    var strayed;
    strayed, rec := journal.Recover(dev);
  }
}
