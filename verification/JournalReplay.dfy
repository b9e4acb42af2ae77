// What replaying a log owes the filesystem: the events of its complete
// transactions, which logged copies survive the revokes, and the device that
// writing the survivors in log order leaves behind.
module JournalReplay {
  import opened Bytes
  import opened JournalFormat
  import opened JournalLog

  datatype Event =
    | Copy(k: nat, tag: Tag, data: Block)
    | Revoked(k: nat, block: nat)
    | Malformed(k: nat, claimed: nat)

  // ---- Events of the complete transactions, in log order ----

  function CopyEvents(log: Log, k: nat, tags: seq<Tag>, q: nat): (r: seq<Event>)
    requires log.Valid()
    ensures |r| == |tags|
  {
    seq(|tags|, i requires 0 <= i < |tags| && log.Valid() => Copy(k, tags[i], log.At(q + i)))
  }

  /** The events from `done` on are the copies behind `tags`, logged from `q` on. */
  ghost predicate CopiesAt(log: Log, events: seq<Event>, done: nat, k: nat, tags: seq<Tag>, q: nat)
  {
    && log.Valid()
    && done + |tags| <= |events|
    && forall i {:trigger tags[i]} :: 0 <= i < |tags| ==> events[done + i] == Copy(k, tags[i], log.At(q + i))
  }

  function RevokeEvents(k: nat, blocks: seq<nat>): (r: seq<Event>)
    ensures |r| == |blocks|
  {
    seq(|blocks|, i requires 0 <= i < |blocks| => Revoked(k, blocks[i]))
  }

  function EventsAt(log: Log, p: nat, k: nat): seq<Event>
    requires log.Valid()
  {
    match HeadAt(log, p, k)
    case Descriptor(tags) => CopyEvents(log, k, tags, p + 1)
    case Revocation(Records(blocks)) => RevokeEvents(k, blocks)
    case Revocation(TooLong(claimed)) => [Malformed(k, claimed)]
    case _ => []
  }

  function EventsFrom(log: Log, p: nat, k: nat, n: nat, steps: nat): seq<Event>
    requires log.Valid()
    decreases steps
  {
    if k >= n || steps == 0 then []
    else EventsAt(log, p, k) + EventsFrom(log, NextPos(log, p, k), NextTxn(log, p, k), n, steps - 1)
  }

  function Events(log: Log): seq<Event>
    requires log.Valid()
  {
    EventsFrom(log, 0, 0, Scan(log).count, log.last)
  }

  /** Where a pass stands: events passed, position, transaction, and headers to spare. */
  datatype Walk = Walk(done: nat, p: nat, k: nat, steps: nat)

  function Onward(log: Log, w: Walk): Walk
    requires log.Valid() && w.steps > 0
  {
    Walk(w.done + |EventsAt(log, w.p, w.k)|, NextPos(log, w.p, w.k), NextTxn(log, w.p, w.k), w.steps - 1)
  }

  /** The events from `w.done` on are those of the `n` transactions still ahead of the walk. */
  ghost predicate Ahead(log: Log, events: seq<Event>, w: Walk, n: nat)
    requires log.Valid()
  {
    && w.done <= |events| && w.k <= n
    && Complete(log, w.p, w.k, n, w.steps)
    && events[w.done..] == EventsFrom(log, w.p, w.k, n, w.steps)
  }

  ghost predicate Here(events: seq<Event>, done: nat, here: seq<Event>)
  {
    && done + |here| <= |events|
    && forall i {:trigger here[i]} :: 0 <= i < |here| ==> events[done + i] == here[i]
  }

  /** Passing a header consumes its events and leaves the rest ahead. */
  lemma PassHeader(log: Log, events: seq<Event>, w: Walk, n: nat)
    requires log.Valid() && Ahead(log, events, w, n) && w.k < n
    ensures w.steps > 0 && Verified(log, w.p, w.k)
    ensures Ahead(log, events, Onward(log, w), n)
    ensures Here(events, w.done, EventsAt(log, w.p, w.k))
    ensures events[..Onward(log, w).done] == events[..w.done] + EventsAt(log, w.p, w.k)
  {
    var here, next := EventsAt(log, w.p, w.k), Onward(log, w);
    var rest := EventsFrom(log, next.p, next.k, n, next.steps);
    assert events == events[..w.done] + (here + rest);
    assert events[next.done..] == rest;
  }

  lemma EventsAtAreOf(log: Log, p: nat, k: nat, i: nat)
    requires log.Valid() && i < |EventsAt(log, p, k)|
    ensures EventsAt(log, p, k)[i].k == k
  {
  }

  lemma HeadUpTo(log: Log, p: nat, k: nat, n: nat)
    requires log.Valid() && k <= n
    ensures UpTo(EventsAt(log, p, k), n)
  {
    var here := EventsAt(log, p, k);
    forall i | 0 <= i < |here| ensures here[i].k <= n {
      EventsAtAreOf(log, p, k, i);
    }
  }

  lemma {:induction false} EventsUpTo(log: Log, p: nat, k: nat, n: nat, steps: nat)
    requires log.Valid()
    ensures UpTo(EventsFrom(log, p, k, n, steps), n)
    decreases steps
  {
    if k < n && steps > 0 {
      HeadUpTo(log, p, k, n);
      EventsUpTo(log, NextPos(log, p, k), NextTxn(log, p, k), n, steps - 1);
    }
  }

  /** A fresh walk of a scanned log has every event ahead of it. */
  lemma AllAhead(log: Log)
    requires log.Valid()
    ensures Ahead(log, Events(log), Walk(0, 0, 0, log.last), Scan(log).count)
    ensures Scan(log).count <= log.last && UpTo(Events(log), log.last)
  {
    ScanIsLongest(log, Scan(log).count);
    EventsUpTo(log, 0, 0, Scan(log).count, log.last);
  }

  // ---- Which copies survive ----

  /** What a device is asked to do. */
  datatype Op = Write(block: nat, data: Block) | Flush

  /** The latest transaction that revoked `b`, or -1. */
  function LastRevoke(events: seq<Event>, b: nat): (r: int)
    ensures -1 <= r
  {
    if events == [] then -1
    else
      var e, rest := events[|events| - 1], LastRevoke(events[..|events| - 1], b);
      if e.Revoked? && e.block == b && e.k > rest then e.k else rest
  }

  /** It is the latest transaction with a revoke record for `b`. */
  lemma {:induction false} LastRevokeIsLatest(events: seq<Event>, b: nat)
    ensures forall j :: 0 <= j < |events| && events[j].Revoked? && events[j].block == b ==> events[j].k <= LastRevoke(events, b)
    ensures LastRevoke(events, b) == -1
            || exists j :: 0 <= j < |events| && events[j].Revoked? && events[j].block == b && events[j].k == LastRevoke(events, b)
  {
    if events != [] {
      var init := events[..|events| - 1];
      LastRevokeIsLatest(init, b);
      if LastRevoke(events, b) == LastRevoke(init, b) != -1 {
        var j :| 0 <= j < |init| && init[j].Revoked? && init[j].block == b && init[j].k == LastRevoke(init, b);
        assert events[j] == init[j];
      }
      forall j | 0 <= j < |events| && events[j].Revoked? && events[j].block == b
        ensures events[j].k <= LastRevoke(events, b)
      {
        if j < |init| {
          assert events[j] == init[j];
        }
      }
    }
  }

  datatype Verdict = Kept | RevokeHit | BadData | PastEnd | NoCopy

  /** What becomes of one event, given every event of the log and the size of the filesystem. */
  function Judge(log: Log, events: seq<Event>, size: nat, e: Event): Verdict
  {
    if !e.Copy? then NoCopy
    else if e.k <= LastRevoke(events, e.tag.home) then RevokeHit
    else if !log.fmt.DataOk(e.tag.raw, e.data, log.TidOf(e.k)) then BadData
    else if e.tag.home >= size then PastEnd
    else Kept
  }

  /** The device after the first `i` events. */
  function Replay(log: Log, events: seq<Event>, dev: seq<Block>, i: nat): (r: seq<Block>)
    requires i <= |events|
    ensures |r| == |dev|
  {
    if i == 0 then dev
    else
      var e, before := events[i - 1], Replay(log, events, dev, i - 1);
      if Judge(log, events, |dev|, e).Kept? then before[e.tag.home := Unescape(e.tag, e.data)] else before
  }

  // ---- What that leaves in each block ----

  /** Event `j` is a copy of `b` that is written. */
  predicate WritesTo(log: Log, events: seq<Event>, size: nat, b: nat, j: nat)
    requires j < |events|
  {
    Judge(log, events, size, events[j]).Kept? && events[j].tag.home == b
  }

  /** The last of the first `i` events that writes `b`, or -1. */
  function LastWriter(log: Log, events: seq<Event>, size: nat, b: nat, i: nat): (r: int)
    requires i <= |events|
    ensures -1 <= r < i
    ensures 0 <= r ==> WritesTo(log, events, size, b, r)
  {
    if i == 0 then -1
    else if WritesTo(log, events, size, b, i - 1) then i - 1
    else LastWriter(log, events, size, b, i - 1)
  }

  lemma {:induction false} LastWriterIsLast(log: Log, events: seq<Event>, size: nat, b: nat, i: nat)
    requires i <= |events|
    ensures var r := LastWriter(log, events, size, b, i);
            && (0 <= r ==> WritesTo(log, events, size, b, r))
            && forall l: nat :: r < l < i ==> !WritesTo(log, events, size, b, l)
  {
    if i > 0 {
      LastWriterIsLast(log, events, size, b, i - 1);
    }
  }

  /** Every block holds the last copy written to it, or what it held before when none is. */
  lemma {:induction false} ReplayLeaves(log: Log, events: seq<Event>, dev: seq<Block>, i: nat, b: nat)
    requires i <= |events| && b < |dev|
    ensures var r := LastWriter(log, events, |dev|, b, i);
            Replay(log, events, dev, i)[b] == if r < 0 then dev[b] else Unescape(events[r].tag, events[r].data)
  {
    if i > 0 {
      ReplayLeaves(log, events, dev, i - 1, b);
    }
  }

  /** Replaying onto a device whose written blocks hold anything at all gives the same device. */
  lemma ReplayForgets(log: Log, events: seq<Event>, dev: seq<Block>, crashed: seq<Block>, b: nat)
    requires |crashed| == |dev| && b < |dev|
    requires LastWriter(log, events, |dev|, b, |events|) < 0 ==> crashed[b] == dev[b]
    ensures Replay(log, events, crashed, |events|)[b] == Replay(log, events, dev, |events|)[b]
  {
    ReplayLeaves(log, events, dev, |events|, b);
    ReplayLeaves(log, events, crashed, |events|, b);
  }

  /** Copy `j` outlives every revoke of its block. */
  predicate Survives(events: seq<Event>, j: nat)
    requires j < |events|
  {
    events[j].Copy? && events[j].k > LastRevoke(events, events[j].tag.home)
  }

  /** `j` is the last copy of `b`, in log order, that survives. */
  ghost predicate LastSurvivor(events: seq<Event>, b: nat, j: nat)
  {
    && j < |events| && Survives(events, j) && events[j].tag.home == b
    && forall l :: j < l < |events| ==> !(Survives(events, l) && events[l].tag.home == b)
  }

  /** What a log owes block `b`: its last surviving copy, unescaped, or else what it held before. */
  ghost predicate Owed(events: seq<Event>, b: nat, before: Block, value: Block)
  {
    || (exists j: nat :: LastSurvivor(events, b, j) && value == Unescape(events[j].tag, events[j].data))
    || (value == before && forall j: nat :: j < |events| ==> !(Survives(events, j) && events[j].tag.home == b))
  }

  /** A replay that reports no fault leaves every block holding what the log owes it. */
  lemma FaultlessReplayPays(log: Log, events: seq<Event>, dev: seq<Block>, b: nat)
    requires Count(log, events, |dev|, |events|).faults == [] && b < |dev|
    ensures Owed(events, b, dev[b], Replay(log, events, dev, |events|)[b])
  {
    CopiesAccountedFor(log, events, |dev|, |events|);
    ReplayLeaves(log, events, dev, |events|, b);
    LastWriterIsLast(log, events, |dev|, b, |events|);
    forall j: nat | j < |events|
      ensures WritesTo(log, events, |dev|, b, j) <==> Survives(events, j) && events[j].tag.home == b
    {
    }
    var r := LastWriter(log, events, |dev|, b, |events|);
    if 0 <= r {
      assert LastSurvivor(events, b, r);
    }
  }

  /** The log owes a block only one thing. */
  lemma OwedIsUnique(events: seq<Event>, b: nat, before: Block, v: Block, w: Block)
    requires Owed(events, b, before, v) && Owed(events, b, before, w)
    ensures v == w
  {
    if i: nat, j: nat :| LastSurvivor(events, b, i) && v == Unescape(events[i].tag, events[i].data)
                         && LastSurvivor(events, b, j) && w == Unescape(events[j].tag, events[j].data) {
      assert i == j;
    }
  }

  // ---- The counters ----

  datatype Fault =
    | CorruptTransaction(tid: nat)
    | InvalidChecksum(tid: nat)
    | RevokeTooLong(claimed: nat)
    | BadDescriptor(tid: nat)
    | EndedEarly(at: nat, expected: nat)
    | BadBlock(home: nat)
    | OutsideBlock(home: nat)

  datatype Tally = Tally(written: nat, hits: nat, faults: seq<Fault>)

  function Count(log: Log, events: seq<Event>, size: nat, i: nat): Tally
    requires i <= |events|
  {
    if i == 0 then Tally(0, 0, [])
    else
      var t, e := Count(log, events, size, i - 1), events[i - 1];
      match Judge(log, events, size, e)
      case Kept => t.(written := t.written + 1)
      case RevokeHit => t.(hits := t.hits + 1)
      case BadData => t.(faults := t.faults + [BadBlock(e.tag.home)])
      case PastEnd => t.(faults := t.faults + [OutsideBlock(e.tag.home)])
      case NoCopy => t
  }

  /** The blocks the first `i` events write, in order. */
  function Written(log: Log, events: seq<Event>, size: nat, i: nat): seq<Op>
    requires i <= |events|
  {
    if i == 0 then []
    else
      var e, before := events[i - 1], Written(log, events, size, i - 1);
      if Judge(log, events, size, e).Kept? then before + [Write(e.tag.home, Unescape(e.tag, e.data))] else before
  }

  /** The copy is of a block of the filesystem, and its checksum is right when there are any. */
  predicate GoodEvent(log: Log, size: nat, e: Event)
  {
    e.Copy? && e.tag.home < size && (log.fmt.csumV2 || log.fmt.csumV3 ==> log.fmt.dataCrc(e.tag.raw, e.data, log.TidOf(e.k)))
  }

  /** Whatever is written home is a surviving copy whose checksum is right, as it was before it was logged. */
  lemma {:induction false} WritesAreGood(log: Log, events: seq<Event>, size: nat, i: nat, x: nat)
    requires i <= |events| && x < |Written(log, events, size, i)|
    ensures exists j: nat :: j < i && Survives(events, j) && GoodEvent(log, size, events[j]) &&
              Written(log, events, size, i)[x] == Write(events[j].tag.home, Unescape(events[j].tag, events[j].data))
  {
    var before := Written(log, events, size, i - 1);
    if x < |before| {
      WritesAreGood(log, events, size, i - 1, x);
    } else {
      assert Survives(events, i - 1) && GoodEvent(log, size, events[i - 1]);
    }
  }

  /** A surviving copy with a wrong checksum is reported, and so is one past the end of the filesystem. */
  lemma {:induction false} FaultsAreReported(log: Log, events: seq<Event>, size: nat, i: nat, j: nat)
    requires j < i <= |events| && Survives(events, j) && !GoodEvent(log, size, events[j])
    ensures var home, faults := events[j].tag.home, Count(log, events, size, i).faults;
            BadBlock(home) in faults || (size <= home && OutsideBlock(home) in faults)
    ensures (log.fmt.csumV2 || log.fmt.csumV3) && !log.fmt.dataCrc(events[j].tag.raw, events[j].data, log.TidOf(events[j].k)) ==>
              BadBlock(events[j].tag.home) in Count(log, events, size, i).faults
    decreases i
  {
    if j < i - 1 {
      FaultsAreReported(log, events, size, i - 1, j);
    }
  }

  function CopyCount(events: seq<Event>, i: nat): nat
    requires i <= |events|
  {
    if i == 0 then 0 else CopyCount(events, i - 1) + if events[i - 1].Copy? then 1 else 0
  }

  /** Every logged copy is written, skipped for a revoke, or reported: none is lost. */
  lemma {:induction false} CopiesAccountedFor(log: Log, events: seq<Event>, size: nat, i: nat)
    requires i <= |events|
    ensures var t := Count(log, events, size, i);
            t.written + t.hits + |t.faults| == CopyCount(events, i)
    ensures Count(log, events, size, i).faults == [] <==>
            forall j :: 0 <= j < i ==> !Judge(log, events, size, events[j]).BadData?
                                       && !Judge(log, events, size, events[j]).PastEnd?
  {
    if i > 0 {
      CopiesAccountedFor(log, events, size, i - 1);
    }
  }

  function RevokeCount(events: seq<Event>, i: nat): nat
    requires i <= |events|
  {
    if i == 0 then 0 else RevokeCount(events, i - 1) + if events[i - 1].Revoked? then 1 else 0
  }

  // ---- The revoke table ----

  /** The table holds, for each revoked block, the number of the latest transaction that revoked it. */
  ghost predicate Tracks(log: Log, table: map<nat, nat>, events: seq<Event>)
  {
    forall b: nat {:trigger LastRevoke(events, b)} {:trigger b in table} ::
      && (b in table <==> LastRevoke(events, b) >= 0)
      && (b in table ==> table[b] == log.TidOf(LastRevoke(events, b)))
  }

  ghost predicate UpTo(events: seq<Event>, k: nat)
  {
    forall j :: 0 <= j < |events| ==> events[j].k <= k
  }

  lemma {:induction false} LastRevokeUpTo(events: seq<Event>, b: nat, k: nat)
    requires UpTo(events, k)
    ensures LastRevoke(events, b) <= k
  {
    if events != [] {
      LastRevokeUpTo(events[..|events| - 1], b, k);
    }
  }

  lemma LastRevokeAfter(events: seq<Event>, e: Event, b: nat)
    ensures LastRevoke(events + [e], b) ==
            if e.Revoked? && e.block == b && e.k > LastRevoke(events, b) then e.k else LastRevoke(events, b)
  {
    assert (events + [e])[..|events|] == events;
  }

  /** Events that revoke nothing leave the table as it is. */
  lemma {:induction false} TracksPast(log: Log, table: map<nat, nat>, seen: seq<Event>, more: seq<Event>)
    requires Tracks(log, table, seen)
    requires forall i :: 0 <= i < |more| ==> !more[i].Revoked?
    ensures Tracks(log, table, seen + more)
  {
    if more == [] {
      assert seen + more == seen;
    } else {
      var init, e := more[..|more| - 1], more[|more| - 1];
      TracksPast(log, table, seen, init);
      assert seen + more == seen + init + [e];
      forall b: nat { LastRevokeAfter(seen + init, e, b); }
    }
  }

  /** Descriptors and commits revoke nothing. */
  lemma NothingRevoked(log: Log, p: nat, k: nat, table: map<nat, nat>, seen: seq<Event>)
    requires log.Valid() && Tracks(log, table, seen) && (HeadAt(log, p, k).Descriptor? || HeadAt(log, p, k).Commit?)
    ensures Tracks(log, table, seen + EventsAt(log, p, k)) && WellFormedRevokes(EventsAt(log, p, k))
  {
    TracksPast(log, table, seen, EventsAt(log, p, k));
  }

  /** The revoke pass has read the events passed so far into the table. */
  ghost predicate Noted(log: Log, events: seq<Event>, w: Walk, table: map<nat, nat>, count: nat)
  {
    && w.done <= |events|
    && UpTo(events[..w.done], w.k) && WellFormedRevokes(events[..w.done])
    && Tracks(log, table, events[..w.done])
    && count == RevokeCount(events, w.done)
  }

  ghost predicate WellFormedRevokes(events: seq<Event>)
  {
    forall j :: 0 <= j < |events| ==> !events[j].Malformed?
  }

  lemma NotedOn(log: Log, events: seq<Event>, w: Walk, table: map<nat, nat>, count: nat, table': map<nat, nat>, noted: nat)
    requires log.Valid() && w.steps > 0 && Noted(log, events, w, table, count)
    requires Here(events, w.done, EventsAt(log, w.p, w.k))
    requires events[..Onward(log, w).done] == events[..w.done] + EventsAt(log, w.p, w.k)
    requires WellFormedRevokes(EventsAt(log, w.p, w.k)) && Tracks(log, table', events[..w.done] + EventsAt(log, w.p, w.k))
    requires noted == if HeadAt(log, w.p, w.k).Revocation? then |EventsAt(log, w.p, w.k)| else 0
    ensures Noted(log, events, Onward(log, w), table', count + noted)
  {
    RevokeCountPast(events, w.done, EventsAt(log, w.p, w.k), HeadAt(log, w.p, w.k).Revocation?);
  }

  lemma NotedAll(log: Log, events: seq<Event>, w: Walk, n: nat, table: map<nat, nat>, count: nat)
    requires log.Valid() && Ahead(log, events, w, n) && w.k >= n
    requires Noted(log, events, w, table, count)
    ensures Tracks(log, table, events) && WellFormedRevokes(events) && count == RevokeCount(events, |events|)
  {
    assert events[w.done..] == [];
    assert events[..w.done] == events;
  }

  lemma {:induction false} RevokeCountPast(events: seq<Event>, done: nat, here: seq<Event>, all: bool)
    requires Here(events, done, here)
    requires forall i :: 0 <= i < |here| ==> here[i].Revoked? == all
    ensures RevokeCount(events, done + |here|) == RevokeCount(events, done) + if all then |here| else 0
  {
    for i := 0 to |here|
      invariant RevokeCount(events, done + i) == RevokeCount(events, done) + if all then i else 0
    {
      assert events[done + i] == here[i];
    }
  }
}
