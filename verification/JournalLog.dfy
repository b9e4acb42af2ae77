// What a JBD2 log means.
//
// The log is circular and its transactions are numbered modulo 2^32. Here both
// are unrolled: a position `p` counts blocks read since `s_start` without ever
// coming back, and a transaction is its index `k` since `s_sequence`. On that
// line a log is a run of complete transactions, each a list of logged copies
// and revokes, and what recovery owes each home block can be said directly.
module JournalLog {
  import opened Bytes
  import opened JournalFormat

  datatype Log = Log(fmt: Format, first: nat, last: nat, start: nat, sequence: nat, blocks: seq<Block>)
  {
    /** What opening the journal establishes, for a log below 2^31 blocks. */
    ghost predicate Valid()
    {
      && 1 <= first <= start < last < TWO32 / 2
      && sequence < TWO32
      && |blocks| == last
      && (forall b :: 0 <= b < last ==> 1024 <= |blocks[b]|)
    }

    function Len(): nat
      requires first < last
    {
      last - first
    }

    /** The log block `p` single steps on from the start, each step from the last block going back to the first. */
    function Phys(p: nat): (r: nat)
      requires first <= start < last
      ensures first <= r < last
    {
      if p == 0 then start
      else if Phys(p - 1) + 1 == last then first
      else Phys(p - 1) + 1
    }

    function At(p: nat): Block
      requires first <= start < last && |blocks| == last
    {
      blocks[Phys(p)]
    }

    function TidOf(k: nat): (r: nat)
      ensures r < TWO32
    {
      Tid(sequence, k)
    }
  }

  // ---- Going round the log ----

  /** `Journal::wrap`: at most one turn is taken off. */
  function Wrap(first: nat, last: nat, b: nat): nat
    requires first < last
  {
    if b >= last then b - (last - first) else b
  }

  /** One wrap lands inside the log exactly when no second turn was due. */
  lemma WrapStaysInLog(first: nat, last: nat, b: nat)
    requires first < last && first <= b
    ensures first <= Wrap(first, last, b) < last <==> b < last + (last - first)
  {
  }

  /** One wrap of `b + n` is `n` single steps round the log, exactly when it takes no second turn; a full turn never does. */
  lemma {:induction false} WrapIsUnrolled(log: Log, p: nat, n: nat)
    requires log.first <= log.start < log.last
    ensures Wrap(log.first, log.last, log.Phys(p) + n) == log.Phys(p + n) <==> log.Phys(p) + n < log.last + log.Len()
    ensures n <= log.Len() ==> log.Phys(p) + n < log.last + log.Len()
    decreases n
  {
    if n > 0 {
      WrapIsUnrolled(log, p, n - 1);
    }
  }

  // ---- Complete transactions ----

  /** What a header block found at `p` while transaction `k` is expected can be. */
  datatype Head = Descriptor(tags: seq<Tag>) | Commit | Revocation(records: Revokes) | Foreign

  function HeadAt(log: Log, p: nat, k: nat): Head
    requires log.Valid()
  {
    var buf := log.At(p);
    if !IsHeader(buf, log.TidOf(k)) then Foreign
    else if Kind(buf) == DESCRIPTOR then Descriptor(Tags(log.fmt, buf))
    else if Kind(buf) == COMMIT then Commit
    else if Kind(buf) == REVOKE then Revocation(RevokeRecords(log.fmt, buf))
    else Foreign
  }

  /** The checksum a header block carries is right. */
  predicate Verified(log: Log, p: nat, k: nat)
    requires log.Valid()
  {
    match HeadAt(log, p, k)
    case Commit => log.fmt.CommitOk(log.At(p))
    case Foreign => false
    case _ => log.fmt.TailOk(log.At(p))
  }

  /** Position of the header after the one at `p`: a descriptor is followed by its data. */
  function NextPos(log: Log, p: nat, k: nat): nat
    requires log.Valid()
  {
    match HeadAt(log, p, k)
    case Descriptor(tags) => p + 1 + |tags|
    case _ => p + 1
  }

  function NextTxn(log: Log, p: nat, k: nat): nat
    requires log.Valid()
  {
    if HeadAt(log, p, k).Commit? then k + 1 else k
  }

  /** From `p` in transaction `k`, at most `steps` verified headers lead past the commit of transaction `n - 1`. */
  predicate Complete(log: Log, p: nat, k: nat, n: nat, steps: nat)
    requires log.Valid()
    decreases steps
  {
    k >= n || (steps > 0 && Verified(log, p, k)
               && Complete(log, NextPos(log, p, k), NextTxn(log, p, k), n, steps - 1))
  }

  /** The log holds `n` complete transactions within as many headers as it has blocks. */
  predicate Holds(log: Log, n: nat)
    requires log.Valid()
  {
    Complete(log, 0, 0, n, log.last)
  }

  // ---- Scan ----

  datatype ScanEnd = Stopped | CorruptCommit | BadChecksum

  datatype ScanResult = ScanResult(count: nat, end: ScanEnd)

  /** Where a scan stands: position, transactions accepted, last commit time, and whether a checksum failed since. */
  datatype Cursor = Cursor(p: nat, k: nat, time: nat, doubt: bool)

  datatype Move = Go(next: Cursor) | Halt(end: ScanEnd)

  /** What `Journal::scan` does with one header block. */
  function ScanStep(log: Log, c: Cursor): Move
    requires log.Valid()
  {
    var buf := log.At(c.p);
    match HeadAt(log, c.p, c.k)
    case Foreign => Halt(Stopped)
    case Commit =>
      if !log.fmt.CommitOk(buf) then Halt(if CommitTime(buf) < c.time then Stopped else CorruptCommit)
      else if c.doubt then Halt(if CommitTime(buf) >= c.time then BadChecksum else Stopped)
      else Go(Cursor(c.p + 1, c.k + 1, CommitTime(buf), false))
    case _ => Go(Cursor(NextPos(log, c.p, c.k), c.k, c.time, c.doubt || !log.fmt.TailOk(buf)))
  }

  /** How many transactions a scan from `c` accepts in at most `steps` headers, and why it stopped. */
  function ScanFrom(log: Log, c: Cursor, steps: nat): ScanResult
    requires log.Valid()
    decreases steps
  {
    if steps == 0 then ScanResult(c.k, Stopped)
    else
      match ScanStep(log, c)
      case Go(next) => ScanFrom(log, next, steps - 1)
      case Halt(end) => ScanResult(c.k, end)
  }

  function Scan(log: Log): ScanResult
    requires log.Valid()
  {
    ScanFrom(log, Cursor(0, 0, 0, false), log.last)
  }

  // ---- How the scan ends ----

  /** The position after `m` headers, and the transaction. */
  ghost function PosAt(log: Log, m: nat): nat
    requires log.Valid()
  {
    if m == 0 then 0 else NextPos(log, PosAt(log, m - 1), TxnAt(log, m - 1))
  }

  ghost function TxnAt(log: Log, m: nat): nat
    requires log.Valid()
  {
    if m == 0 then 0 else NextTxn(log, PosAt(log, m - 1), TxnAt(log, m - 1))
  }

  ghost function NthHead(log: Log, m: nat): Head
    requires log.Valid()
  {
    HeadAt(log, PosAt(log, m), TxnAt(log, m))
  }

  ghost function NthBlock(log: Log, m: nat): Block
    requires log.Valid()
  {
    log.At(PosAt(log, m))
  }

  /** Header `m` is a descriptor or a revoke block with a wrong checksum. */
  ghost predicate Torn(log: Log, m: nat)
    requires log.Valid()
  {
    && (NthHead(log, m).Descriptor? || NthHead(log, m).Revocation?)
    && (log.fmt.csumV2 || log.fmt.csumV3) && !log.fmt.tailCrc(NthBlock(log, m))
  }

  /** There is one among the headers since the last commit before header `m`. */
  ghost predicate Doubtful(log: Log, m: nat)
    requires log.Valid()
  {
    exists j: nat :: j < m && Torn(log, j) && forall i: nat :: j < i < m ==> !NthHead(log, i).Commit?
  }

  ghost predicate WrongCommit(log: Log, m: nat)
    requires log.Valid()
  {
    NthHead(log, m).Commit? && (log.fmt.csumV2 || log.fmt.csumV3) && !log.fmt.commitCrc(NthBlock(log, m))
  }

  /** The commit before header `m` that is closest to it; `m` if there is none. */
  ghost predicate LastCommitIs(log: Log, m: nat, j: nat)
    requires log.Valid()
  {
    if j < m then NthHead(log, j).Commit? && forall i: nat :: j < i < m ==> !NthHead(log, i).Commit?
    else j == m && forall i: nat :: i < m ==> !NthHead(log, i).Commit?
  }

  /** Header `m` is a commit no earlier than the one before it. */
  ghost predicate InOrder(log: Log, m: nat)
    requires log.Valid()
  {
    NthHead(log, m).Commit? && forall j: nat :: j < m && LastCommitIs(log, m, j) ==> CommitTime(NthBlock(log, j)) <= CommitTime(NthBlock(log, m))
  }

  /** The scan goes on past header `m`. */
  ghost predicate GoesOn(log: Log, m: nat)
    requires log.Valid()
  {
    !NthHead(log, m).Foreign? && (NthHead(log, m).Commit? ==> !WrongCommit(log, m) && !Doubtful(log, m))
  }

  /** What the scan has in hand when it comes to header `m`. */
  ghost predicate CursorAt(log: Log, c: Cursor, m: nat)
    requires log.Valid()
  {
    && c.p == PosAt(log, m) && c.k == TxnAt(log, m) && (c.doubt <==> Doubtful(log, m))
    && exists j: nat :: LastCommitIs(log, m, j) && c.time == if j < m then CommitTime(NthBlock(log, j)) else 0
  }

  lemma CursorOn(log: Log, c: Cursor, m: nat)
    requires log.Valid() && CursorAt(log, c, m)
    ensures GoesOn(log, m) <==> ScanStep(log, c).Go?
    ensures GoesOn(log, m) ==> CursorAt(log, ScanStep(log, c).next, m + 1)
    ensures !GoesOn(log, m) ==> ScanStep(log, c).end == HowItEnds(log, m)
  {
    InOrderIs(log, c, m);
    StepIs(log, c, m);
    if GoesOn(log, m) {
      CursorGoesOn(log, c, m);
    }
  }

  lemma InOrderIs(log: Log, c: Cursor, m: nat)
    requires log.Valid() && CursorAt(log, c, m)
    ensures InOrder(log, m) <==> NthHead(log, m).Commit? && c.time <= CommitTime(NthBlock(log, m))
  {
    var j: nat :| LastCommitIs(log, m, j) && c.time == if j < m then CommitTime(NthBlock(log, j)) else 0;
    forall i: nat | LastCommitIs(log, m, i) ensures i == j {
      LastCommitOnce(log, m, i, j);
    }
  }

  lemma StepIs(log: Log, c: Cursor, m: nat)
    requires log.Valid() && c.p == PosAt(log, m) && c.k == TxnAt(log, m) && (c.doubt <==> Doubtful(log, m))
    requires InOrder(log, m) <==> NthHead(log, m).Commit? && c.time <= CommitTime(NthBlock(log, m))
    ensures GoesOn(log, m) <==> ScanStep(log, c).Go?
    ensures !GoesOn(log, m) ==> ScanStep(log, c).end == HowItEnds(log, m)
    ensures GoesOn(log, m) ==>
              var next := ScanStep(log, c).next;
              && next.p == PosAt(log, m + 1) && next.k == TxnAt(log, m + 1)
              && next.time == (if NthHead(log, m).Commit? then CommitTime(NthBlock(log, m)) else c.time)
              && (next.doubt <==> !NthHead(log, m).Commit? && (c.doubt || Torn(log, m)))
  {
  }

  lemma CursorGoesOn(log: Log, c: Cursor, m: nat)
    requires log.Valid() && CursorAt(log, c, m) && GoesOn(log, m) && ScanStep(log, c).Go?
    requires var next := ScanStep(log, c).next;
             && next.p == PosAt(log, m + 1) && next.k == TxnAt(log, m + 1)
             && next.time == (if NthHead(log, m).Commit? then CommitTime(NthBlock(log, m)) else c.time)
             && (next.doubt <==> !NthHead(log, m).Commit? && (c.doubt || Torn(log, m)))
    ensures CursorAt(log, ScanStep(log, c).next, m + 1)
  {
    var j: nat :| LastCommitIs(log, m, j) && c.time == if j < m then CommitTime(NthBlock(log, j)) else 0;
    DoubtOn(log, m);
    LastCommitOn(log, m, j);
  }

  lemma LastCommitOnce(log: Log, m: nat, i: nat, j: nat)
    requires log.Valid() && LastCommitIs(log, m, i) && LastCommitIs(log, m, j)
    ensures i == j
  {
  }

  lemma LastCommitOn(log: Log, m: nat, j: nat)
    requires log.Valid() && LastCommitIs(log, m, j)
    ensures LastCommitIs(log, m + 1, if NthHead(log, m).Commit? then m else if j < m then j else m + 1)
  {
  }

  lemma DoubtOn(log: Log, m: nat)
    requires log.Valid()
    ensures Doubtful(log, m + 1) <==> !NthHead(log, m).Commit? && (Doubtful(log, m) || Torn(log, m))
  {
    if Doubtful(log, m) && !NthHead(log, m).Commit? {
      var j: nat :| j < m && Torn(log, j) && forall i: nat :: j < i < m ==> !NthHead(log, i).Commit?;
      assert forall i: nat :: j < i < m + 1 ==> !NthHead(log, i).Commit?;
    }
    if Torn(log, m) {
      assert forall i: nat :: m < i < m + 1 ==> !NthHead(log, i).Commit?;
    }
  }

  /** How a scan that does not go on past header `m` ends: a right commit after a wrong checksum, or a wrong one, is an error
    * unless it is earlier than the commit before it, and so is left over from an older log. */
  ghost function HowItEnds(log: Log, m: nat): ScanEnd
    requires log.Valid()
  {
    if !InOrder(log, m) then Stopped else if WrongCommit(log, m) then CorruptCommit else BadChecksum
  }

  /** A scan that has come to header `m` goes on past every header up to the `n`-th, and there it ends. */
  ghost predicate EndsAt(log: Log, m: nat, n: nat, most: nat, r: ScanResult)
    requires log.Valid()
  {
    && m <= n <= most && r.count == TxnAt(log, n)
    && (forall i :: m <= i < n ==> GoesOn(log, i)) && (n < most ==> !GoesOn(log, n))
    && r.end == if n == most then Stopped else HowItEnds(log, n)
  }

  lemma EndsLater(log: Log, m: nat, n: nat, most: nat, r: ScanResult)
    requires log.Valid() && GoesOn(log, m) && EndsAt(log, m + 1, n, most, r)
    ensures EndsAt(log, m, n, most, r)
  {
  }

  /** The scan's result `r` is that of going on from header `m` for `steps` more of `most`. */
  ghost predicate Scanning(log: Log, c: Cursor, m: nat, steps: nat, most: nat, r: ScanResult)
    requires log.Valid()
  {
    CursorAt(log, c, m) && r == ScanFrom(log, c, steps) && most == m + steps
  }

  /** One header of the scan. */
  lemma HeaderOn(log: Log, c: Cursor, m: nat, steps: nat, most: nat, r: ScanResult) returns (done: bool, next: Cursor)
    requires log.Valid() && Scanning(log, c, m, steps, most, r)
    ensures if done then EndsAt(log, m, m, most, r) else 0 < steps && GoesOn(log, m) && Scanning(log, next, m + 1, steps - 1, most, r)
  {
    done, next := steps == 0 || !GoesOn(log, m), c;
    if 0 < steps {
      CursorOn(log, c, m);
    }
    ScanUnrolls(log, c, steps);
    if !done {
      next := ScanStep(log, c).next;
    }
  }

  lemma {:induction false} ScanFromEnds(log: Log, c: Cursor, m: nat, steps: nat, most: nat, r: ScanResult) returns (n: nat)
    requires log.Valid() && Scanning(log, c, m, steps, most, r)
    ensures EndsAt(log, m, n, most, r)
    decreases steps
  {
    var done, next := HeaderOn(log, c, m, steps, most, r);
    if done {
      n := m;
    } else {
      n := ScanFromEnds(log, next, m + 1, steps - 1, most, r);
      EndsLater(log, m, n, most, r);
    }
  }

  lemma ScanUnrolls(log: Log, c: Cursor, steps: nat)
    requires log.Valid()
    ensures ScanFrom(log, c, steps) ==
            if steps == 0 then ScanResult(c.k, Stopped)
            else match ScanStep(log, c) case Go(next) => ScanFrom(log, next, steps - 1) case Halt(end) => ScanResult(c.k, end)
  {
  }

  /** The scan ends at the first header it does not go on past, or when it has read as many as the log has blocks, and what it
    * ends with is what that header is. */
  lemma ScanEnds(log: Log) returns (n: nat)
    requires log.Valid()
    ensures EndsAt(log, 0, n, log.last, Scan(log))
  {
    assert LastCommitIs(log, 0, 0);
    n := ScanFromEnds(log, Cursor(0, 0, 0, false), 0, log.last, log.last, Scan(log));
  }

  // ---- When the scan stays in the log ----

  /** The one wrap the scan does over a descriptor's data is enough: it takes no second turn. */
  predicate OneTurn(log: Log, p: nat, k: nat)
    requires log.Valid()
  {
    HeadAt(log, p, k).Descriptor? ==> log.Phys(p + 1) + |HeadAt(log, p, k).tags| < log.last + log.Len()
  }

  /** Every block a scan from `c` reads in at most `steps` headers is one of the log's. */
  predicate StaysFrom(log: Log, c: Cursor, steps: nat)
    requires log.Valid()
    decreases steps
  {
    steps <= 1 ||
    match ScanStep(log, c)
    case Go(next) => OneTurn(log, c.p, c.k) && StaysFrom(log, next, steps - 1)
    case Halt(_) => true
  }

  predicate Stays(log: Log)
    requires log.Valid()
  {
    StaysFrom(log, Cursor(0, 0, 0, false), log.last)
  }

  /** The block is a descriptor, of whatever transaction. */
  predicate Describes(buf: Block)
    requires HEADER_LEN <= |buf|
  {
    U32Be(buf, 0) == MAGIC && Kind(buf) == DESCRIPTOR
  }

  ghost predicate ShortDescriptors(log: Log)
    requires log.Valid()
  {
    forall b :: 0 <= b < log.last && Describes(log.blocks[b]) ==> |Tags(log.fmt, log.blocks[b])| <= log.Len()
  }

  /** No descriptor with more tags than the log has blocks: the scan stays in the log. */
  lemma {:induction false} ShortDescriptorsStay(log: Log, c: Cursor, steps: nat)
    requires log.Valid() && ShortDescriptors(log)
    ensures StaysFrom(log, c, steps)
    decreases steps
  {
    if steps > 1 && ScanStep(log, c).Go? {
      assert log.At(c.p) == log.blocks[log.Phys(c.p)];
      ShortDescriptorsStay(log, ScanStep(log, c).next, steps - 1);
    }
  }

  /** So does the scan of any log long enough for the tags that fit in a block, whatever it holds. */
  lemma LongLogStays(log: Log, blockSize: nat)
    requires log.Valid() && forall b :: 0 <= b < log.last ==> |log.blocks[b]| <= blockSize
    requires (blockSize - HEADER_LEN) / log.fmt.TagBytes() <= log.Len()
    ensures Stays(log)
  {
    forall b | 0 <= b < log.last && Describes(log.blocks[b]) ensures |Tags(log.fmt, log.blocks[b])| <= log.Len() {
      TagsFit(log.fmt, log.blocks[b], blockSize);
    }
    ShortDescriptorsStay(log, Cursor(0, 0, 0, false), log.last);
  }

  /** A descriptor of transaction 0, 1024 bytes long, that is zeros after its header. */
  function ZeroDescriptor(): (buf: Block)
    ensures |buf| == 1024 && IsHeader(buf, 0) && Kind(buf) == DESCRIPTOR
    ensures forall i :: HEADER_LEN <= i < |buf| ==> buf[i] == 0
  {
    [0xc0, 0x3b, 0x39, 0x98, 0, 0, 0, 1, 0, 0, 0, 0] + seq(1012, _ => 0)
  }

  /** Zeros read as a tag that is not the last and is followed by a UUID. */
  lemma ZeroTag(fmt: Format, buf: Block, at: nat)
    requires at + fmt.TagBytes() + fmt.TailLen() <= |buf| && forall i :: at <= i < |buf| ==> buf[i] == 0
    ensures TagsFrom(fmt, buf, at) == [TagAt(fmt, buf, at)] + TagsFrom(fmt, buf, at + fmt.TagBytes() + 16)
  {
    var raw := buf[at..at + fmt.TagBytes()];
    assert raw[6] == 0 && raw[7] == 0;
  }

  lemma ThreeZeroTags(fmt: Format)
    ensures |Tags(fmt, ZeroDescriptor())| >= 3
  {
    var buf, gap := ZeroDescriptor(), fmt.TagBytes() + 16;
    ZeroTag(fmt, buf, HEADER_LEN);
    ZeroTag(fmt, buf, HEADER_LEN + gap);
    ZeroTag(fmt, buf, HEADER_LEN + 2 * gap);
  }

  /** A log that opens with a descriptor of more tags than fit before a second turn is due. */
  lemma StraysAtOnce(log: Log)
    requires log.Valid() && HeadAt(log, 0, 0).Descriptor? && !OneTurn(log, 0, 0)
    ensures !Stays(log)
  {
    assert ScanStep(log, Cursor(0, 0, 0, false)).Go?;
  }

  /** One wrap falls short: in a log of two blocks, the scan leaves the log after a descriptor of more than two tags. */
  lemma OneWrapFallsShort(fmt: Format, log: Log)
    requires log == Log(fmt, 1, 3, 1, 0, [ZeroDescriptor(), ZeroDescriptor(), ZeroDescriptor()])
    ensures log.Valid() && HeadAt(log, 0, 0) == Descriptor(Tags(fmt, ZeroDescriptor()))
    ensures !(1 <= Wrap(1, 3, Wrap(1, 3, log.start + 1) + |Tags(fmt, ZeroDescriptor())|) < 3)
    ensures !Stays(log)
  {
    ThreeZeroTags(fmt);
    assert log.At(0) == ZeroDescriptor() && log.TidOf(0) == 0 && log.Phys(1) == 2;
    StraysAtOnce(log);
  }

  /** A scan accepts at most one transaction per header, and none once it is in doubt. */
  lemma {:induction false} ScanBounds(log: Log, c: Cursor, steps: nat)
    requires log.Valid()
    ensures c.k <= ScanFrom(log, c, steps).count <= c.k + steps
    ensures c.doubt ==> ScanFrom(log, c, steps).count == c.k
    decreases steps
  {
    if steps > 0 && ScanStep(log, c).Go? {
      ScanBounds(log, ScanStep(log, c).next, steps - 1);
    }
  }

  /** The scan's answer is the longest run of complete, verified transactions. */
  lemma {:induction false} ScanFindsLongest(log: Log, c: Cursor, steps: nat, n: nat)
    requires log.Valid() && c.k <= n && !c.doubt
    ensures Complete(log, c.p, c.k, n, steps) <==> n <= ScanFrom(log, c, steps).count
    decreases steps
  {
    ScanBounds(log, c, steps);
    if steps > 0 && c.k < n && ScanStep(log, c).Go? {
      var next := ScanStep(log, c).next;
      if next.doubt {
        ScanBounds(log, next, steps - 1);
      } else {
        ScanFindsLongest(log, next, steps - 1, n);
      }
    }
  }

  lemma ScanIsLongest(log: Log, n: nat)
    requires log.Valid()
    ensures Holds(log, n) <==> n <= Scan(log).count
    ensures Scan(log).count <= log.last
  {
    ScanBounds(log, Cursor(0, 0, 0, false), log.last);
    ScanFindsLongest(log, Cursor(0, 0, 0, false), log.last, n);
  }

  // ---- The later passes ----

  datatype PassEnd = ReachedEnd | EndedEarly(tid: nat) | BadDescriptor(tid: nat) | StillGoing

  /** Where the revoke pass (or the replay pass, which tests descriptors again) ends when told to stop at `end`. */
  function PassFrom(log: Log, p: nat, k: nat, end: nat, replay: bool, steps: nat): PassEnd
    requires log.Valid() && end < TWO32
    decreases steps
  {
    if TidGeq(log.TidOf(k), end) then (if log.TidOf(k) == end then ReachedEnd else EndedEarly(log.TidOf(k)))
    else if steps == 0 then StillGoing
    else if HeadAt(log, p, k).Foreign? then EndedEarly(log.TidOf(k))
    else if HeadAt(log, p, k).Descriptor? && replay && !log.fmt.TailOk(log.At(p)) then BadDescriptor(log.TidOf(k))
    else PassFrom(log, NextPos(log, p, k), NextTxn(log, p, k), end, replay, steps - 1)
  }

  lemma {:induction false} CompletePassEnds(log: Log, p: nat, k: nat, n: nat, replay: bool, steps: nat)
    requires log.Valid() && k <= n < TWO32 / 2 && Complete(log, p, k, n, steps)
    ensures PassFrom(log, p, k, log.TidOf(n), replay, steps) == ReachedEnd
    decreases steps
  {
    TidOrder(log.sequence, k, n);
    if k < n {
      CompletePassEnds(log, NextPos(log, p, k), NextTxn(log, p, k), n, replay, steps - 1);
    }
  }

  /** After a scan, neither later pass can end short of it or meet a descriptor the scan did not verify. */
  lemma PassesReachEnd(log: Log, replay: bool)
    requires log.Valid()
    ensures PassFrom(log, 0, 0, log.TidOf(Scan(log).count), replay, log.last) == ReachedEnd
  {
    ScanIsLongest(log, Scan(log).count);
    CompletePassEnds(log, 0, 0, Scan(log).count, replay, log.last);
  }
}
