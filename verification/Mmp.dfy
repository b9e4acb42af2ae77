// Multiple mount protection: hosts that share one block, stamp it, wait and
// look again before they take the filesystem.
module Mmp {
  import opened Arith

  const SEQ_CLEAN: nat := 0xFF4D_4D50
  const SEQ_FSCK: nat := 0xE24D_4D50
  const SEQ_MAX: nat := 0xE24D_4D4F

  /** How long a host waits between two looks at the block, in seconds. */
  function WaitFor(interval: nat): nat
  {
    if 2 * interval + 1 < interval + 60 then 2 * interval + 1 else interval + 60
  }

  /** A wait outlasts the interval within which a holder promises to refresh its hold. */
  lemma WaitOutlasts(interval: nat)
    ensures interval < WaitFor(interval)
  {
  }

  /** The wait is twice the interval and a second, or a minute more than the interval, whichever is shorter. */
  lemma WaitIs(interval: nat)
    ensures WaitFor(interval) <= 2 * interval + 1 && WaitFor(interval) <= interval + 60
    ensures WaitFor(interval) == 2 * interval + 1 || WaitFor(interval) == interval + 60
  {
  }

  /** The longer the interval the longer the wait. */
  lemma WaitsMonotone(a: nat, b: nat)
    requires a <= b
    ensures WaitFor(a) <= WaitFor(b)
  {
  }

  /** A sequence number of a holder, drawn from 32 random bits. */
  function NewSeq(raw: nat): (number: nat)
    requires raw < 0x1_0000_0000
    ensures 0 < number < SEQ_MAX
  {
    raw % (SEQ_MAX - 1) + 1
  }

  /** Two draws come out the same only from the same random bits, or from bits 3796716878 apart: of 2^32 draws, no number comes
    * up more than twice. */
  lemma DrawsDiffer(a: nat, b: nat)
    requires a < 0x1_0000_0000 && b < 0x1_0000_0000
    ensures NewSeq(a) == NewSeq(b) <==> a == b || a == b + 3_796_716_878 || b == a + 3_796_716_878
  {
  }

  /** The numbers with a meaning of their own, and the largest that a holder draws is below them. */
  lemma ReservedNumbers(raw: nat)
    requires raw < 0x1_0000_0000
    ensures SEQ_CLEAN == 4_283_256_144 && SEQ_FSCK == 3_796_716_880 && NewSeq(raw) < 3_796_716_879
  {
  }

  /** The shared block. */
  datatype Block = Block(number: nat, interval: nat)

  datatype Phase =
    | Idle
    | Watching(seen: nat, since: nat)
    | Ready(at: nat)
    | Stamped(number: nat, since: nat)
    | Confirmed(number: nat, since: nat)
    | Holding(number: nat, beat: nat)
    | Checking
    | Refused

  /** A host: whether it comes as a checker, where it is in the protocol, and whether it has ever been granted the filesystem. */
  datatype Host = Host(fsck: bool, interval: nat, phase: Phase, won: bool)

  datatype State = State(now: nat, block: Block, hosts: seq<Host>)

  datatype Step =
    | Tick(seconds: nat)
    | Read(i: nat)
    | Recheck(i: nat)
    | Stamp(i: nat, number: nat)
    | Confirm(i: nat)
    | MarkFsck(i: nat)
    | Heartbeat(i: nat)
    | Release(i: nat)

  function Put(s: State, i: nat, h: Host): State
    requires i < |s.hosts|
  {
    s.(hosts := s.hosts[i := h])
  }

  /** The step can be taken. */
  predicate Enabled(s: State, step: Step)
  {
    match step
    case Tick(_) => true
    case Read(i) => i < |s.hosts| && s.hosts[i].phase.Idle?
    case Recheck(i) => i < |s.hosts| && s.hosts[i].phase.Watching? && s.now >= s.hosts[i].phase.since + WaitFor(s.hosts[i].interval)
    case Stamp(i, number) => i < |s.hosts| && s.hosts[i].phase.Ready? && 0 < number < SEQ_MAX
    case Confirm(i) => i < |s.hosts| && s.hosts[i].phase.Stamped? && s.now >= s.hosts[i].phase.since + WaitFor(s.hosts[i].interval)
    case MarkFsck(i) => i < |s.hosts| && s.hosts[i].phase.Confirmed?
    case Heartbeat(i) => i < |s.hosts| && s.hosts[i].phase.Holding?
    case Release(i) => i < |s.hosts| && (s.hosts[i].phase.Holding? || s.hosts[i].phase.Checking?)
  }

  /** What the step does, on a filesystem whose superblock asks for `base` seconds. */
  function After(base: nat, s: State, step: Step): State
    requires Enabled(s, step)
  {
    match step
    case Tick(t) => s.(now := s.now + t)
    case Read(i) =>
      var h := s.hosts[i];
      if s.block.number == SEQ_CLEAN then Put(s, i, h.(interval := base, phase := Ready(s.now)))
      else if s.block.number >= SEQ_FSCK then Put(s, i, h.(phase := Refused))
      else Put(s, i, h.(interval := Max(base, s.block.interval), phase := Watching(s.block.number, s.now)))
    case Recheck(i) =>
      var h := s.hosts[i];
      Put(s, i, h.(phase := if s.block.number != h.phase.seen then Refused else Ready(s.now)))
    case Stamp(i, number) =>
      var h := s.hosts[i];
      Put(s, i, h.(phase := Stamped(number, s.now))).(block := Block(number, h.interval))
    case Confirm(i) =>
      var h := s.hosts[i];
      if s.block.number != h.phase.number then Put(s, i, h.(phase := Refused))
      else if h.fsck then Put(s, i, h.(phase := Confirmed(h.phase.number, s.now), won := true))
      else Put(s, i, h.(phase := Holding(h.phase.number, s.now), won := true))
    case MarkFsck(i) =>
      var h := s.hosts[i];
      Put(s, i, h.(phase := Checking)).(block := Block(SEQ_FSCK, h.interval))
    case Heartbeat(i) =>
      var h := s.hosts[i];
      Put(s, i, h.(phase := Holding(h.phase.number, s.now))).(block := Block(h.phase.number, h.interval))
    case Release(i) =>
      var h := s.hosts[i];
      Put(s, i, h.(phase := Idle)).(block := Block(SEQ_CLEAN, h.interval))
  }

  /** The host has a sequence number of its own, in the block or not. */
  predicate Numbered(h: Host)
  {
    h.phase.Stamped? || h.phase.Confirmed? || h.phase.Holding?
  }

  predicate SameNumber(a: Host, x: Host)
  {
    Numbered(a) && Numbered(x) && a.phase.number == x.phase.number
  }

  /** Sequences drawn are distinct. */
  ghost predicate FreshNumber(s: State, step: Step)
  {
    step.Stamp? ==> forall j :: 0 <= j < |s.hosts| && Numbered(s.hosts[j]) ==> s.hosts[j].phase.number != step.number
  }

  // ---- A live holder keeps everyone out ----

  /** The host has the filesystem, or has confirmed that it does and is about to mark it as a checker. */
  predicate Granted(h: Host)
  {
    h.phase.Holding? || h.phase.Confirmed? || h.phase.Checking?
  }

  /** Every holder has refreshed its hold within its interval, and no checker takes a wait to write its mark. */
  ghost predicate Live(s: State)
  {
    forall i :: 0 <= i < |s.hosts| ==> LiveHost(s, s.hosts[i])
  }

  predicate LiveHost(s: State, h: Host)
  {
    && (h.phase.Holding? ==> s.now <= h.phase.beat + h.interval)
    && (h.phase.Confirmed? ==> s.now < h.phase.since + WaitFor(h.interval))
  }

  /** No other host has made up its mind to stamp the block. */
  predicate NoneReady(s: State, i: nat)
  {
    forall j :: 0 <= j < |s.hosts| && j != i ==> !s.hosts[j].phase.Ready?
  }

  /** A checker writes its mark only when no other host is about to stamp. */
  predicate MarksAlone(s: State, step: Step)
  {
    step.MarkFsck? ==> NoneReady(s, step.i)
  }

  /** What the host has promised, to refresh its hold or to write its mark, falls due before `t`. */
  predicate DueBefore(h: Host, t: nat)
  {
    && (h.phase.Holding? ==> h.phase.beat + h.interval < t)
    && (h.phase.Confirmed? ==> h.phase.since + WaitFor(h.interval) <= t)
  }

  /** A wait from now is longer than any other host's promise. */
  predicate Outlasts(s: State, i: nat)
    requires i < |s.hosts|
  {
    forall j :: 0 <= j < |s.hosts| && j != i ==> DueBefore(s.hosts[j], s.now + WaitFor(s.hosts[i].interval))
  }

  /** A host stamps the block only when its wait outlasts what any holder has promised. */
  predicate StampsInTime(s: State, step: Step)
  {
    step.Stamp? && step.i < |s.hosts| ==> Outlasts(s, step.i)
  }

  predicate Careful(s: State, step: Step)
  {
    MarksAlone(s, step) && StampsInTime(s, step)
  }

  ghost predicate Apart(s: State, i: nat, j: nat)
    requires i < |s.hosts| && j < |s.hosts|
  {
    var a, x := s.hosts[i], s.hosts[j];
    && !(Granted(a) && Granted(x))
    && !SameNumber(a, x)
    && (a.phase.Checking? ==> !x.phase.Ready?)
    && (x.phase.Stamped? && s.block.number == x.phase.number ==> DueBefore(a, x.phase.since + WaitFor(x.interval)))
  }

  /** A host as it can be, mounter or checker. */
  ghost predicate Member(s: State, h: Host)
  {
    && (h.phase.Confirmed? || h.phase.Checking? ==> h.fsck)
    && (h.phase.Watching? ==> h.phase.seen < SEQ_FSCK)
    && (Numbered(h) ==> 0 < h.phase.number < SEQ_MAX)
    && (h.phase.Ready? ==> h.phase.at <= s.now)
    && (h.phase.Stamped? || h.phase.Confirmed? ==> h.phase.since <= s.now)
    && (h.phase.Holding? ==> h.phase.beat <= s.now)
    && (h.phase.Checking? ==> s.block.number == SEQ_FSCK)
  }

  ghost predicate Fenced(s: State)
  {
    && (forall i :: 0 <= i < |s.hosts| ==> Member(s, s.hosts[i]))
    && (forall i, j :: 0 <= i < |s.hosts| && 0 <= j < |s.hosts| && i != j ==> Apart(s, i, j))
  }

  /** Who takes the step; time passing is nobody's. */
  function Mover(step: Step): int
  {
    if step.Tick? then -1 else step.i
  }

  /** A step of another host, or of the clock. */
  lemma ApartBystanders(base: nat, s: State, step: Step, i: nat, j: nat)
    requires Fenced(s) && Live(s) && Enabled(s, step) && FreshNumber(s, step) && Careful(s, step)
    requires i < |s.hosts| && j < |s.hosts| && i != j && Mover(step) != i && Mover(step) != j
    ensures Apart(After(base, s, step), i, j)
  {
    var k := Mover(step);
    assert Member(s, s.hosts[i]) && Member(s, s.hosts[j]) && Apart(s, i, j);
    if k != -1 {
      assert Member(s, s.hosts[k]) && Apart(s, k, i) && Apart(s, k, j);
    }
  }

  /** A step of one of the two hosts. */
  lemma ApartMovers(base: nat, s: State, step: Step, i: nat, j: nat)
    requires Fenced(s) && Live(s) && Enabled(s, step) && FreshNumber(s, step) && Careful(s, step)
    requires i < |s.hosts| && j < |s.hosts| && i != j && (Mover(step) == i || Mover(step) == j)
    ensures Apart(After(base, s, step), i, j)
  {
    assert Member(s, s.hosts[i]) && Member(s, s.hosts[j]) && Apart(s, i, j) && Apart(s, j, i);
    assert LiveHost(s, s.hosts[i]) && LiveHost(s, s.hosts[j]);
  }

  lemma MemberOn(base: nat, s: State, step: Step, i: nat)
    requires Fenced(s) && Enabled(s, step) && i < |s.hosts|
    ensures Member(After(base, s, step), After(base, s, step).hosts[i])
  {
    var k := Mover(step);
    assert Member(s, s.hosts[i]);
    if k != -1 && k != i {
      assert Member(s, s.hosts[k]) && Apart(s, i, k) && Apart(s, k, i);
    }
  }

  /** A step keeps the fence, as long as holders stay live, no sequence is drawn twice, checkers mark alone and hosts stamp in
    * time, whatever the intervals. */
  lemma FencedOn(base: nat, s: State, step: Step)
    requires Fenced(s) && Live(s) && Enabled(s, step) && FreshNumber(s, step) && Careful(s, step)
    ensures Fenced(After(base, s, step))
  {
    var s' := After(base, s, step);
    forall i | 0 <= i < |s'.hosts| ensures Member(s', s'.hosts[i]) {
      MemberOn(base, s, step, i);
    }
    forall i, j | 0 <= i < |s'.hosts| && 0 <= j < |s'.hosts| && i != j ensures Apart(s', i, j) {
      if Mover(step) == i || Mover(step) == j {
        ApartMovers(base, s, step, i, j);
      } else {
        ApartBystanders(base, s, step, i, j);
      }
    }
  }

  /** A run: each step taken from the state before it. */
  ghost predicate Run(base: nat, states: seq<State>, steps: seq<Step>)
  {
    && |states| == |steps| + 1
    && forall k :: 0 <= k < |steps| ==> Enabled(states[k], steps[k]) && states[k + 1] == After(base, states[k], steps[k])
  }

  /** A run with live holders and distinct sequences. */
  ghost predicate LiveRun(base: nat, states: seq<State>, steps: seq<Step>)
  {
    Run(base, states, steps) && forall n :: 0 <= n < |steps| ==> Live(states[n]) && FreshNumber(states[n], steps[n])
  }

  ghost predicate AllCareful(states: seq<State>, steps: seq<Step>)
    requires |states| == |steps| + 1
  {
    forall n :: 0 <= n < |steps| ==> Careful(states[n], steps[n])
  }

  ghost predicate Initial(s: State)
  {
    forall i :: 0 <= i < |s.hosts| ==> s.hosts[i].phase.Idle? && !s.hosts[i].won
  }

  lemma InitialIsFenced(s: State)
    requires Initial(s)
    ensures Fenced(s)
  {
    forall i, j | 0 <= i < |s.hosts| && 0 <= j < |s.hosts| && i != j ensures Apart(s, i, j) {
      assert s.hosts[i].phase.Idle? && s.hosts[j].phase.Idle?;
    }
  }

  /** No two hosts have the filesystem. */
  ghost predicate Exclusive(s: State)
  {
    forall i, j :: 0 <= i < j < |s.hosts| ==> !(Granted(s.hosts[i]) && Granted(s.hosts[j]))
  }

  lemma FencedIsExclusive(s: State)
    requires Fenced(s)
    ensures Exclusive(s)
  {
    forall i, j | 0 <= i < j < |s.hosts| ensures !(Granted(s.hosts[i]) && Granted(s.hosts[j])) {
      assert Apart(s, i, j);
    }
  }

  /** From any fenced state, a live run in which every step is careful stays fenced. */
  lemma {:induction false} StaysFenced(base: nat, states: seq<State>, steps: seq<Step>, k: nat)
    requires LiveRun(base, states, steps) && Fenced(states[0]) && k < |states| && AllCareful(states, steps)
    ensures Fenced(states[k]) && Exclusive(states[k])
    decreases k
  {
    if k > 0 {
      StaysFenced(base, states, steps, k - 1);
      FencedOn(base, states[k - 1], steps[k - 1]);
    }
    FencedIsExclusive(states[k]);
  }

  /** Whatever mounters and checkers do and in whatever order, and whatever interval the block starts with: while holders refresh
    * in time, checkers mark alone and hosts stamp in time, no two ever have the filesystem. */
  lemma LiveHolderExcludes(base: nat, states: seq<State>, steps: seq<Step>, k: nat)
    requires LiveRun(base, states, steps) && Initial(states[0]) && k < |states| && AllCareful(states, steps)
    ensures Fenced(states[k]) && Exclusive(states[k])
  {
    InitialIsFenced(states[0]);
    StaysFenced(base, states, steps, k);
  }

  /** Among mounters alone nothing is asked of marks, since there are none. */
  lemma {:induction false} MountersExclude(base: nat, states: seq<State>, steps: seq<Step>, k: nat)
    requires LiveRun(base, states, steps) && Fenced(states[0]) && k < |states|
    requires forall n :: 0 <= n < |steps| ==> StampsInTime(states[n], steps[n])
    requires forall i :: 0 <= i < |states[0].hosts| ==> !states[0].hosts[i].fsck
    ensures Fenced(states[k]) && Exclusive(states[k])
    ensures |states[k].hosts| == |states[0].hosts| && forall i :: 0 <= i < |states[k].hosts| ==> !states[k].hosts[i].fsck
    decreases k
  {
    if k > 0 {
      MountersExclude(base, states, steps, k - 1);
      var s, step := states[k - 1], steps[k - 1];
      forall j | 0 <= j < |s.hosts| ensures !s.hosts[j].phase.Confirmed? {
        assert Member(s, s.hosts[j]);
      }
      FencedOn(base, s, step);
    }
    FencedIsExclusive(states[k]);
  }

  // ---- Exactly when a stamp keeps everyone out ----

  /** Every live and careful run on from the step keeps everyone else out. */
  ghost predicate Holds(base: nat, s: State, step: Step)
    requires Enabled(s, step)
  {
    forall states: seq<State>, steps: seq<Step> ::
      LiveRun(base, states, steps) && states[0] == After(base, s, step) && AllCareful(states, steps) ==> Exclusive(states[|states| - 1])
  }

  lemma CarefulHolds(base: nat, s: State, step: Step)
    requires Fenced(s) && Live(s) && Enabled(s, step) && FreshNumber(s, step) && Careful(s, step)
    ensures Holds(base, s, step)
  {
    FencedOn(base, s, step);
    forall states: seq<State>, steps: seq<Step> |
      LiveRun(base, states, steps) && states[0] == After(base, s, step) && AllCareful(states, steps)
      ensures Exclusive(states[|states| - 1])
    {
      StaysFenced(base, states, steps, |states| - 1);
    }
  }

  /** Host `x` stamps while host `j` has promised nothing until `x`'s wait is over: `x` waits and finds its own number. */
  lemma StampOverruns(base: nat, s: State, x: nat, q: nat, j: nat) returns (states: seq<State>, steps: seq<Step>)
    requires Fenced(s) && Live(s) && Enabled(s, Stamp(x, q)) && FreshNumber(s, Stamp(x, q)) && j < |s.hosts| && j != x
    requires !DueBefore(s.hosts[j], s.now + WaitFor(s.hosts[x].interval))
    ensures LiveRun(base, states, steps) && states[0] == After(base, s, Stamp(x, q)) && AllCareful(states, steps)
    ensures !Exclusive(states[|states| - 1])
  {
    var wait := WaitFor(s.hosts[x].interval);
    var s0 := After(base, s, Stamp(x, q));
    var s1 := After(base, s0, Tick(wait));
    var s2 := After(base, s1, Confirm(x));
    states, steps := [s0, s1, s2], [Tick(wait), Confirm(x)];
    forall i | 0 <= i < |s.hosts| ensures LiveHost(s0, s0.hosts[i]) && LiveHost(s1, s1.hosts[i]) {
      assert LiveHost(s, s.hosts[i]);
      if i != j {
        assert Apart(s, j, i);
      }
    }
    assert Granted(s2.hosts[j]) && Granted(s2.hosts[x]);
  }

  /** A stamp keeps everyone out if and only if its wait outlasts what every holder has promised. */
  lemma StampHoldsIffOutlasts(base: nat, s: State, x: nat, q: nat)
    requires Fenced(s) && Live(s) && Enabled(s, Stamp(x, q)) && FreshNumber(s, Stamp(x, q))
    ensures Holds(base, s, Stamp(x, q)) <==> Outlasts(s, x)
  {
    if Outlasts(s, x) {
      CarefulHolds(base, s, Stamp(x, q));
    } else {
      var j: nat :| j < |s.hosts| && j != x && !DueBefore(s.hosts[j], s.now + WaitFor(s.hosts[x].interval));
      var states, steps := StampOverruns(base, s, x, q, j);
      assert LiveRun(base, states, steps) && AllCareful(states, steps);
    }
  }

  // ---- One interval ----

  /** No interval but the superblock's: every host waits as long as every other. */
  ghost predicate OneInterval(base: nat, s: State)
  {
    && s.block.interval <= base
    && forall i :: 0 <= i < |s.hosts| ==> AtBase(base, s.hosts[i])
  }

  predicate AtBase(base: nat, h: Host)
  {
    h.phase.Watching? || h.phase.Ready? || h.phase.Stamped? || Granted(h) ==> h.interval == base
  }

  lemma OneIntervalOn(base: nat, s: State, step: Step)
    requires OneInterval(base, s) && Enabled(s, step)
    ensures OneInterval(base, After(base, s, step))
  {
    var s' := After(base, s, step);
    forall i | 0 <= i < |s'.hosts| ensures AtBase(base, s'.hosts[i]) {
      assert AtBase(base, s.hosts[i]);
    }
    if Mover(step) != -1 {
      assert AtBase(base, s.hosts[step.i]);
    }
  }

  /** With one interval every stamp is in time. */
  lemma OneIntervalOutlasts(base: nat, s: State, i: nat)
    requires Fenced(s) && OneInterval(base, s) && i < |s.hosts| && s.hosts[i].phase.Ready?
    ensures Outlasts(s, i)
  {
    WaitOutlasts(base);
    forall j | 0 <= j < |s.hosts| && j != i ensures DueBefore(s.hosts[j], s.now + WaitFor(s.hosts[i].interval)) {
      assert Member(s, s.hosts[j]) && AtBase(base, s.hosts[j]) && AtBase(base, s.hosts[i]);
    }
  }

  /** With a block that promises no more than the superblock asks for, nothing is asked of stamps. */
  lemma {:induction false} OneIntervalExcludes(base: nat, states: seq<State>, steps: seq<Step>, k: nat)
    requires LiveRun(base, states, steps) && Initial(states[0]) && states[0].block.interval <= base && k < |states|
    requires forall n :: 0 <= n < |steps| ==> MarksAlone(states[n], steps[n])
    ensures Fenced(states[k]) && OneInterval(base, states[k]) && Exclusive(states[k])
    decreases k
  {
    if k == 0 {
      InitialIsFenced(states[0]);
    } else {
      OneIntervalExcludes(base, states, steps, k - 1);
      var s, step := states[k - 1], steps[k - 1];
      if step.Stamp? {
        OneIntervalOutlasts(base, s, step.i);
      }
      OneIntervalOn(base, s, step);
      FencedOn(base, s, step);
    }
    FencedIsExclusive(states[k]);
  }

  // ---- Any intervals, and prompt stamps ----

  /** A stamp lands less than one wait after its host last looked at the block. */
  predicate Prompt(s: State, step: Step)
  {
    step.Stamp? && step.i < |s.hosts| && s.hosts[step.i].phase.Ready? ==>
      s.now < s.hosts[step.i].phase.at + WaitFor(s.hosts[step.i].interval)
  }

  /** No host draws the number another is watching. */
  predicate Unwatched(s: State, step: Step)
  {
    step.Stamp? ==> forall j :: 0 <= j < |s.hosts| && s.hosts[j].phase.Watching? ==> s.hosts[j].phase.seen != step.number
  }

  /** What the block says of a host that has a number. */
  ghost predicate Shown(s: State, h: Host)
  {
    && (Granted(h) ==> s.block.number != SEQ_CLEAN)
    && (Numbered(h) && s.block.number == h.phase.number ==> s.block.interval == h.interval)
    && (Numbered(h) && s.block.number != h.phase.number ==> DueBefore(h, s.now + WaitFor(s.block.interval)))
  }

  /** What host `x` knows of host `a` from watching the block: no holder promises longer than `x` waits, unless it became one
    * a wait or more after `x` last looked. */
  ghost predicate Seen(s: State, a: Host, x: Host)
  {
    && (x.phase.Watching? && Numbered(a) && a.phase.number == x.phase.seen ==> a.interval <= x.interval)
    && (x.phase.Watching? && Numbered(a) && a.phase.number != x.phase.seen == s.block.number ==>
          DueBefore(a, x.phase.since + WaitFor(x.interval)))
    && (x.phase.Ready? && Granted(a) && x.interval < a.interval ==> x.phase.at + WaitFor(x.interval) <= s.now)
    && (x.phase.Ready? && a.phase.Stamped? && s.block.number == a.phase.number && x.interval < a.interval ==> x.phase.at <= a.phase.since)
  }

  ghost predicate Watched(s: State)
  {
    && Fenced(s)
    && (forall i :: 0 <= i < |s.hosts| ==> Shown(s, s.hosts[i]))
    && (forall i, j :: 0 <= i < |s.hosts| && 0 <= j < |s.hosts| && i != j ==> Seen(s, s.hosts[i], s.hosts[j]))
  }

  /** A prompt stamp is in time. */
  lemma PromptOutlasts(s: State, i: nat, number: nat)
    requires Watched(s) && i < |s.hosts| && s.hosts[i].phase.Ready? && Prompt(s, Stamp(i, number))
    ensures Outlasts(s, i)
  {
    var x := s.hosts[i];
    WaitOutlasts(x.interval);
    forall j | 0 <= j < |s.hosts| && j != i ensures DueBefore(s.hosts[j], s.now + WaitFor(x.interval)) {
      var a := s.hosts[j];
      assert Member(s, a) && Seen(s, a, x);
      if Granted(a) {
        WaitsMonotone(a.interval, x.interval);
      }
    }
  }

  lemma ShownOn(base: nat, s: State, step: Step, i: nat)
    requires Watched(s) && Live(s) && Enabled(s, step) && FreshNumber(s, step) && Careful(s, step) && i < |s.hosts|
    ensures Shown(After(base, s, step), After(base, s, step).hosts[i])
  {
    var k := Mover(step);
    assert Member(s, s.hosts[i]) && Shown(s, s.hosts[i]);
    if k != -1 && k != i {
      assert Member(s, s.hosts[k]) && Apart(s, i, k) && Apart(s, k, i);
    }
  }

  lemma SeenByWatcher(base: nat, s: State, step: Step, i: nat, j: nat)
    requires Watched(s) && Live(s) && Enabled(s, step) && Unwatched(s, step)
    requires i < |s.hosts| && j < |s.hosts| && i != j && Mover(step) == j
    ensures Seen(After(base, s, step), After(base, s, step).hosts[i], After(base, s, step).hosts[j])
  {
    var a, x := s.hosts[i], s.hosts[j];
    assert Member(s, a) && Member(s, x) && Shown(s, a) && Seen(s, a, x) && Apart(s, i, j) && LiveHost(s, a);
    if step.Read? {
      WaitsMonotone(s.block.interval, Max(base, s.block.interval));
    }
  }

  lemma SeenOfMover(base: nat, s: State, step: Step, i: nat, j: nat)
    requires Watched(s) && Live(s) && Enabled(s, step) && FreshNumber(s, step) && Unwatched(s, step)
    requires i < |s.hosts| && j < |s.hosts| && i != j && Mover(step) == i
    ensures Seen(After(base, s, step), After(base, s, step).hosts[i], After(base, s, step).hosts[j])
  {
    var a, x := s.hosts[i], s.hosts[j];
    assert Member(s, a) && Member(s, x) && Shown(s, a) && Seen(s, a, x);
    if x.interval < a.interval {
      WaitsMonotone(x.interval, a.interval);
    }
  }

  lemma SeenByBystander(base: nat, s: State, step: Step, i: nat, j: nat)
    requires Watched(s) && Live(s) && Enabled(s, step) && FreshNumber(s, step) && Unwatched(s, step)
    requires i < |s.hosts| && j < |s.hosts| && i != j && Mover(step) != i && Mover(step) != j
    ensures Seen(After(base, s, step), After(base, s, step).hosts[i], After(base, s, step).hosts[j])
  {
    var a, x, k := s.hosts[i], s.hosts[j], Mover(step);
    assert Member(s, a) && Member(s, x) && Shown(s, a) && Seen(s, a, x);
    if k != -1 {
      assert Member(s, s.hosts[k]) && Apart(s, k, i);
    }
  }

  lemma WatchedOn(base: nat, s: State, step: Step)
    requires Watched(s) && Live(s) && Enabled(s, step) && FreshNumber(s, step) && Unwatched(s, step) && Careful(s, step)
    ensures Watched(After(base, s, step))
  {
    var s' := After(base, s, step);
    FencedOn(base, s, step);
    forall i | 0 <= i < |s'.hosts| ensures Shown(s', s'.hosts[i]) {
      ShownOn(base, s, step, i);
    }
    forall i, j | 0 <= i < |s'.hosts| && 0 <= j < |s'.hosts| && i != j ensures Seen(s', s'.hosts[i], s'.hosts[j]) {
      if Mover(step) == j {
        SeenByWatcher(base, s, step, i, j);
      } else if Mover(step) == i {
        SeenOfMover(base, s, step, i, j);
      } else {
        SeenByBystander(base, s, step, i, j);
      }
    }
  }

  /** Whatever interval the block starts with: while holders refresh in time, checkers mark alone and every stamp lands within one
    * wait of its host's last look, no two hosts ever have the filesystem. */
  lemma {:induction false} PromptExcludes(base: nat, states: seq<State>, steps: seq<Step>, k: nat)
    requires LiveRun(base, states, steps) && Initial(states[0]) && k < |states|
    requires forall n :: 0 <= n < |steps| ==> MarksAlone(states[n], steps[n]) && Prompt(states[n], steps[n]) && Unwatched(states[n], steps[n])
    ensures Watched(states[k]) && Exclusive(states[k])
    decreases k
  {
    if k == 0 {
      InitialIsFenced(states[0]);
      forall i | 0 <= i < |states[0].hosts| ensures states[0].hosts[i].phase.Idle? {
      }
    } else {
      PromptExcludes(base, states, steps, k - 1);
      var s, step := states[k - 1], steps[k - 1];
      if step.Stamp? {
        PromptOutlasts(s, step.i, step.number);
      }
      WatchedOn(base, s, step);
    }
    FencedIsExclusive(states[k]);
  }

  // ---- Exactly when a checker's mark keeps everyone out ----

  /** A checker marks while host `x` is about to stamp: `x` stamps over the mark, waits, and finds its own number. */
  lemma Overruns(base: nat, s: State, i: nat, x: nat, q: nat) returns (states: seq<State>, steps: seq<Step>)
    requires Fenced(s) && Enabled(s, MarkFsck(i)) && x < |s.hosts| && x != i && s.hosts[x].phase.Ready?
    requires 0 < q < SEQ_MAX && forall j :: 0 <= j < |s.hosts| && Numbered(s.hosts[j]) ==> s.hosts[j].phase.number != q
    ensures LiveRun(base, states, steps) && states[0] == After(base, s, MarkFsck(i)) && AllCareful(states, steps)
    ensures !Exclusive(states[|states| - 1])
  {
    var wait := WaitFor(s.hosts[x].interval);
    var s0 := After(base, s, MarkFsck(i));
    var s1 := After(base, s0, Stamp(x, q));
    var s2 := After(base, s1, Tick(wait));
    var s3 := After(base, s2, Confirm(x));
    states, steps := [s0, s1, s2, s3], [Stamp(x, q), Tick(wait), Confirm(x)];
    forall j | 0 <= j < |s.hosts| ensures LiveHost(s0, s0.hosts[j]) && LiveHost(s1, s1.hosts[j]) && LiveHost(s2, s2.hosts[j]) {
      if j != i {
        assert Apart(s, i, j);
      }
    }
    assert Outlasts(s0, x) by {
      forall j | 0 <= j < |s.hosts| && j != x ensures DueBefore(s0.hosts[j], s0.now + wait) {
        assert j != i ==> Apart(s, i, j);
      }
    }
    assert s3.hosts[i].phase.Checking? && Granted(s3.hosts[x]);
  }

  /** A checker's mark keeps everyone out if and only if no other host was about to stamp when it was written. */
  lemma MarkHoldsIffNoneReady(base: nat, s: State, i: nat, q: nat)
    requires Fenced(s) && Live(s) && Enabled(s, MarkFsck(i))
    requires 0 < q < SEQ_MAX && forall j :: 0 <= j < |s.hosts| && Numbered(s.hosts[j]) ==> s.hosts[j].phase.number != q
    ensures Holds(base, s, MarkFsck(i)) <==> NoneReady(s, i)
  {
    if NoneReady(s, i) {
      CarefulHolds(base, s, MarkFsck(i));
    } else {
      var x: nat :| x < |s.hosts| && x != i && s.hosts[x].phase.Ready?;
      var states, steps := Overruns(base, s, i, x, q);
      assert LiveRun(base, states, steps) && AllCareful(states, steps);
    }
  }

  // ---- Hosts that all found the block clean ----

  /** A step of a race: nobody looks again, and a stamp lands less than one wait after its host's read. */
  ghost predicate RaceStep(s: State, step: Step)
  {
    !step.Read? && !step.Recheck? && FreshNumber(s, step) && Prompt(s, step)
  }

  /** The race begins: every host that will take part has read the block clean, and none has stamped it. */
  ghost predicate RaceStart(base: nat, s: State)
  {
    && s.block.number == SEQ_CLEAN
    && forall i :: 0 <= i < |s.hosts| ==>
         && !s.hosts[i].won
         && (s.hosts[i].phase.Idle? || (s.hosts[i].phase.Ready? && s.hosts[i].interval == base && s.hosts[i].phase.at <= s.now))
  }

  /** A racing host, `start` being when the race began. */
  ghost predicate Racer(base: nat, s: State, start: nat, h: Host)
  {
    && !h.phase.Watching? && start <= s.now
    && (h.phase.Ready? ==> h.phase.at <= start && h.interval == base && !h.won)
    && (h.phase.Stamped? ==> start <= h.phase.since <= s.now && h.interval == base && 0 < h.phase.number < SEQ_MAX && !h.won)
    && (h.phase.Confirmed? || h.phase.Holding? || h.phase.Checking? ==> h.won)
    && (h.phase.Confirmed? || h.phase.Holding? ==> 0 < h.phase.number < SEQ_MAX)
    && (h.won ==> start + WaitFor(base) <= s.now)
  }

  /** Of two racing hosts: one at most has won, their sequences differ, and the loser's is not in the block. */
  ghost predicate Rivals(s: State, i: nat, j: nat)
    requires i < |s.hosts| && j < |s.hosts|
  {
    var a, x := s.hosts[i], s.hosts[j];
    && !(a.won && x.won)
    && !SameNumber(a, x)
    && (a.won && x.phase.Stamped? ==> s.block.number != x.phase.number)
    && (a.phase.Stamped? && x.phase.Stamped? && s.block.number == a.phase.number ==> x.phase.since <= a.phase.since)
  }

  ghost predicate Racing(base: nat, s: State, start: nat)
  {
    && (forall i :: 0 <= i < |s.hosts| ==> Racer(base, s, start, s.hosts[i]))
    && (forall i, j :: 0 <= i < |s.hosts| && 0 <= j < |s.hosts| && i != j ==> Rivals(s, i, j))
  }

  lemma RivalsOn(base: nat, s: State, start: nat, step: Step, i: nat, j: nat)
    requires Racing(base, s, start) && Enabled(s, step) && RaceStep(s, step) && i < |s.hosts| && j < |s.hosts| && i != j
    ensures Rivals(After(base, s, step), i, j)
  {
    var k := Mover(step);
    assert Racer(base, s, start, s.hosts[i]) && Racer(base, s, start, s.hosts[j]) && Rivals(s, i, j) && Rivals(s, j, i);
    if k != -1 && k != i && k != j {
      assert Racer(base, s, start, s.hosts[k]) && Rivals(s, k, i) && Rivals(s, k, j);
    }
  }

  lemma RacingOn(base: nat, s: State, start: nat, step: Step)
    requires Racing(base, s, start) && Enabled(s, step) && RaceStep(s, step)
    ensures Racing(base, After(base, s, step), start)
  {
    var s' := After(base, s, step);
    forall i | 0 <= i < |s'.hosts| ensures Racer(base, s', start, s'.hosts[i]) {
      assert Racer(base, s, start, s.hosts[i]);
    }
    forall i, j | 0 <= i < |s'.hosts| && 0 <= j < |s'.hosts| && i != j ensures Rivals(s', i, j) {
      RivalsOn(base, s, start, step, i, j);
    }
  }

  /** Among any hosts that all read the block clean, at most one is ever granted the filesystem, mounter or checker. */
  lemma {:induction false} RaceHasOneWinner(base: nat, states: seq<State>, steps: seq<Step>, k: nat)
    requires Run(base, states, steps) && RaceStart(base, states[0]) && k < |states|
    requires forall n :: 0 <= n < |steps| ==> RaceStep(states[n], steps[n])
    ensures Racing(base, states[k], states[0].now)
    ensures forall i, j :: 0 <= i < j < |states[k].hosts| ==> !(states[k].hosts[i].won && states[k].hosts[j].won)
    decreases k
  {
    if k > 0 {
      RaceHasOneWinner(base, states, steps, k - 1);
      RacingOn(base, states[k - 1], states[0].now, steps[k - 1]);
    }
    forall i, j | 0 <= i < j < |states[k].hosts| ensures !(states[k].hosts[i].won && states[k].hosts[j].won) {
      assert Rivals(states[k], i, j);
    }
  }

  /** Whoever confirms its stamp in a race stamped last. */
  lemma LastToStampWins(base: nat, s: State, start: nat, i: nat, j: nat)
    requires Racing(base, s, start) && i < |s.hosts| && j < |s.hosts|
    requires Enabled(s, Confirm(i)) && s.hosts[j].phase.Stamped? && After(base, s, Confirm(i)).hosts[i].won
    ensures s.hosts[j].phase.since <= s.hosts[i].phase.since
  {
    if i != j {
      assert Racer(base, s, start, s.hosts[i]);
      assert Rivals(s, i, j);
    }
  }

  // ---- A checker does not refresh its hold ----

  /** The state after a list of steps, if each can be taken. */
  function Reached(base: nat, s: State, steps: seq<Step>): (r: State)
    requires CanTake(base, s, steps)
    decreases |steps|
  {
    if steps == [] then s else Reached(base, After(base, s, steps[0]), steps[1..])
  }

  predicate CanTake(base: nat, s: State, steps: seq<Step>)
    decreases |steps|
  {
    steps == [] || (Enabled(s, steps[0]) && CanTake(base, After(base, s, steps[0]), steps[1..]))
  }

  lemma OneStep(base: nat, s: State, step: Step, rest: seq<Step>)
    requires Enabled(s, step) && CanTake(base, After(base, s, step), rest)
    ensures CanTake(base, s, [step] + rest) && Reached(base, s, [step] + rest) == Reached(base, After(base, s, step), rest)
  {
    assert ([step] + rest)[1..] == rest;
  }

  function Hosts(a: Phase, x: Phase, won: bool, won': bool): seq<Host>
  {
    [Host(true, 5, a, won), Host(false, 5, x, won')]
  }

  const LAST_STEPS: seq<Step> := [Stamp(1, 9)] + ([Tick(11)] + ([Confirm(1)] + []))
  const MIDDLE_STEPS: seq<Step> := [Tick(11)] + ([Recheck(1)] + ([Confirm(0)] + ([MarkFsck(0)] + LAST_STEPS)))
  const OVERRUN_STEPS: seq<Step> := [Read(0)] + ([Stamp(0, 7)] + ([Tick(1)] + ([Read(1)] + MIDDLE_STEPS)))

  /** The mounter stamps over the checker's mark, and finds its own number a wait later. */
  lemma StampsOver()
    ensures var s := State(12, Block(SEQ_FSCK, 5), Hosts(Checking, Ready(12), true, false));
            CanTake(5, s, LAST_STEPS) && Reached(5, s, LAST_STEPS).hosts == Hosts(Checking, Holding(9, 23), true, true)
  {
    var s8 := State(12, Block(SEQ_FSCK, 5), Hosts(Checking, Ready(12), true, false));
    var s9 := State(12, Block(9, 5), Hosts(Checking, Stamped(9, 12), true, false));
    var s10 := s9.(now := 23);
    var s11 := State(23, Block(9, 5), Hosts(Checking, Holding(9, 23), true, true));
    assert Enabled(s10, Confirm(1)) && After(5, s10, Confirm(1)) == s11;
    OneStep(5, s10, Confirm(1), []);
    OneStep(5, s9, Tick(11), [Confirm(1)] + []);
    assert Enabled(s8, Stamp(1, 9)) && After(5, s8, Stamp(1, 9)) == s9;
    OneStep(5, s8, Stamp(1, 9), [Tick(11)] + ([Confirm(1)] + []));
  }

  /** The mounter looks again before the checker confirms, and finds the stamp it has been watching. */
  lemma LooksAgain()
    ensures var s := State(1, Block(7, 5), Hosts(Stamped(7, 0), Watching(7, 1), false, false));
            CanTake(5, s, MIDDLE_STEPS) && Reached(5, s, MIDDLE_STEPS).hosts == Hosts(Checking, Holding(9, 23), true, true)
  {
    var s4 := State(1, Block(7, 5), Hosts(Stamped(7, 0), Watching(7, 1), false, false));
    var s5 := s4.(now := 12);
    var s6 := State(12, Block(7, 5), Hosts(Stamped(7, 0), Ready(12), false, false));
    var s7 := State(12, Block(7, 5), Hosts(Confirmed(7, 12), Ready(12), true, false));
    var s8 := State(12, Block(SEQ_FSCK, 5), Hosts(Checking, Ready(12), true, false));
    StampsOver();
    assert Enabled(s7, MarkFsck(0)) && After(5, s7, MarkFsck(0)) == s8;
    OneStep(5, s7, MarkFsck(0), LAST_STEPS);
    assert Enabled(s6, Confirm(0)) && After(5, s6, Confirm(0)) == s7;
    OneStep(5, s6, Confirm(0), [MarkFsck(0)] + LAST_STEPS);
    assert Enabled(s5, Recheck(1)) && After(5, s5, Recheck(1)) == s6;
    OneStep(5, s5, Recheck(1), [Confirm(0)] + ([MarkFsck(0)] + LAST_STEPS));
    OneStep(5, s4, Tick(11), [Recheck(1)] + ([Confirm(0)] + ([MarkFsck(0)] + LAST_STEPS)));
  }

  /** A mounter that watches a checker's stamp for one wait, and looks again just before the checker confirms it, takes
    * the filesystem from under the checker. */
  lemma CheckerCanBeOverrun()
    ensures var s := State(0, Block(SEQ_CLEAN, 5), Hosts(Idle, Idle, false, false));
            CanTake(5, s, OVERRUN_STEPS) && Reached(5, s, OVERRUN_STEPS).hosts == Hosts(Checking, Holding(9, 23), true, true)
  {
    var s0 := State(0, Block(SEQ_CLEAN, 5), Hosts(Idle, Idle, false, false));
    var s1 := State(0, Block(SEQ_CLEAN, 5), Hosts(Ready(0), Idle, false, false));
    var s2 := State(0, Block(7, 5), Hosts(Stamped(7, 0), Idle, false, false));
    var s3 := s2.(now := 1);
    var s4 := State(1, Block(7, 5), Hosts(Stamped(7, 0), Watching(7, 1), false, false));
    LooksAgain();
    assert Enabled(s3, Read(1)) && After(5, s3, Read(1)) == s4;
    OneStep(5, s3, Read(1), MIDDLE_STEPS);
    OneStep(5, s2, Tick(1), [Read(1)] + MIDDLE_STEPS);
    assert Enabled(s1, Stamp(0, 7)) && After(5, s1, Stamp(0, 7)) == s2;
    OneStep(5, s1, Stamp(0, 7), [Tick(1)] + ([Read(1)] + MIDDLE_STEPS));
    assert Enabled(s0, Read(0)) && After(5, s0, Read(0)) == s1;
    OneStep(5, s0, Read(0), [Stamp(0, 7)] + ([Tick(1)] + ([Read(1)] + MIDDLE_STEPS)));
  }

  // ---- A late stamp over a holder with a longer interval ----

  function Mounters(a: Phase, short: bool, x: Phase, won: bool, won': bool): seq<Host>
  {
    [Host(false, if short then 5 else 100, a, won), Host(false, 100, x, won')]
  }

  const LATE_STEPS: seq<Step> := [Stamp(1, 8)] + ([Tick(160)] + ([Confirm(1)] + ([Stamp(0, 9)] + ([Tick(11)] + ([Confirm(0)] + [])))))
  const TURN_STEPS: seq<Step> := [Stamp(0, 7)] + ([Tick(160)] + ([Confirm(0)] + ([Release(0)] + ([Read(0)] + LATE_STEPS))))
  const LONG_STEPS: seq<Step> := [Read(0)] + ([Read(1)] + ([Tick(160)] + ([Recheck(0)] + ([Recheck(1)] + TURN_STEPS))))

  /** The second host takes its turn with the long interval; the first, which found the block clean before that, stamps late. */
  lemma StampsLate()
    ensures var s := State(320, Block(SEQ_CLEAN, 100), Mounters(Ready(320), true, Ready(160), true, false));
            CanTake(5, s, LATE_STEPS) && Reached(5, s, LATE_STEPS) == State(491, Block(9, 5), Mounters(Holding(9, 491), true, Holding(8, 480), true, true))
  {
    var s0 := State(320, Block(SEQ_CLEAN, 100), Mounters(Ready(320), true, Ready(160), true, false));
    var s1 := State(320, Block(8, 100), Mounters(Ready(320), true, Stamped(8, 320), true, false));
    var s2 := s1.(now := 480);
    var s3 := State(480, Block(8, 100), Mounters(Ready(320), true, Holding(8, 480), true, true));
    var s4 := State(480, Block(9, 5), Mounters(Stamped(9, 480), true, Holding(8, 480), true, true));
    var s5 := s4.(now := 491);
    var s6 := State(491, Block(9, 5), Mounters(Holding(9, 491), true, Holding(8, 480), true, true));
    assert Enabled(s5, Confirm(0)) && After(5, s5, Confirm(0)) == s6;
    OneStep(5, s5, Confirm(0), []);
    OneStep(5, s4, Tick(11), [Confirm(0)] + []);
    assert Enabled(s3, Stamp(0, 9)) && After(5, s3, Stamp(0, 9)) == s4;
    OneStep(5, s3, Stamp(0, 9), [Tick(11)] + ([Confirm(0)] + []));
    assert Enabled(s2, Confirm(1)) && After(5, s2, Confirm(1)) == s3;
    OneStep(5, s2, Confirm(1), [Stamp(0, 9)] + ([Tick(11)] + ([Confirm(0)] + [])));
    OneStep(5, s1, Tick(160), [Confirm(1)] + ([Stamp(0, 9)] + ([Tick(11)] + ([Confirm(0)] + []))));
    assert Enabled(s0, Stamp(1, 8)) && After(5, s0, Stamp(1, 8)) == s1;
    OneStep(5, s0, Stamp(1, 8), [Tick(160)] + ([Confirm(1)] + ([Stamp(0, 9)] + ([Tick(11)] + ([Confirm(0)] + [])))));
  }

  /** The first host takes its turn, gives the filesystem back and finds the block clean. */
  lemma TakesTurn()
    ensures var s := State(160, Block(3, 100), Mounters(Ready(160), false, Ready(160), false, false));
            CanTake(5, s, TURN_STEPS) && Reached(5, s, TURN_STEPS) == State(491, Block(9, 5), Mounters(Holding(9, 491), true, Holding(8, 480), true, true))
  {
    var s0 := State(160, Block(3, 100), Mounters(Ready(160), false, Ready(160), false, false));
    var s1 := State(160, Block(7, 100), Mounters(Stamped(7, 160), false, Ready(160), false, false));
    var s2 := s1.(now := 320);
    var s3 := State(320, Block(7, 100), Mounters(Holding(7, 320), false, Ready(160), true, false));
    var s4 := State(320, Block(SEQ_CLEAN, 100), Mounters(Idle, false, Ready(160), true, false));
    var s5 := State(320, Block(SEQ_CLEAN, 100), Mounters(Ready(320), true, Ready(160), true, false));
    StampsLate();
    assert Enabled(s4, Read(0)) && After(5, s4, Read(0)) == s5;
    OneStep(5, s4, Read(0), LATE_STEPS);
    assert Enabled(s3, Release(0)) && After(5, s3, Release(0)) == s4;
    OneStep(5, s3, Release(0), [Read(0)] + LATE_STEPS);
    assert Enabled(s2, Confirm(0)) && After(5, s2, Confirm(0)) == s3;
    OneStep(5, s2, Confirm(0), [Release(0)] + ([Read(0)] + LATE_STEPS));
    OneStep(5, s1, Tick(160), [Confirm(0)] + ([Release(0)] + ([Read(0)] + LATE_STEPS)));
    assert Enabled(s0, Stamp(0, 7)) && After(5, s0, Stamp(0, 7)) == s1;
    OneStep(5, s0, Stamp(0, 7), [Tick(160)] + ([Confirm(0)] + ([Release(0)] + ([Read(0)] + LATE_STEPS))));
  }

  /** Two mounters come to a block whose dead holder promised a hundred seconds, on a filesystem that asks for five. Both end up
    * with the filesystem, the second having refreshed its hold eleven seconds before. */
  lemma LongHolderCanBeOverrun()
    ensures var s := State(0, Block(3, 100), [Host(false, 5, Idle, false), Host(false, 5, Idle, false)]);
            && Initial(s) && CanTake(5, s, LONG_STEPS)
            && Reached(5, s, LONG_STEPS) == State(491, Block(9, 5), Mounters(Holding(9, 491), true, Holding(8, 480), true, true))
  {
    var s0 := State(0, Block(3, 100), [Host(false, 5, Idle, false), Host(false, 5, Idle, false)]);
    var s1 := s0.(hosts := [Host(false, 100, Watching(3, 0), false), Host(false, 5, Idle, false)]);
    var s2 := s0.(hosts := Mounters(Watching(3, 0), false, Watching(3, 0), false, false));
    var s3 := s2.(now := 160);
    var s4 := s3.(hosts := Mounters(Ready(160), false, Watching(3, 0), false, false));
    var s5 := s3.(hosts := Mounters(Ready(160), false, Ready(160), false, false));
    TakesTurn();
    assert Enabled(s4, Recheck(1)) && After(5, s4, Recheck(1)) == s5;
    OneStep(5, s4, Recheck(1), TURN_STEPS);
    assert Enabled(s3, Recheck(0)) && After(5, s3, Recheck(0)) == s4;
    OneStep(5, s3, Recheck(0), [Recheck(1)] + TURN_STEPS);
    OneStep(5, s2, Tick(160), [Recheck(0)] + ([Recheck(1)] + TURN_STEPS));
    assert Enabled(s1, Read(1)) && After(5, s1, Read(1)) == s2;
    OneStep(5, s1, Read(1), [Tick(160)] + ([Recheck(0)] + ([Recheck(1)] + TURN_STEPS)));
    assert Enabled(s0, Read(0)) && After(5, s0, Read(0)) == s1;
    OneStep(5, s0, Read(0), [Read(1)] + ([Tick(160)] + ([Recheck(0)] + ([Recheck(1)] + TURN_STEPS))));
  }
}
