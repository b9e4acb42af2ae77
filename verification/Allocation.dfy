// The formatter's requests for blocks, one after another: single runs, blocks
// in as few runs as there are, and block-mapped files.
module Allocation {
  import opened BlockSets
  import opened IndirectTree
  import opened IndirectInode
  import opened IndirectBuild
  import opened FirstFit
  import opened Allocator
  import IndirectFile

  datatype Request = OneRun(goal: nat, len: nat) | Blocks(goal: nat, count: nat) | MappedFile(goal: nat, count: nat, per: nat)

  datatype Reply = At(start: nat) | Pieces(runs: seq<Run>) | Mapped(ptrs: seq<nat>, data: seq<nat>, store: Store) | Refused

  /** The blocks that may be handed out: from `first` to `limit`, off the metadata. */
  datatype Space = Space(metadata: nat -> bool, first: nat, limit: nat)

  predicate Fits(space: Space, req: Request)
  {
    space.first <= req.goal && (req.MappedFile? ==> 0 < req.per)
  }

  /** The blocks a request was given: those the allocator has recorded since. */
  ghost function Given(before: seq<Run>, after: seq<Run>): iset<nat>
  {
    iset b: nat | Contains(after, b) && !Contains(before, b)
  }

  ghost predicate GivenTo(snaps: seq<seq<Run>>, i: nat, b: nat)
    requires i + 1 < |snaps|
  {
    b in Given(snaps[i], snaps[i + 1])
  }

  /** What a request is answered, and what the answer's blocks have to do with those given. */
  ghost predicate Answered(space: Space, before: seq<Run>, req: Request, reply: Reply, after: seq<Run>)
    requires Fits(space, req)
  {
    var taken, free := TakenBy(space.metadata, before), FreeCount(space.metadata, before, space.first, space.limit);
    match req
    case OneRun(goal, len) =>
      if reply.At? then
        && after == before + [Run(reply.start, len)]
        && (IsFirst(taken, space.limit, goal, len, reply.start) ||
            (NoFit(taken, space.limit, goal, len) && IsFirst(taken, space.limit, space.first, len, reply.start)))
      else reply == Refused && after == before && NoFit(taken, space.limit, space.first, len)
    case Blocks(goal, count) =>
      if reply.Pieces? then count <= free && after == before + reply.runs && Total(reply.runs) == count
      else reply == Refused && free < count
    case MappedFile(goal, count, per) =>
      if reply.Mapped? then
        && |reply.data| == count && MapOf(reply.store, per, reply.ptrs, reply.data)
        && Unshared(Owned(Roots(reply.store, per, reply.ptrs)))
        && forall b: nat :: b in Given(before, after) <==> b in Owned(Roots(reply.store, per, reply.ptrs))
      else
        && reply == Refused
        && (NoFit(TakenBy(space.metadata, after), space.limit, space.first, 1) || count > SlotBase(per, IndirectFile.LAST_SLOT))
  }

  /** Runs handed out are kept, disjoint, in range and off the metadata. */
  ghost predicate Kept(space: Space, before: seq<Run>, after: seq<Run>)
  {
    before <= after && Disjoint(after) && Placed(after, space.metadata, space.first, space.limit)
  }

  ghost function SpaceOf(alloc: Allocator): Space
  {
    Space(alloc.metadata, alloc.firstDataBlock, alloc.blocksCount)
  }

  method Serve(alloc: Allocator, req: Request) returns (reply: Reply)
    requires alloc.Valid() && alloc.metadata(0) && Fits(SpaceOf(alloc), req)
    modifies alloc
    ensures alloc.Valid() && Kept(SpaceOf(alloc), old(alloc.runs), alloc.runs)
    ensures Answered(SpaceOf(alloc), old(alloc.runs), req, reply, alloc.runs)
  {
    match req
    case OneRun(goal, len) =>
      var r := alloc.Alloc(goal, len);
      reply := if r.Some? then At(r.value) else Refused;
    case Blocks(goal, count) =>
      var ok, more := alloc.AllocRuns(goal, count);
      reply := if ok then Pieces(more) else Refused;
    case MappedFile(goal, count, per) =>
      reply := ServeFile(alloc, goal, count, per);
  }

  method ServeFile(alloc: Allocator, goal: nat, count: nat, per: nat) returns (reply: Reply)
    requires alloc.Valid() && alloc.metadata(0) && alloc.firstDataBlock <= goal && 0 < per
    modifies alloc
    ensures alloc.Valid() && Kept(SpaceOf(alloc), old(alloc.runs), alloc.runs)
    ensures Answered(SpaceOf(alloc), old(alloc.runs), MappedFile(goal, count, per), reply, alloc.runs)
  {
    var file := new IndirectFile.FileAllocator(per, count, alloc, goal);
    var ok, ptrs := file.AllocFile();
    reply := if ok then Mapped(ptrs, file.data, file.store) else Refused;
  }

  /** What the allocator had handed out before each of the requests, and after the last. */
  ghost predicate Trail(space: Space, snaps: seq<seq<Run>>, reqs: seq<Request>, replies: seq<Reply>, n: nat)
  {
    && |snaps| == n + 1 && |replies| == n <= |reqs| && (forall i :: 0 <= i < |reqs| ==> Fits(space, reqs[i]))
    && forall i :: 0 <= i < n ==> StepOf(space, snaps, reqs, replies, i)
  }

  ghost predicate StepOf(space: Space, snaps: seq<seq<Run>>, reqs: seq<Request>, replies: seq<Reply>, i: nat)
    requires i + 1 < |snaps| && i < |replies| && i < |reqs| && Fits(space, reqs[i])
  {
    Kept(space, snaps[i], snaps[i + 1]) && Answered(space, snaps[i], reqs[i], replies[i], snaps[i + 1])
  }

  lemma TrailOn(space: Space, snaps: seq<seq<Run>>, reqs: seq<Request>, replies: seq<Reply>, n: nat, reply: Reply, after: seq<Run>)
    requires Trail(space, snaps, reqs, replies, n) && n < |reqs|
    requires Kept(space, snaps[n], after) && Answered(space, snaps[n], reqs[n], reply, after)
    ensures Trail(space, snaps + [after], reqs, replies + [reply], n + 1)
  {
    var snaps', replies' := snaps + [after], replies + [reply];
    forall i | 0 <= i < n + 1 ensures StepOf(space, snaps', reqs, replies', i) {
      assert i < n ==> StepOf(space, snaps, reqs, replies, i);
    }
  }

  lemma {:induction false} SnapsGrow(space: Space, snaps: seq<seq<Run>>, reqs: seq<Request>, replies: seq<Reply>, n: nat, i: nat, j: nat)
    requires Trail(space, snaps, reqs, replies, n) && i <= j <= n
    ensures snaps[i] <= snaps[j]
    decreases j
  {
    if i < j {
      SnapsGrow(space, snaps, reqs, replies, n, i, j - 1);
      assert StepOf(space, snaps, reqs, replies, j - 1);
    }
  }

  lemma PrefixContains(a: seq<Run>, c: seq<Run>, b: nat)
    requires a <= c && Contains(a, b)
    ensures Contains(c, b)
  {
    var i :| 0 <= i < |a| && a[i].start <= b < a[i].start + a[i].len;
    assert c[i] == a[i];
  }

  /** No block is given to two requests, or to a request after it was handed out before any of them; every block given is in
    * range and off the metadata. */
  lemma GivenOnce(space: Space, snaps: seq<seq<Run>>, reqs: seq<Request>, replies: seq<Reply>, n: nat, i: nat, j: nat, b: nat)
    requires Trail(space, snaps, reqs, replies, n) && i < j < n && GivenTo(snaps, i, b)
    ensures !GivenTo(snaps, j, b)
  {
    SnapsGrow(space, snaps, reqs, replies, n, i + 1, j);
    PrefixContains(snaps[i + 1], snaps[j], b);
  }

  lemma GivenIsGood(space: Space, snaps: seq<seq<Run>>, reqs: seq<Request>, replies: seq<Reply>, n: nat, i: nat, b: nat)
    requires Trail(space, snaps, reqs, replies, n) && i < n && GivenTo(snaps, i, b)
    ensures space.first <= b < space.limit && !space.metadata(b) && !Contains(snaps[0], b)
  {
    var runs := snaps[i + 1];
    assert StepOf(space, snaps, reqs, replies, i);
    var k :| 0 <= k < |runs| && runs[k].start <= b < runs[k].start + runs[k].len;
    assert OffMetadata(runs[k], space.metadata, space.first, space.limit);
    SnapsGrow(space, snaps, reqs, replies, n, 0, i);
    if Contains(snaps[0], b) {
      PrefixContains(snaps[0], snaps[i], b);
    }
  }

  /** Everything given: pairwise disjoint, in range, off the metadata, and new. */
  ghost predicate AllDisjoint(space: Space, snaps: seq<seq<Run>>, n: nat)
    requires |snaps| == n + 1
  {
    && (forall i: nat, j: nat, b: nat :: 0 <= i < j < n && GivenTo(snaps, i, b) ==> !GivenTo(snaps, j, b))
    && (forall i: nat, b: nat :: 0 <= i < n && GivenTo(snaps, i, b) ==>
          space.first <= b < space.limit && !space.metadata(b) && !Contains(snaps[0], b))
  }

  lemma NeverTwice(space: Space, snaps: seq<seq<Run>>, reqs: seq<Request>, replies: seq<Reply>, n: nat)
    requires Trail(space, snaps, reqs, replies, n)
    ensures AllDisjoint(space, snaps, n)
  {
    forall i: nat, j: nat, b: nat | 0 <= i < j < n && GivenTo(snaps, i, b) ensures !GivenTo(snaps, j, b) {
      GivenOnce(space, snaps, reqs, replies, n, i, j, b);
    }
    forall i: nat, b: nat | 0 <= i < n && GivenTo(snaps, i, b)
      ensures space.first <= b < space.limit && !space.metadata(b) && !Contains(snaps[0], b)
    {
      GivenIsGood(space, snaps, reqs, replies, n, i, b);
    }
  }

  /** Any list of requests of all three kinds: each is answered as it should be, and no block is given out twice. */
  method ServeAll(alloc: Allocator, reqs: seq<Request>) returns (replies: seq<Reply>, ghost snaps: seq<seq<Run>>)
    requires alloc.Valid() && alloc.metadata(0) && forall i :: 0 <= i < |reqs| ==> Fits(SpaceOf(alloc), reqs[i])
    modifies alloc
    ensures alloc.Valid() && Trail(SpaceOf(alloc), snaps, reqs, replies, |reqs|)
    ensures snaps[0] == old(alloc.runs) && snaps[|reqs|] == alloc.runs
    ensures AllDisjoint(SpaceOf(alloc), snaps, |reqs|)
  {
    ghost var space := SpaceOf(alloc);
    replies, snaps := [], [alloc.runs];
    for n := 0 to |reqs|
      invariant alloc.Valid() && Trail(space, snaps, reqs, replies, n)
      invariant snaps[0] == old(alloc.runs) && snaps[n] == alloc.runs
    {
      var reply := Serve(alloc, reqs[n]);
      TrailOn(space, snaps, reqs, replies, n, reply, alloc.runs);
      replies, snaps := replies + [reply], snaps + [alloc.runs];
    }
    NeverTwice(space, snaps, reqs, replies, |reqs|);
  }
}
