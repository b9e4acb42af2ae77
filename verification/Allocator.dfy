// The formatter's allocator of blocks that metadata left alone.
module Allocator {
  import opened Options
  import opened FirstFit

  datatype Run = Run(start: nat, len: nat)

  predicate Contains(runs: seq<Run>, b: nat)
  {
    exists i :: 0 <= i < |runs| && runs[i].start <= b < runs[i].start + runs[i].len
  }

  lemma ContainsMore(runs: seq<Run>, r: Run, b: nat)
    ensures Contains(runs + [r], b) <==> Contains(runs, b) || r.start <= b < r.start + r.len
  {
    if Contains(runs, b) {
      var i :| 0 <= i < |runs| && runs[i].start <= b < runs[i].start + runs[i].len;
      assert (runs + [r])[i] == runs[i];
    }
    if r.start <= b < r.start + r.len {
      assert (runs + [r])[|runs|] == r;
    }
  }

  /** No block is in two of the runs. */
  ghost predicate Disjoint(runs: seq<Run>)
  {
    forall i, j :: 0 <= i < j < |runs| ==> Apart(runs[i], runs[j])
  }

  predicate Apart(a: Run, b: Run)
  {
    a.start + a.len <= b.start || b.start + b.len <= a.start || a.len == 0 || b.len == 0
  }

  /** Every run is within the filesystem and off its metadata. */
  ghost predicate Placed(runs: seq<Run>, metadata: nat -> bool, first: nat, limit: nat)
  {
    forall i :: 0 <= i < |runs| ==> OffMetadata(runs[i], metadata, first, limit)
  }

  ghost predicate OffMetadata(r: Run, metadata: nat -> bool, first: nat, limit: nat)
  {
    first <= r.start && r.start + r.len <= limit && forall b: nat :: r.start <= b < r.start + r.len ==> !metadata(b)
  }

  /** A free run of blocks, added to the ones handed out. */
  lemma Extended(runs: seq<Run>, metadata: nat -> bool, first: nat, limit: nat, r: Run)
    requires Disjoint(runs) && Placed(runs, metadata, first, limit)
    requires first <= r.start && Fits(TakenBy(metadata, runs), limit, r.start, r.len)
    ensures Disjoint(runs + [r]) && Placed(runs + [r], metadata, first, limit)
  {
    var taken := TakenBy(metadata, runs);
    forall b: nat | r.start <= b < r.start + r.len ensures !metadata(b) && !Contains(runs, b) {
      assert !taken(b);
    }
    forall i | 0 <= i < |runs| ensures Apart(runs[i], r) {
      var a := runs[i];
      if 0 < a.len && 0 < r.len {
        var b := if a.start < r.start then r.start else a.start;
        if a.start <= b < a.start + a.len {
          assert Contains(runs, b);
        }
      }
    }
  }

  class Allocator {
    const blocksCount: nat
    const firstDataBlock: nat
    const metadata: nat -> bool
    var runs: seq<Run>

    constructor (blocksCount: nat, firstDataBlock: nat, metadata: nat -> bool)
      ensures Valid() && runs == []
      ensures this.blocksCount == blocksCount && this.firstDataBlock == firstDataBlock && this.metadata == metadata
    {
      this.blocksCount, this.firstDataBlock, this.metadata, runs := blocksCount, firstDataBlock, metadata, [];
    }

    ghost predicate Valid()
      reads this
    {
      Disjoint(runs) && Placed(runs, metadata, firstDataBlock, blocksCount)
    }

    ghost function TakenNow(): nat -> bool
      reads this
    {
      TakenBy(metadata, runs)
    }

    predicate Taken(block: nat)
      reads this
    {
      metadata(block) || Contains(runs, block)
    }

    /** The first taken block of a run, or the run's length. */
    method FirstTaken(block: nat, len: nat) returns (offset: nat)
      ensures offset <= len && (offset < len ==> TakenNow()(block + offset))
      ensures forall b: nat :: block <= b < block + offset ==> !TakenNow()(b)
    {
      offset := 0;
      while offset < len && !Taken(block + offset)
        invariant offset <= len && forall b: nat :: block <= b < block + offset ==> !TakenNow()(b)
      {
        offset := offset + 1;
      }
    }

    /** The first fit at or after `start`. */
    method Scan(start: nat, len: nat) returns (r: Option<nat>)
      ensures match r
              case Some(s) => IsFirst(TakenNow(), blocksCount, start, len, s)
              case None => NoFit(TakenNow(), blocksCount, start, len)
    {
      var block := start;
      while block + len <= blocksCount
        invariant start <= block && NoneBefore(TakenNow(), blocksCount, start, len, block)
      {
        var offset := FirstTaken(block, len);
        if offset == len {
          return Some(block);
        }
        Blocked(TakenNow(), blocksCount, start, len, block, block + offset);
        block := block + offset + 1;
      }
      PastTheEnd(TakenNow(), blocksCount, start, len, block);
      return None;
    }

    /** How far the free blocks from `block` go, up to `room` of them. */
    method FreeRun(block: nat, room: nat) returns (len: nat)
      requires block < blocksCount && !Taken(block) && 0 < room
      ensures 0 < len <= room && Fits(TakenNow(), blocksCount, block, len)
    {
      len := 0;
      while block + len < blocksCount && !Taken(block + len) && len < room
        invariant len <= room && Fits(TakenNow(), blocksCount, block, len)
        invariant len == 0 ==> block < blocksCount && !Taken(block)
      {
        len := len + 1;
      }
    }

    /** One pass over the free blocks from `start`, in as few runs as they allow. */
    method TakeFrom(start: nat, count: nat, more: seq<Run>, ghost was: seq<Run>) returns (more': seq<Run>)
      requires firstDataBlock <= start && Passing(metadata, was, runs, more, firstDataBlock, blocksCount, start, start, count)
      modifies this
      ensures exists block: nat :: start <= block && (Total(more') == count || blocksCount <= block) &&
                Passing(metadata, was, runs, more', firstDataBlock, blocksCount, start, block, count)
    {
      more' := more;
      var found, block := Total(more), start;
      while found < count && block < blocksCount
        invariant start <= block && found == Total(more')
        invariant Passing(metadata, was, runs, more', firstDataBlock, blocksCount, start, block, count)
        decreases blocksCount - block
      {
        if Taken(block) {
          assert TakenNow()(block);
          block := block + 1;
        } else {
          var len := FreeRun(block, count - found);
          PassRun(metadata, was, runs, more', firstDataBlock, blocksCount, start, block, count, len);
          TotalMore(more', Run(block, len));
          more' := more' + [Run(block, len)];
          runs := runs + [Run(block, len)];
          found, block := found + len, block + len;
        }
      }
    }

    /** `count` free blocks, from the goal on and then from the start of the filesystem. */
    method AllocRuns(goal: nat, count: nat) returns (ok: bool, more: seq<Run>)
      requires Valid() && firstDataBlock <= goal
      modifies this
      ensures Valid() && runs == old(runs) + more
      ensures ok ==> Total(more) == count
      ensures ok <==> count <= FreeCount(metadata, old(runs), firstDataBlock, blocksCount)
    {
      ghost var was := runs;
      more := [];
      assert was + [] == was;
      more := TakeFrom(goal, count, more, was);
      if Total(more) >= count {
        return true, more;
      }
      more := TakeFrom(firstDataBlock, count, more, was);
      if Total(more) >= count {
        return true, more;
      }
      NoneFree(metadata, runs, firstDataBlock, blocksCount);
      return false, more;
    }

    /** Contiguous free blocks: the first fit from the goal, failing that from the start of the filesystem. */
    method Alloc(goal: nat, len: nat) returns (r: Option<nat>)
      requires Valid() && firstDataBlock <= goal
      modifies this
      ensures Valid()
      ensures match r
              case Some(s) =>
                && runs == old(runs) + [Run(s, len)]
                && (IsFirst(old(TakenNow()), blocksCount, goal, len, s) ||
                    (NoFit(old(TakenNow()), blocksCount, goal, len) && IsFirst(old(TakenNow()), blocksCount, firstDataBlock, len, s)))
              case None => runs == old(runs) && NoFit(old(TakenNow()), blocksCount, firstDataBlock, len)
    {
      r := Scan(goal, len);
      if r.None? {
        r := Scan(firstDataBlock, len);
      }
      if r.Some? {
        Extended(runs, metadata, firstDataBlock, blocksCount, Run(r.value, len));
        runs := runs + [Run(r.value, len)];
      }
    }
  }

  function Total(runs: seq<Run>): nat
  {
    if runs == [] then 0 else Total(runs[..|runs| - 1]) + runs[|runs| - 1].len
  }

  lemma TotalMore(runs: seq<Run>, r: Run)
    ensures Total(runs + [r]) == Total(runs) + r.len
  {
    assert (runs + [r])[..|runs|] == runs;
  }

  /** How many blocks from `from` up to `limit` are free. */
  ghost function FreeCount(metadata: nat -> bool, runs: seq<Run>, from: nat, limit: nat): nat
    decreases limit
  {
    if limit <= from then 0
    else FreeCount(metadata, runs, from, limit - 1) + if TakenBy(metadata, runs)(limit - 1) then 0 else 1
  }

  lemma {:induction false} NoneFree(metadata: nat -> bool, runs: seq<Run>, from: nat, limit: nat)
    requires forall b: nat :: from <= b < limit ==> TakenBy(metadata, runs)(b)
    ensures FreeCount(metadata, runs, from, limit) == 0
    decreases limit
  {
    if from < limit {
      NoneFree(metadata, runs, from, limit - 1);
    }
  }

  /** How much of a run is below `limit`. */
  function LenBelow(r: Run, limit: nat): nat
  {
    if limit <= r.start then 0 else if r.start + r.len <= limit then r.len else limit - r.start
  }

  /** Handing out a free run takes its length off the free blocks. */
  lemma {:induction false} FreeDrops(metadata: nat -> bool, runs: seq<Run>, r: Run, from: nat, limit: nat)
    requires from <= r.start && forall b: nat :: r.start <= b < r.start + r.len ==> !TakenBy(metadata, runs)(b)
    ensures FreeCount(metadata, runs + [r], from, limit) + LenBelow(r, limit) == FreeCount(metadata, runs, from, limit)
    decreases limit
  {
    if from < limit {
      FreeDrops(metadata, runs, r, from, limit - 1);
      ContainsMore(runs, r, limit - 1);
    }
  }

  /** A pass over the free blocks: `more` handed out so far, everything from `start` to `block` taken. */
  ghost predicate Passing(metadata: nat -> bool, was: seq<Run>, runs: seq<Run>, more: seq<Run>, first: nat, limit: nat, start: nat, block: nat, count: nat)
  {
    && runs == was + more && Total(more) <= count
    && Disjoint(runs) && Placed(runs, metadata, first, limit)
    && Total(more) + FreeCount(metadata, runs, first, limit) == FreeCount(metadata, was, first, limit)
    && forall b: nat :: start <= b < block ==> TakenBy(metadata, runs)(b)
  }

  lemma PassRun(metadata: nat -> bool, was: seq<Run>, runs: seq<Run>, more: seq<Run>, first: nat, limit: nat, start: nat, block: nat, count: nat, len: nat)
    requires Passing(metadata, was, runs, more, first, limit, start, block, count) && first <= start <= block
    requires Fits(TakenBy(metadata, runs), limit, block, len) && Total(more) + len <= count
    ensures Passing(metadata, was, runs + [Run(block, len)], more + [Run(block, len)], first, limit, start, block + len, count)
  {
    var r := Run(block, len);
    Extended(runs, metadata, first, limit, r);
    FreeDrops(metadata, runs, r, first, limit);
    TotalMore(more, r);
    assert was + (more + [r]) == runs + [r];
    forall b: nat | start <= b < block + len ensures TakenBy(metadata, runs + [r])(b) {
      ContainsMore(runs, r, b);
      assert b < block ==> TakenBy(metadata, runs)(b);
    }
  }

  ghost function TakenBy(metadata: nat -> bool, runs: seq<Run>): nat -> bool
  {
    (b: nat) => metadata(b) || Contains(runs, b)
  }
}
