// A set of blocks held as runs, and the blocks claimed more than once.
module BlockRuns {
  import opened Arith

  /** Blocks `start` up to but not including `end`. */
  datatype Run = Run(start: nat, end: nat)

  function Min(a: nat, b: nat): nat
  {
    if a < b then a else b
  }

  // ---- The blocks of a list of runs ----

  function Blocks(start: nat, end: nat): (r: set<nat>)
    ensures forall b: nat :: b in r <==> start <= b < end
    decreases end
  {
    if start >= end then {} else Blocks(start, end - 1) + {end - 1}
  }

  ghost predicate Holds(runs: seq<Run>, b: nat)
  {
    exists i :: 0 <= i < |runs| && runs[i].start <= b < runs[i].end
  }

  ghost function Held(runs: seq<Run>): (r: set<nat>)
    ensures forall b: nat :: b in r <==> Holds(runs, b)
  {
    if runs == [] then {}
    else
      var front, last := runs[..|runs| - 1], runs[|runs| - 1];
      HoldsLast(runs);
      Held(front) + Blocks(last.start, last.end)
  }

  lemma HoldsLast(runs: seq<Run>)
    requires runs != []
    ensures forall b: nat :: Holds(runs, b) <==>
              Holds(runs[..|runs| - 1], b) || runs[|runs| - 1].start <= b < runs[|runs| - 1].end
  {
    var front, last := runs[..|runs| - 1], runs[|runs| - 1];
    forall b: nat ensures Holds(runs, b) <==> Holds(front, b) || last.start <= b < last.end {
      if Holds(front, b) {
        var i :| 0 <= i < |front| && front[i].start <= b < front[i].end;
        assert runs[i] == front[i];
      }
    }
  }

  /** Runs in order, none empty and no two touching. */
  ghost predicate Apart(runs: seq<Run>)
  {
    && (forall i :: 0 <= i < |runs| ==> Solid(runs, i))
    && (forall i, j :: 0 <= i < j < |runs| ==> Gap(runs, i, j))
  }

  predicate Solid(runs: seq<Run>, i: nat)
    requires i < |runs|
  {
    runs[i].start < runs[i].end
  }

  /** Run `j` starts after the end of run `i`, with a block between them. */
  predicate Gap(runs: seq<Run>, i: nat, j: nat)
    requires i < |runs| && j < |runs|
  {
    runs[i].end < runs[j].start
  }

  function Length(runs: seq<Run>): nat
  {
    if runs == [] then 0
    else Length(runs[..|runs| - 1]) + if runs[|runs| - 1].start < runs[|runs| - 1].end then runs[|runs| - 1].end - runs[|runs| - 1].start else 0
  }

  lemma {:induction false} BlocksSize(start: nat, end: nat)
    requires start <= end
    ensures |Blocks(start, end)| == end - start
    decreases end
  {
    if start < end {
      BlocksSize(start, end - 1);
    }
  }

  lemma FrontApart(runs: seq<Run>)
    requires runs != [] && Apart(runs)
    ensures Apart(runs[..|runs| - 1]) && runs[|runs| - 1].start < runs[|runs| - 1].end
    ensures Held(runs[..|runs| - 1]) !! Blocks(runs[|runs| - 1].start, runs[|runs| - 1].end)
  {
    var front, n := runs[..|runs| - 1], |runs| - 1;
    assert Solid(runs, n);
    forall i | 0 <= i < n ensures Solid(front, i) {
      assert Solid(runs, i);
    }
    forall i, j | 0 <= i < j < n ensures Gap(front, i, j) {
      assert Gap(runs, i, j);
    }
    forall b: nat | Holds(front, b) ensures b < runs[n].start {
      var i :| 0 <= i < n && front[i].start <= b < front[i].end;
      assert Gap(runs, i, n);
    }
  }

  /** The lengths of runs apart from one another add up to the number of blocks. */
  lemma {:induction false} LengthIsSize(runs: seq<Run>)
    requires Apart(runs)
    ensures Length(runs) == |Held(runs)|
  {
    if runs != [] {
      var front, last := runs[..|runs| - 1], runs[|runs| - 1];
      FrontApart(runs);
      LengthIsSize(front);
      BlocksSize(last.start, last.end);
    }
  }

  // ---- Where runs start ----

  /** How many runs start before block `x`. */
  function Before(runs: seq<Run>, x: nat): (n: nat)
    ensures n <= |runs|
    ensures n < |runs| ==> runs[n].start >= x
    ensures 0 < n ==> runs[n - 1].start < x
  {
    if runs == [] || runs[0].start >= x then 0
    else
      var n := Before(runs[1..], x);
      assert 0 < n ==> runs[n] == runs[1..][n - 1];
      n + 1
  }

  /** The runs before that point, and no others, start before `x`. */
  lemma BeforeSplits(runs: seq<Run>, x: nat, m: nat)
    requires Apart(runs) && m < |runs|
    ensures runs[m].start < x <==> m < Before(runs, x)
  {
    var n := Before(runs, x);
    assert Solid(runs, m);
    if m < n - 1 {
      assert Gap(runs, m, n - 1);
    } else if n < m {
      assert Solid(runs, n) && Gap(runs, n, m);
    }
  }

  lemma BeforeMonotone(runs: seq<Run>, x: nat, y: nat)
    requires Apart(runs) && x <= y
    ensures Before(runs, x) <= Before(runs, y)
  {
    if 0 < Before(runs, x) {
      BeforeSplits(runs, y, Before(runs, x) - 1);
    }
  }

  // ---- The part of the runs inside a range ----

  /** `parts` is what the first `k` runs have in common with the range. */
  ghost predicate Part(parts: seq<Run>, runs: seq<Run>, k: nat, start: nat, end: nat)
  {
    && k <= |runs| && Apart(parts)
    && (forall b: nat :: InCommon(parts, runs[..k], start, end, b))
    && (if k == 0 then parts == [] else forall m :: 0 <= m < |parts| ==> parts[m].end <= runs[k - 1].end)
  }

  ghost predicate InCommon(parts: seq<Run>, runs: seq<Run>, start: nat, end: nat, b: nat)
  {
    Holds(parts, b) <==> start <= b < end && Holds(runs, b)
  }

  function Clip(r: Run, start: nat, end: nat): Run
  {
    Run(Max(r.start, start), Min(r.end, end))
  }

  lemma PartNone(runs: seq<Run>, k: nat, start: nat, end: nat)
    requires k <= |runs| && forall m :: 0 <= m < k ==> runs[m].end <= start
    ensures Part([], runs, k, start, end)
  {
    forall b: nat ensures InCommon([], runs[..k], start, end, b) {
      if Holds(runs[..k], b) {
        var m :| 0 <= m < k && runs[..k][m].start <= b < runs[..k][m].end;
        assert runs[..k][m] == runs[m];
      }
    }
  }

  /** One more run: the piece of it in the range, if there is one. */
  lemma PartStep(parts: seq<Run>, runs: seq<Run>, k: nat, start: nat, end: nat)
    requires Apart(runs) && k < |runs| && Part(parts, runs, k, start, end)
    ensures var c := Clip(runs[k], start, end);
            Part(if c.start < c.end then parts + [c] else parts, runs, k + 1, start, end)
  {
    var c := Clip(runs[k], start, end);
    var parts' := if c.start < c.end then parts + [c] else parts;
    var prefix := runs[..k + 1];
    forall b: nat ensures InCommon(parts', prefix, start, end, b) {
      assert InCommon(parts, runs[..k], start, end, b);
      HoldsOneMore(runs, k, b);
      HoldsPush(parts, c, b);
    }
    assert Solid(runs, k);
    if 0 < k {
      assert Gap(runs, k - 1, k);
      PushApart(parts, c, runs[k - 1].end);
    }
  }

  lemma HoldsOneMore(runs: seq<Run>, k: nat, b: nat)
    requires k < |runs|
    ensures Holds(runs[..k + 1], b) <==> Holds(runs[..k], b) || runs[k].start <= b < runs[k].end
  {
    assert runs[..k + 1][..k] == runs[..k];
    HoldsLast(runs[..k + 1]);
  }

  lemma HoldsPush(parts: seq<Run>, c: Run, b: nat)
    ensures Holds(parts + [c], b) <==> Holds(parts, b) || c.start <= b < c.end
  {
    assert (parts + [c])[..|parts|] == parts;
    HoldsLast(parts + [c]);
  }

  lemma PushApart(parts: seq<Run>, c: Run, x: nat)
    requires Apart(parts) && forall m :: 0 <= m < |parts| ==> parts[m].end <= x
    ensures x < c.start < c.end ==> Apart(parts + [c])
  {
    var all := parts + [c];
    if x < c.start < c.end {
      forall i | 0 <= i < |all| ensures Solid(all, i) {
        assert i < |parts| ==> Solid(parts, i);
      }
      forall i, j | 0 <= i < j < |all| ensures Gap(all, i, j) {
        assert j < |parts| ==> Gap(parts, i, j);
      }
    }
  }

  /** With no run past the first `k` in the range, the parts are all there is in it. */
  lemma PartAll(parts: seq<Run>, runs: seq<Run>, k: nat, start: nat, end: nat)
    requires Part(parts, runs, k, start, end) && forall m :: k <= m < |runs| ==> runs[m].start >= end
    ensures Held(parts) == Held(runs) * Blocks(start, end)
  {
    forall b: nat ensures Holds(parts, b) <==> Holds(runs, b) && start <= b < end {
      assert InCommon(parts, runs[..k], start, end, b);
      if Holds(runs, b) && b < end {
        var m :| 0 <= m < |runs| && runs[m].start <= b < runs[m].end;
        assert runs[..k][m] == runs[m];
      }
      if Holds(runs[..k], b) {
        var m :| 0 <= m < k && runs[..k][m].start <= b < runs[..k][m].end;
        assert runs[m] == runs[..k][m];
      }
    }
  }

  // ---- Merging a range into the runs ----

  /** Runs `keep` to `j` and the range make up one run from `lo` to `hi`. */
  ghost predicate Merges(runs: seq<Run>, start: nat, end: nat, keep: nat, j: nat, lo: nat, hi: nat)
  {
    && keep <= j <= |runs| && start < end <= hi && lo <= start
    && (forall m :: 0 <= m < keep ==> runs[m].end < lo)
    && (forall m :: keep <= m < j ==> lo <= runs[m].start <= end && start <= runs[m].end <= hi)
    && (forall m :: j <= m < |runs| ==> hi < runs[m].start)
    && (lo == start || (keep < j && lo == runs[keep].start))
    && (hi == end || exists m :: keep <= m < j && hi == runs[m].end)
  }

  function Merged(runs: seq<Run>, keep: nat, j: nat, lo: nat, hi: nat): seq<Run>
    requires keep <= j <= |runs|
  {
    runs[..keep] + [Run(lo, hi)] + runs[j..]
  }

  lemma MergedApart(runs: seq<Run>, start: nat, end: nat, keep: nat, j: nat, lo: nat, hi: nat)
    requires Apart(runs) && Merges(runs, start, end, keep, j, lo, hi)
    ensures Apart(Merged(runs, keep, j, lo, hi))
  {
    var all := Merged(runs, keep, j, lo, hi);
    forall i | 0 <= i < |all| ensures Solid(all, i) {
      if i != keep {
        assert Solid(runs, if i < keep then i else i - keep - 1 + j);
      }
    }
    forall a, b | 0 <= a < b < |all| ensures Gap(all, a, b) {
      if a != keep && b != keep {
        assert Gap(runs, if a < keep then a else a - keep - 1 + j, if b < keep then b else b - keep - 1 + j);
      }
    }
  }

  lemma MergedHoldsOld(runs: seq<Run>, start: nat, end: nat, keep: nat, j: nat, lo: nat, hi: nat, b: nat)
    requires Merges(runs, start, end, keep, j, lo, hi) && (Holds(runs, b) || start <= b < end)
    ensures Holds(Merged(runs, keep, j, lo, hi), b)
  {
    var all := Merged(runs, keep, j, lo, hi);
    assert all[keep] == Run(lo, hi);
    if Holds(runs, b) {
      var m :| 0 <= m < |runs| && runs[m].start <= b < runs[m].end;
      if m < keep {
        assert all[m] == runs[m];
      } else if j <= m {
        assert all[m - j + keep + 1] == runs[m];
      }
    }
  }

  lemma MergedHoldsNoMore(runs: seq<Run>, start: nat, end: nat, keep: nat, j: nat, lo: nat, hi: nat, b: nat)
    requires Merges(runs, start, end, keep, j, lo, hi) && Holds(Merged(runs, keep, j, lo, hi), b)
    ensures Holds(runs, b) || start <= b < end
  {
    var all := Merged(runs, keep, j, lo, hi);
    var m :| 0 <= m < |all| && all[m].start <= b < all[m].end;
    if m < keep {
      assert all[m] == runs[m];
    } else if keep < m {
      assert all[m] == runs[m - keep - 1 + j];
    } else {
      assert all[m] == Run(lo, hi);
      if b < start {
        assert runs[keep].start <= b < runs[keep].end;
      } else if end <= b {
        var k :| keep <= k < j && hi == runs[k].end;
        assert runs[k].start <= b < runs[k].end;
      }
    }
  }

  lemma MergedHeld(runs: seq<Run>, start: nat, end: nat, keep: nat, j: nat, lo: nat, hi: nat)
    requires Apart(runs) && Merges(runs, start, end, keep, j, lo, hi)
    ensures Held(Merged(runs, keep, j, lo, hi)) == Held(runs) + Blocks(start, end)
  {
    forall b: nat ensures Holds(Merged(runs, keep, j, lo, hi), b) <==> Holds(runs, b) || start <= b < end {
      if Holds(runs, b) || start <= b < end {
        MergedHoldsOld(runs, start, end, keep, j, lo, hi, b);
      }
      if Holds(Merged(runs, keep, j, lo, hi), b) {
        MergedHoldsNoMore(runs, start, end, keep, j, lo, hi, b);
      }
    }
  }

  // ---- The class ----

  class RunSet {
    var runs: seq<Run>
    const len: nat
    var count: nat

    ghost predicate Valid()
      reads this
    {
      Apart(runs) && InLen(runs, len) && count == |Held(runs)|
    }

    constructor (len: nat)
      ensures Valid() && this.len == len && Held(runs) == {}
    {
      runs, count := [], 0;
      this.len := len;
    }

    /** Adds the blocks of a range, returning the parts that were already held. */
    method Insert(start: nat, end: nat) returns (overlaps: seq<Run>)
      requires Valid()
      modifies this
      ensures Valid()
      ensures Held(runs) == old(Held(runs)) + Blocks(start, Min(end, len))
      ensures Apart(overlaps) && Held(overlaps) == old(Held(runs)) * Blocks(start, Min(end, len))
    {
      var end := Min(end, len);
      if start >= end {
        return [];
      }
      ghost var before := runs;
      runs, overlaps := Merge(runs, len, start, end);
      InsertCounts(before, start, end, overlaps);
      count := count + (end - start) - Length(overlaps);
    }

    /** The held parts of a range, in order. */
    method Within(start: nat, end: nat) returns (parts: seq<Run>)
      requires Valid()
      ensures Apart(parts) && Held(parts) == Held(runs) * Blocks(start, end)
    {
      parts := PartsWithin(runs, start, end);
    }
  }

  /** Ranges end within `len` blocks. */
  ghost predicate InLen(runs: seq<Run>, len: nat)
  {
    forall m :: 0 <= m < |runs| ==> runs[m].end <= len
  }

  /** The runs with a range merged in, and the parts of the range they already had. */
  method Merge(runs: seq<Run>, ghost len: nat, start: nat, end: nat) returns (runs': seq<Run>, overlaps: seq<Run>)
    requires Apart(runs) && InLen(runs, len) && start < end <= len
    ensures Apart(runs') && InLen(runs', len) && Held(runs') == Held(runs) + Blocks(start, end)
    ensures Apart(overlaps) && Held(overlaps) == Held(runs) * Blocks(start, end)
  {
    var keep, lo, hi;
    keep, lo, hi, overlaps := TakePrevious(runs, start, end);
    ghost var hi0 := hi;
    hi, overlaps := Swallow(runs, start, end, hi, overlaps);
    var j := Before(runs, end + 1);
    Merging(runs, start, end, keep, lo, hi0);
    OverlapsAll(runs, start, end, overlaps);
    MergedApart(runs, start, end, keep, j, lo, hi);
    MergedInLen(runs, len, start, end, keep, j, lo, hi);
    MergedHeld(runs, start, end, keep, j, lo, hi);
    runs' := runs[..keep] + [Run(lo, hi)] + runs[j..];
  }

  /** The run before block `start`, if it reaches or touches it. */
  method TakePrevious(runs: seq<Run>, start: nat, end: nat) returns (keep: nat, lo: nat, hi: nat, overlaps: seq<Run>)
    requires Apart(runs) && start < end
    ensures Taken(runs, start, end, keep, lo, hi) && Part(overlaps, runs, Before(runs, start), start, end)
  {
    var i := Before(runs, start);
    keep, lo, hi, overlaps := i, start, end, [];
    PreviousPart(runs, start, end);
    if i > 0 && runs[i - 1].end >= start {
      var prev := runs[i - 1];
      if prev.end > start {
        overlaps := [Run(start, Min(prev.end, end))];
      }
      keep, lo, hi := i - 1, prev.start, Max(hi, prev.end);
    }
  }

  /** The runs that start inside or right after the range. */
  method Swallow(runs: seq<Run>, start: nat, end: nat, hi: nat, overlaps: seq<Run>) returns (hi': nat, overlaps': seq<Run>)
    requires Apart(runs) && start < end && Part(overlaps, runs, Before(runs, start), start, end)
    ensures Before(runs, start) <= Before(runs, end + 1) && Part(overlaps', runs, Before(runs, end + 1), start, end)
    ensures hi' == Furthest(runs, Before(runs, start), Before(runs, end + 1), hi)
  {
    var i, j := Before(runs, start), Before(runs, end + 1);
    BeforeMonotone(runs, start, end + 1);
    hi', overlaps' := hi, overlaps;
    for k := i to j
      invariant Part(overlaps', runs, k, start, end) && hi' == Furthest(runs, i, k, hi)
    {
      PartStep(overlaps', runs, k, start, end);
      ClipInside(runs, k, start, end);
      var run := runs[k];
      if run.start < end {
        overlaps' := overlaps' + [Run(run.start, Min(run.end, end))];
      }
      hi' := Max(hi', run.end);
    }
  }

  lemma ClipInside(runs: seq<Run>, k: nat, start: nat, end: nat)
    requires Apart(runs) && Before(runs, start) <= k < |runs| && start < end
    ensures var c := Clip(runs[k], start, end); c == Run(runs[k].start, Min(runs[k].end, end)) && (c.start < c.end <==> runs[k].start < end)
  {
    BeforeSplits(runs, start, k);
    assert Solid(runs, k);
  }

  method PartsWithin(runs: seq<Run>, start: nat, end: nat) returns (parts: seq<Run>)
    requires Apart(runs)
    ensures Apart(parts) && Held(parts) == Held(runs) * Blocks(start, end)
  {
    var i := Before(runs, start);
    var a := if 0 < i && runs[i - 1].end > start then i - 1 else i;
    var from := if a < i then runs[a].start else start;
    var z := Before(runs, Max(end, from));
    WithinRange(runs, start, end, a, z);
    parts := [];
    for k := a to z
      invariant Part(parts, runs, k, start, end)
    {
      PartStep(parts, runs, k, start, end);
      var piece := Run(Max(runs[k].start, start), Min(runs[k].end, end));
      if piece.start < piece.end {
        parts := parts + [piece];
      }
    }
    PartAll(parts, runs, z, start, end);
  }

  /** The furthest that `hi` and runs `i` to `k` reach. */
  function Furthest(runs: seq<Run>, i: nat, k: nat, hi: nat): nat
    requires i <= k <= |runs|
  {
    if i == k then hi else Max(Furthest(runs, i, k - 1, hi), runs[k - 1].end)
  }

  lemma {:induction false} FurthestIs(runs: seq<Run>, i: nat, k: nat, hi: nat)
    requires Apart(runs) && i <= k <= |runs|
    ensures Furthest(runs, i, k, hi) >= hi
    ensures forall m :: i <= m < k ==> runs[m].end <= Furthest(runs, i, k, hi)
    ensures Furthest(runs, i, k, hi) == hi || (i < k && Furthest(runs, i, k, hi) == runs[k - 1].end)
    decreases k - i
  {
    if i < k {
      assert Solid(runs, k - 1) && (i < k - 1 ==> Gap(runs, k - 2, k - 1));
      FurthestIs(runs, i, k - 1, hi);
    }
  }

  lemma Merging(runs: seq<Run>, start: nat, end: nat, keep: nat, lo: nat, hi: nat)
    requires Apart(runs) && start < end && Taken(runs, start, end, keep, lo, hi) && Before(runs, start) <= Before(runs, end + 1)
    ensures var i, j := Before(runs, start), Before(runs, end + 1);
            Merges(runs, start, end, keep, j, lo, Furthest(runs, i, j, hi))
  {
    var i, j := Before(runs, start), Before(runs, end + 1);
    var hi' := Furthest(runs, i, j, hi);
    FurthestIs(runs, i, j, hi);
    MergingBefore(runs, start, end, keep, lo, hi);
    forall m | keep <= m < j ensures lo <= runs[m].start <= end && start <= runs[m].end <= hi' {
      assert Solid(runs, m);
      BeforeSplits(runs, start, m);
      BeforeSplits(runs, end + 1, m);
    }
    MergingAfter(runs, start, end, keep, lo, hi);
  }

  /** The runs kept before the merged one end before it. */
  lemma MergingBefore(runs: seq<Run>, start: nat, end: nat, keep: nat, lo: nat, hi: nat)
    requires Apart(runs) && start < end && Taken(runs, start, end, keep, lo, hi)
    ensures forall m :: 0 <= m < keep ==> runs[m].end < lo
  {
    var i := Before(runs, start);
    forall m | 0 <= m < keep ensures runs[m].end < lo {
      assert m < i - 1 ==> Gap(runs, m, i - 1) && Solid(runs, i - 1);
    }
  }

  /** Those after it begin after all it reaches. */
  lemma MergingAfter(runs: seq<Run>, start: nat, end: nat, keep: nat, lo: nat, hi: nat)
    requires Apart(runs) && start < end && Taken(runs, start, end, keep, lo, hi) && Before(runs, start) <= Before(runs, end + 1)
    ensures var i, j := Before(runs, start), Before(runs, end + 1);
            forall m :: j <= m < |runs| ==> Furthest(runs, i, j, hi) < runs[m].start
  {
    var i, j := Before(runs, start), Before(runs, end + 1);
    FurthestIs(runs, i, j, hi);
    forall m | j <= m < |runs| ensures Furthest(runs, i, j, hi) < runs[m].start {
      BeforeSplits(runs, end + 1, m);
      assert keep < i ==> Gap(runs, keep, m);
      assert i < j ==> Gap(runs, j - 1, m);
    }
  }

  lemma MergedInLen(runs: seq<Run>, len: nat, start: nat, end: nat, keep: nat, j: nat, lo: nat, hi: nat)
    requires Merges(runs, start, end, keep, j, lo, hi) && end <= len && InLen(runs, len)
    ensures InLen(Merged(runs, keep, j, lo, hi), len)
  {
  }

  lemma OverlapsAll(runs: seq<Run>, start: nat, end: nat, overlaps: seq<Run>)
    requires Apart(runs) && Part(overlaps, runs, Before(runs, end + 1), start, end)
    ensures Held(overlaps) == Held(runs) * Blocks(start, end)
  {
    var j := Before(runs, end + 1);
    forall m | j <= m < |runs| ensures runs[m].start >= end {
      BeforeSplits(runs, end + 1, m);
    }
    PartAll(overlaps, runs, j, start, end);
  }

  /** What an insert adds to the count. */
  lemma InsertCounts(runs: seq<Run>, start: nat, end: nat, overlaps: seq<Run>)
    requires start < end && Apart(overlaps) && Held(overlaps) == Held(runs) * Blocks(start, end)
    ensures Length(overlaps) <= end - start
    ensures |Held(runs) + Blocks(start, end)| == |Held(runs)| + (end - start) - Length(overlaps)
  {
    LengthIsSize(overlaps);
    BlocksSize(start, end);
    SetSizes(Held(runs), Blocks(start, end));
  }

  lemma SetSizes(a: set<nat>, b: set<nat>)
    ensures |a + b| == |a| + |b| - |a * b| && |a * b| <= |b|
  {
    assert a + b == a + (b - a) && a !! b - a;
    assert b == (b - a) + a * b && (b - a) !! a * b;
  }

  /** The runs outside the ones looked through have nothing in the range. */
  lemma WithinRange(runs: seq<Run>, start: nat, end: nat, a: nat, z: nat)
    requires Apart(runs)
    requires var i := Before(runs, start); a == if 0 < i && runs[i - 1].end > start then i - 1 else i
    requires z == Before(runs, Max(end, if a < Before(runs, start) then runs[a].start else start))
    ensures a <= z && Part([], runs, a, start, end) && forall m :: z <= m < |runs| ==> runs[m].start >= end
  {
    var i := Before(runs, start);
    var from := if a < i then runs[a].start else start;
    BeforeMonotone(runs, from, Max(end, from));
    if a < i {
      BeforeSplits(runs, from, a);
      if 0 < a {
        assert Solid(runs, a - 1) && Gap(runs, a - 1, a);
        BeforeSplits(runs, from, a - 1);
      }
    }
    forall m | 0 <= m < a ensures runs[m].end <= start {
      assert m < i - 1 ==> Gap(runs, m, i - 1);
    }
    forall m | z <= m < |runs| ensures runs[m].start >= end {
      BeforeSplits(runs, Max(end, from), m);
    }
    PartNone(runs, a, start, end);
  }

  /** What is taken of the runs that start before the range: at most the last of them. */
  ghost predicate Taken(runs: seq<Run>, start: nat, end: nat, keep: nat, lo: nat, hi: nat)
  {
    var i := Before(runs, start);
    if keep == i then lo == start && hi == end && (0 < i ==> runs[i - 1].end < start)
    else keep == i - 1 && lo == runs[keep].start && start <= runs[keep].end && hi == Max(end, runs[keep].end)
  }

  lemma PreviousPart(runs: seq<Run>, start: nat, end: nat)
    requires Apart(runs) && start < end
    ensures var i := Before(runs, start);
            Part(if 0 < i && runs[i - 1].end > start then [Run(start, Min(runs[i - 1].end, end))] else [], runs, i, start, end)
  {
    var i := Before(runs, start);
    if i > 0 {
      forall m | 0 <= m < i - 1 ensures runs[m].end <= start {
        assert Gap(runs, m, i - 1);
      }
      PartNone(runs, i - 1, start, end);
      PartStep([], runs, i - 1, start, end);
      var c := Clip(runs[i - 1], start, end);
      assert [] + [c] == [c];
    } else {
      PartNone(runs, 0, start, end);
    }
  }

  // ---- Claims ----

  /** How many of the claims cover block `b`. */
  function Times(claims: seq<Run>, b: nat): nat
  {
    if claims == [] then 0
    else Times(claims[..|claims| - 1], b) + if claims[|claims| - 1].start <= b < claims[|claims| - 1].end then 1 else 0
  }

  /** What the claims so far come to: the blocks anyone has, and those more than one has. */
  ghost predicate Tallied(claims: seq<Run>, len: nat, held: set<nat>, duplicates: set<nat>)
  {
    forall b: nat :: (b in held <==> b < len && Times(claims, b) >= 1) && (b in duplicates <==> b < len && Times(claims, b) >= 2)
  }

  lemma TalliedOn(claims: seq<Run>, len: nat, held: set<nat>, duplicates: set<nat>, n: nat)
    requires n < |claims| && Tallied(claims[..n], len, held, duplicates)
    ensures var range := Blocks(claims[n].start, Min(claims[n].end, len));
            Tallied(claims[..n + 1], len, held + range, duplicates + held * range)
  {
    assert claims[..n + 1][..n] == claims[..n];
  }

  method ExtendAll(blocks: set<nat>, runs: seq<Run>) returns (r: set<nat>)
    ensures r == blocks + Held(runs)
  {
    r := blocks;
    for i := 0 to |runs|
      invariant r == blocks + Held(runs[..i])
    {
      assert runs[..i + 1][..i] == runs[..i];
      r := r + Blocks(runs[i].start, runs[i].end);
    }
    assert runs[..|runs|] == runs;
  }

  /** The blocks the checker has seen owners for, and the ones with more than one. */
  class ScanState {
    const blocks: RunSet
    var duplicates: set<nat>

    constructor (len: nat)
      ensures fresh(blocks) && blocks.Valid() && blocks.len == len && Held(blocks.runs) == {} && duplicates == {}
    {
      blocks := new RunSet(len);
      duplicates := {};
    }

    /** Claims a range, noting every block someone already had. */
    method ClaimRange(start: nat, end: nat)
      requires blocks.Valid()
      modifies this, blocks
      ensures blocks.Valid()
      ensures Held(blocks.runs) == old(Held(blocks.runs)) + Blocks(start, Min(end, blocks.len))
      ensures duplicates == old(duplicates) + old(Held(blocks.runs)) * Blocks(start, Min(end, blocks.len))
    {
      var overlaps := blocks.Insert(start, end);
      duplicates := ExtendAll(duplicates, overlaps);
    }

    /** After any claims, the duplicates are exactly the blocks claimed more than once. */
    method ClaimAll(claims: seq<Run>)
      requires blocks.Valid() && Held(blocks.runs) == {} && duplicates == {}
      modifies this, blocks
      ensures blocks.Valid() && Tallied(claims, blocks.len, Held(blocks.runs), duplicates)
    {
      for n := 0 to |claims|
        invariant blocks.Valid() && Tallied(claims[..n], blocks.len, Held(blocks.runs), duplicates)
      {
        TalliedOn(claims, blocks.len, Held(blocks.runs), duplicates, n);
        ClaimRange(claims[n].start, claims[n].end);
      }
      assert claims[..|claims|] == claims;
    }
  }
}
