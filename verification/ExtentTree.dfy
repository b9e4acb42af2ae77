// Extent trees as values: what they map, what they own, and how they are cut.
module ExtentTree {
  import opened Options

  /** The longest initialised extent; a longer stored length marks an extent uninitialised. */
  const INIT_MAX_LEN: nat := 32768

  /** A run of blocks: logical blocks from `block`, physical blocks from `start`. */
  datatype Extent = Extent(block: nat, len: nat, start: nat) {
    function EffectiveLen(): nat
    {
      if len > INIT_MAX_LEN then len - INIT_MAX_LEN else len
    }

    predicate IsUninit()
    {
      len > INIT_MAX_LEN
    }

    function End(): nat
    {
      block + EffectiveLen()
    }
  }

  /** A node: extents, or entries that each lead to a node in block `block` for logical blocks from `first`. */
  datatype Tree = Leaf(exts: seq<Extent>) | Index(entries: seq<Entry>)
  datatype Entry = Entry(first: nat, block: nat, sub: Tree)

  // ---- What a tree maps ----

  /** What a logical block is mapped to, and whether that was ever written. */
  datatype Hit = Hit(physical: nat, uninit: bool)

  predicate Covers(e: Extent, l: nat)
  {
    e.block <= l < e.End()
  }

  function HitIn(e: Extent, l: nat): Hit
    requires Covers(e, l)
  {
    Hit(e.start + (l - e.block), e.IsUninit())
  }

  /** The first extent that covers `l`. */
  function FindIn(exts: seq<Extent>, l: nat): Option<Hit>
  {
    if exts == [] then None
    else if Covers(exts[0], l) then Some(HitIn(exts[0], l))
    else FindIn(exts[1..], l)
  }

  /** Of the entries before the first that starts past `l`, how many there are. */
  function UpTo(entries: seq<Entry>, l: nat): (n: nat)
    ensures n <= |entries| && (forall i :: 0 <= i < n ==> entries[i].first <= l) && (n < |entries| ==> entries[n].first > l)
  {
    if entries == [] || entries[0].first > l then 0
    else
      var n := UpTo(entries[1..], l);
      assert forall i :: 1 <= i < n + 1 ==> entries[i] == entries[1..][i - 1];
      n + 1
  }

  /** Looking a logical block up, down the last entry that starts at or before it. */
  function Lookup(t: Tree, l: nat): Option<Hit>
  {
    match t
    case Leaf(exts) => FindIn(exts, l)
    case Index(entries) =>
      var n := UpTo(entries, l);
      if n == 0 then None else Lookup(entries[n - 1].sub, l)
  }

  /** The extents of a tree of depth `d`, in order. */
  function Flat(t: Tree, d: nat): seq<Extent>
    decreases d, 1
  {
    match t
    case Leaf(exts) => exts
    case Index(entries) => if d == 0 then [] else FlatEntries(entries, d)
  }

  function FlatEntries(entries: seq<Entry>, d: nat): seq<Extent>
    requires 0 < d
    decreases d, 0, |entries|
  {
    if entries == [] then [] else FlatEntries(entries[..|entries| - 1], d) + Flat(entries[|entries| - 1].sub, d - 1)
  }

  // ---- Well-formed trees ----

  /** Extents in order, one after another, within logical blocks `lo` to `hi`. */
  ghost predicate Ordered(exts: seq<Extent>, lo: nat, hi: nat)
  {
    && lo <= hi
    && (forall i :: 0 <= i < |exts| ==> lo <= exts[i].block < exts[i].End() <= hi)
    && (forall i, j :: 0 <= i < j < |exts| ==> exts[i].End() <= exts[j].block)
  }

  /** Where the logical blocks of entry `i` end: where the next one's start. */
  function Next(entries: seq<Entry>, i: nat, hi: nat): nat
    requires i < |entries|
  {
    if i + 1 < |entries| then entries[i + 1].first else hi
  }

  /** A tree of depth `d` for logical blocks `lo` to `hi`: entries in order, everything under one within its blocks. */
  ghost predicate WellFormed(t: Tree, d: nat, lo: nat, hi: nat)
    decreases d, 1
  {
    && lo <= hi
    && match t
       case Leaf(exts) => d == 0 && Ordered(exts, lo, hi)
       case Index(entries) =>
         && d > 0
         && (forall i :: 0 <= i < |entries| ==> EntryFits(entries, i, d, lo, hi))
  }

  ghost predicate EntryFits(entries: seq<Entry>, i: nat, d: nat, lo: nat, hi: nat)
    requires i < |entries| && 0 < d
    decreases d, 0
  {
    lo <= entries[i].first < Next(entries, i, hi) && WellFormed(entries[i].sub, d - 1, entries[i].first, Next(entries, i, hi))
  }

  // ---- Looking up is searching all the extents ----

  lemma {:induction false} FindNone(exts: seq<Extent>, l: nat)
    requires forall i :: 0 <= i < |exts| ==> !Covers(exts[i], l)
    ensures FindIn(exts, l) == None
  {
    if exts != [] {
      FindNone(exts[1..], l);
    }
  }

  lemma {:induction false} FindJoin(a: seq<Extent>, b: seq<Extent>, l: nat)
    ensures FindIn(a + b, l) == if FindIn(a, l) == None then FindIn(b, l) else FindIn(a, l)
  {
    if a == [] {
      assert a + b == b;
    } else {
      assert (a + b)[1..] == a[1..] + b;
      FindJoin(a[1..], b, l);
    }
  }

  /** Outside its range a well-formed tree maps nothing. */
  lemma {:induction false} FindOutside(t: Tree, d: nat, lo: nat, hi: nat, l: nat)
    requires WellFormed(t, d, lo, hi) && !(lo <= l < hi)
    ensures FindIn(Flat(t, d), l) == None
    decreases d, 1, 0
  {
    if t.Leaf? {
      FindNone(t.exts, l);
    } else {
      assert t.entries[..|t.entries|] == t.entries;
      FindBefore(t, d, lo, hi, |t.entries|, l);
    }
  }

  lemma {:induction false} FindBefore(t: Tree, d: nat, lo: nat, hi: nat, n: nat, l: nat)
    requires WellFormed(t, d, lo, hi) && t.Index? && n <= |t.entries|
    requires l < lo || (0 < n && Next(t.entries, n - 1, hi) <= l) || n == 0
    ensures FindIn(FlatEntries(t.entries[..n], d), l) == None
    decreases d, 0, n
  {
    if n > 0 {
      assert EntryFits(t.entries, n - 1, d, lo, hi);
      FindBefore(t, d, lo, hi, n - 1, l);
      FindOutside(t.entries[n - 1].sub, d - 1, t.entries[n - 1].first, Next(t.entries, n - 1, hi), l);
      FlatLast(t.entries, d, n);
      FindJoin(FlatEntries(t.entries[..n - 1], d), Flat(t.entries[n - 1].sub, d - 1), l);
    }
  }

  lemma FlatLast(entries: seq<Entry>, d: nat, n: nat)
    requires 0 < d && 0 < n <= |entries|
    ensures FlatEntries(entries[..n], d) == FlatEntries(entries[..n - 1], d) + Flat(entries[n - 1].sub, d - 1)
  {
    assert entries[..n][..n - 1] == entries[..n - 1];
  }

  /** Looking a block up, one entry a level, finds what searching every extent would. */
  lemma {:induction false} LookupIsFind(t: Tree, d: nat, lo: nat, hi: nat, l: nat)
    requires WellFormed(t, d, lo, hi)
    ensures Lookup(t, l) == FindIn(Flat(t, d), l)
    decreases d
  {
    if t.Index? {
      var n := UpTo(t.entries, l);
      assert t.entries[..|t.entries|] == t.entries;
      OneEntryHolds(t, d, lo, hi, |t.entries|, l);
      if n > 0 {
        assert EntryFits(t.entries, n - 1, d, lo, hi);
        LookupIsFind(t.entries[n - 1].sub, d - 1, t.entries[n - 1].first, Next(t.entries, n - 1, hi), l);
      }
    }
  }

  /** Only the entry looked down can hold the logical block. */
  lemma {:induction false} OneEntryHolds(t: Tree, d: nat, lo: nat, hi: nat, n: nat, l: nat)
    requires WellFormed(t, d, lo, hi) && t.Index? && UpTo(t.entries, l) <= n <= |t.entries|
    ensures FindIn(FlatEntries(t.entries[..n], d), l) ==
            if UpTo(t.entries, l) == 0 then None else FindIn(Flat(t.entries[UpTo(t.entries, l) - 1].sub, d - 1), l)
    decreases n
  {
    var k := UpTo(t.entries, l);
    if n > 0 {
      assert EntryFits(t.entries, n - 1, d, lo, hi);
      var sub, next := t.entries[n - 1].sub, Next(t.entries, n - 1, hi);
      FlatLast(t.entries, d, n);
      FindJoin(FlatEntries(t.entries[..n - 1], d), Flat(sub, d - 1), l);
      if n == k {
        if 1 < n {
          assert EntryFits(t.entries, n - 2, d, lo, hi);
        }
        FindBefore(t, d, lo, hi, n - 1, l);
      } else {
        FirstsIncrease(t, d, lo, hi, k, n - 1);
        FindOutside(sub, d - 1, t.entries[n - 1].first, next, l);
        OneEntryHolds(t, d, lo, hi, n - 1, l);
      }
    }
  }

  lemma {:induction false} FirstsIncrease(t: Tree, d: nat, lo: nat, hi: nat, i: nat, j: nat)
    requires WellFormed(t, d, lo, hi) && t.Index? && i <= j < |t.entries|
    ensures t.entries[i].first <= t.entries[j].first && (i < j ==> Next(t.entries, i, hi) <= t.entries[j].first)
    decreases j - i
  {
    if i < j {
      assert EntryFits(t.entries, i, d, lo, hi);
      FirstsIncrease(t, d, lo, hi, i + 1, j);
    }
  }

  // ---- Truncation ----

  /** What is kept of one extent. */
  function CutExtent(e: Extent, cut: nat): seq<Extent>
  {
    if e.block >= cut then []
    else if e.End() > cut then [e.(len := cut - e.block + (if e.IsUninit() then INIT_MAX_LEN else 0))]
    else [e]
  }

  function CutExtents(exts: seq<Extent>, cut: nat): seq<Extent>
  {
    if exts == [] then [] else CutExtents(exts[..|exts| - 1], cut) + CutExtent(exts[|exts| - 1], cut)
  }

  predicate Empty(t: Tree)
  {
    if t.Leaf? then t.exts == [] else t.entries == []
  }

  function Cut(t: Tree, cut: nat): Tree
    decreases t, 1
  {
    match t
    case Leaf(exts) => Leaf(CutExtents(exts, cut))
    case Index(entries) => Index(CutEntries(t, cut, |entries|))
  }

  /** What is kept of the first `n` entries. */
  function CutEntries(t: Tree, cut: nat, n: nat): seq<Entry>
    requires t.Index? && n <= |t.entries|
    decreases t, 0, n
  {
    if n == 0 then [] else CutEntries(t, cut, n - 1) + CutEntry(t, cut, n - 1)
  }

  /** What is kept of entry `i`: nothing if it starts past the cut, all of it if the next one starts before. */
  function CutEntry(t: Tree, cut: nat, i: nat): seq<Entry>
    requires t.Index? && i < |t.entries|
    decreases t, 0, i
  {
    var e := t.entries[i];
    if e.first >= cut then []
    else if i + 1 < |t.entries| && t.entries[i + 1].first <= cut then [e]
    else
      var sub := Cut(e.sub, cut);
      if Empty(sub) then [] else [e.(sub := sub)]
  }

  // ---- A cut keeps the mapping below the cut ----

  /** The part of an extent that is kept maps what it did, written or not. */
  lemma CutExtentFinds(e: Extent, cut: nat, l: nat)
    ensures FindIn(CutExtent(e, cut), l) == if l < cut then FindIn([e], l) else None
  {
  }

  lemma {:induction false} CutFinds(exts: seq<Extent>, cut: nat, l: nat)
    ensures FindIn(CutExtents(exts, cut), l) == if l < cut then FindIn(exts, l) else None
  {
    if exts != [] {
      var front, last := exts[..|exts| - 1], exts[|exts| - 1];
      assert exts == front + [last];
      CutFinds(front, cut, l);
      CutExtentFinds(last, cut, l);
      FindJoin(front, [last], l);
      FindJoin(CutExtents(front, cut), CutExtent(last, cut), l);
    }
  }

  lemma {:induction false} CutExtentsJoin(a: seq<Extent>, b: seq<Extent>, cut: nat)
    ensures CutExtents(a + b, cut) == CutExtents(a, cut) + CutExtents(b, cut)
    decreases |b|
  {
    if b == [] {
      assert a + b == a;
    } else {
      assert (a + b)[..|a + b| - 1] == a + b[..|b| - 1];
      CutExtentsJoin(a, b[..|b| - 1], cut);
    }
  }

  lemma {:induction false} CutExtentsAll(exts: seq<Extent>, cut: nat, keep: bool)
    requires forall i :: 0 <= i < |exts| ==> CutExtent(exts[i], cut) == if keep then [exts[i]] else []
    ensures CutExtents(exts, cut) == if keep then exts else []
  {
    if exts != [] {
      CutExtentsAll(exts[..|exts| - 1], cut, keep);
    }
  }

  /** A tree that ends before the cut is kept whole, one that starts past it goes. */
  lemma {:induction false} CutAll(t: Tree, d: nat, lo: nat, hi: nat, cut: nat)
    requires WellFormed(t, d, lo, hi) && (hi <= cut || cut <= lo) && lo < hi
    ensures CutExtents(Flat(t, d), cut) == if hi <= cut then Flat(t, d) else []
    decreases d, 1, 0
  {
    if t.Leaf? {
      CutExtentsAll(t.exts, cut, hi <= cut);
    } else {
      assert t.entries[..|t.entries|] == t.entries;
      CutAllBefore(t, d, lo, hi, cut, |t.entries|);
    }
  }

  lemma {:induction false} CutAllBefore(t: Tree, d: nat, lo: nat, hi: nat, cut: nat, n: nat)
    requires WellFormed(t, d, lo, hi) && (hi <= cut || cut <= lo) && lo < hi && t.Index? && n <= |t.entries|
    ensures CutExtents(FlatEntries(t.entries[..n], d), cut) == if hi <= cut then FlatEntries(t.entries[..n], d) else []
    decreases d, 0, n
  {
    if n > 0 {
      assert EntryFits(t.entries, n - 1, d, lo, hi);
      NextWithin(t, d, lo, hi, n - 1);
      CutAllBefore(t, d, lo, hi, cut, n - 1);
      CutAll(t.entries[n - 1].sub, d - 1, t.entries[n - 1].first, Next(t.entries, n - 1, hi), cut);
      FlatLast(t.entries, d, n);
      CutExtentsJoin(FlatEntries(t.entries[..n - 1], d), Flat(t.entries[n - 1].sub, d - 1), cut);
    }
  }

  lemma NextWithin(t: Tree, d: nat, lo: nat, hi: nat, i: nat)
    requires WellFormed(t, d, lo, hi) && t.Index? && i < |t.entries|
    ensures Next(t.entries, i, hi) <= hi
  {
    if i + 1 < |t.entries| {
      FirstsIncrease(t, d, lo, hi, i + 1, |t.entries| - 1);
      assert EntryFits(t.entries, |t.entries| - 1, d, lo, hi);
    }
  }

  /** The extents of a cut tree are its extents cut. */
  lemma {:induction false} CutFlat(t: Tree, d: nat, lo: nat, hi: nat, cut: nat)
    requires WellFormed(t, d, lo, hi)
    ensures Flat(Cut(t, cut), d) == CutExtents(Flat(t, d), cut)
    decreases d, 1, 0
  {
    if t.Index? {
      assert t.entries[..|t.entries|] == t.entries;
      CutFlatBefore(t, d, lo, hi, cut, |t.entries|);
    }
  }

  lemma {:induction false} CutFlatBefore(t: Tree, d: nat, lo: nat, hi: nat, cut: nat, n: nat)
    requires WellFormed(t, d, lo, hi) && t.Index? && n <= |t.entries|
    ensures FlatEntries(CutEntries(t, cut, n), d) == CutExtents(FlatEntries(t.entries[..n], d), cut)
    decreases d, 0, n
  {
    if n > 0 {
      var e := t.entries[n - 1];
      assert EntryFits(t.entries, n - 1, d, lo, hi);
      CutFlatBefore(t, d, lo, hi, cut, n - 1);
      CutFlat(e.sub, d - 1, e.first, Next(t.entries, n - 1, hi), cut);
      CutEntryFlat(t, d, lo, hi, cut, n - 1);
      FlatLast(t.entries, d, n);
      CutExtentsJoin(FlatEntries(t.entries[..n - 1], d), Flat(e.sub, d - 1), cut);
      FlatJoin(CutEntries(t, cut, n - 1), CutEntry(t, cut, n - 1), d);
    }
  }

  lemma CutEntryFlat(t: Tree, d: nat, lo: nat, hi: nat, cut: nat, i: nat)
    requires WellFormed(t, d, lo, hi) && t.Index? && i < |t.entries|
    requires Flat(Cut(t.entries[i].sub, cut), d - 1) == CutExtents(Flat(t.entries[i].sub, d - 1), cut)
    ensures FlatEntries(CutEntry(t, cut, i), d) == CutExtents(Flat(t.entries[i].sub, d - 1), cut)
  {
    var e, next := t.entries[i], Next(t.entries, i, hi);
    assert EntryFits(t.entries, i, d, lo, hi);
    if e.first >= cut || next <= cut {
      CutAll(e.sub, d - 1, e.first, next, cut);
    }
    FlatOne(e, d);
    FlatOne(e.(sub := Cut(e.sub, cut)), d);
    EmptyIsFlat(Cut(e.sub, cut), d - 1);
  }

  lemma FlatOne(e: Entry, d: nat)
    requires 0 < d
    ensures FlatEntries([e], d) == Flat(e.sub, d - 1)
  {
    assert [e][..0] == [];
  }

  lemma EmptyIsFlat(t: Tree, d: nat)
    ensures Empty(t) ==> Flat(t, d) == []
  {
  }

  lemma FlatJoin(a: seq<Entry>, b: seq<Entry>, d: nat)
    requires 0 < d && |b| <= 1
    ensures FlatEntries(a + b, d) == FlatEntries(a, d) + FlatEntries(b, d)
  {
    if b == [] {
      assert a + b == a;
    } else {
      assert (a + b)[..|a|] == a;
      FlatOne(b[0], d);
    }
  }

  // ---- A cut tree is well formed ----

  lemma {:induction false} CutOrdered(exts: seq<Extent>, lo: nat, hi: nat, cut: nat)
    requires Ordered(exts, lo, hi)
    ensures Ordered(CutExtents(exts, cut), lo, hi)
  {
    if exts != [] {
      var front, last := exts[..|exts| - 1], exts[|exts| - 1];
      CutOrdered(front, lo, last.block, cut);
      assert CutExtents(exts, cut) == CutExtents(front, cut) + CutExtent(last, cut);
    }
  }

  /** A tree for a range of logical blocks is one for a longer range. */
  lemma {:induction false} Widen(t: Tree, d: nat, lo: nat, hi: nat, hi': nat)
    requires WellFormed(t, d, lo, hi) && hi <= hi'
    ensures WellFormed(t, d, lo, hi')
    decreases d
  {
    if t.Index? {
      forall i | 0 <= i < |t.entries| ensures EntryFits(t.entries, i, d, lo, hi') {
        assert EntryFits(t.entries, i, d, lo, hi);
        Widen(t.entries[i].sub, d - 1, t.entries[i].first, Next(t.entries, i, hi), Next(t.entries, i, hi'));
      }
    }
  }

  /** One more entry, where the tree so far ends. */
  lemma AppendFits(entries: seq<Entry>, e: Entry, d: nat, lo: nat, hi: nat)
    requires 0 < d && WellFormed(Index(entries), d, lo, e.first) && e.first < hi && WellFormed(e.sub, d - 1, e.first, hi)
    ensures WellFormed(Index(entries + [e]), d, lo, hi)
  {
    var all := entries + [e];
    forall i | 0 <= i < |all| ensures EntryFits(all, i, d, lo, hi) {
      if i < |entries| {
        assert EntryFits(entries, i, d, lo, e.first);
        assert Next(all, i, hi) == Next(entries, i, e.first);
      }
    }
  }

  /** Where the first `n` entries end. */
  function EndOf(entries: seq<Entry>, n: nat, lo: nat, hi: nat): nat
    requires n <= |entries|
  {
    if n < |entries| then entries[n].first else if n == 0 then lo else hi
  }

  lemma {:induction false} CutWellFormed(t: Tree, d: nat, lo: nat, hi: nat, cut: nat)
    requires WellFormed(t, d, lo, hi)
    ensures WellFormed(Cut(t, cut), d, lo, hi)
    decreases d, 1, 0
  {
    if t.Leaf? {
      CutOrdered(t.exts, lo, hi, cut);
    } else {
      CutWellFormedBefore(t, d, lo, hi, cut, |t.entries|);
      Widen(Cut(t, cut), d, lo, EndOf(t.entries, |t.entries|, lo, hi), hi);
    }
  }

  lemma {:induction false} CutWellFormedBefore(t: Tree, d: nat, lo: nat, hi: nat, cut: nat, n: nat)
    requires WellFormed(t, d, lo, hi) && t.Index? && n <= |t.entries|
    ensures WellFormed(Index(CutEntries(t, cut, n)), d, lo, EndOf(t.entries, n, lo, hi))
    decreases d, 0, n
  {
    if n == 0 {
      if 0 < |t.entries| {
        assert EntryFits(t.entries, 0, d, lo, hi);
      }
    } else {
      var e, end := t.entries[n - 1], EndOf(t.entries, n, lo, hi);
      assert EntryFits(t.entries, n - 1, d, lo, hi);
      CutWellFormedBefore(t, d, lo, hi, cut, n - 1);
      CutWellFormed(e.sub, d - 1, e.first, end, cut);
      if CutEntry(t, cut, n - 1) == [] {
        assert CutEntries(t, cut, n) == CutEntries(t, cut, n - 1);
        Widen(Index(CutEntries(t, cut, n - 1)), d, lo, e.first, end);
      } else {
        AppendFits(CutEntries(t, cut, n - 1), CutEntry(t, cut, n - 1)[0], d, lo, end);
      }
    }
  }

  /** Cutting a well-formed tree keeps its mapping below the cut, and nothing from it on. */
  lemma CutLookup(t: Tree, d: nat, lo: nat, hi: nat, cut: nat, l: nat)
    requires WellFormed(t, d, lo, hi)
    ensures WellFormed(Cut(t, cut), d, lo, hi)
    ensures Lookup(Cut(t, cut), l) == if l < cut then Lookup(t, l) else None
  {
    CutWellFormed(t, d, lo, hi, cut);
    LookupIsFind(t, d, lo, hi, l);
    LookupIsFind(Cut(t, cut), d, lo, hi, l);
    CutFlat(t, d, lo, hi, cut);
    CutFinds(Flat(t, d), cut, l);
  }

  // ---- Lengths as they are stored ----

  /** The extent is stored for `n` blocks, written or not: up to 32768 written ones, one fewer of the others. */
  predicate StoredFor(e: Extent, n: nat, written: bool)
  {
    if written then 1 <= n <= 32768 && e.len == n else 1 <= n < 32768 && e.len == 32768 + n
  }

  /** It covers exactly that many, one after another, and marks them right. */
  lemma StoredFinds(e: Extent, n: nat, written: bool, l: nat)
    requires StoredFor(e, n, written)
    ensures FindIn([e], l) == if e.block <= l < e.block + n then Some(Hit(e.start + (l - e.block), !written)) else None
    ensures Covers(e, l) <==> e.block <= l < e.block + n
  {
  }

  /** Every length of a sixteen-bit field but zero and 65536 is stored for some number of blocks. */
  lemma LengthIsStored(e: Extent)
    requires 0 < e.len < 65536
    ensures StoredFor(e, if e.len <= 32768 then e.len else e.len - 32768, e.len <= 32768)
  {
  }

  lemma OrderedJoin(a: seq<Extent>, b: seq<Extent>, lo: nat, mid: nat, from: nat, hi: nat)
    requires Ordered(a, lo, mid) && mid <= from && Ordered(b, from, hi)
    ensures Ordered(a + b, lo, hi)
  {
    var all := a + b;
    forall i, j | 0 <= i < j < |all| ensures all[i].End() <= all[j].block {
      if i < |a| <= j {
        assert all[i] == a[i] && all[j] == b[j - |a|];
      }
    }
  }

  /** All the extents of a well-formed tree are in order. */
  lemma {:induction false} FlatOrdered(t: Tree, d: nat, lo: nat, hi: nat)
    requires WellFormed(t, d, lo, hi)
    ensures Ordered(Flat(t, d), lo, hi)
    decreases d, 1, 0
  {
    if t.Index? {
      assert t.entries[..|t.entries|] == t.entries;
      FlatEntriesOrdered(t, d, lo, hi, |t.entries|);
    }
  }

  lemma {:induction false} FlatEntriesOrdered(t: Tree, d: nat, lo: nat, hi: nat, n: nat)
    requires WellFormed(t, d, lo, hi) && t.Index? && n <= |t.entries|
    ensures Ordered(FlatEntries(t.entries[..n], d), lo, if n == 0 then lo else Next(t.entries, n - 1, hi))
    ensures n == |t.entries| ==> Ordered(FlatEntries(t.entries[..n], d), lo, hi)
    decreases d, 0, n
  {
    if n > 0 {
      var e, next := t.entries[n - 1], Next(t.entries, n - 1, hi);
      assert EntryFits(t.entries, n - 1, d, lo, hi);
      FlatEntriesOrdered(t, d, lo, hi, n - 1);
      FlatOrdered(e.sub, d - 1, e.first, next);
      FlatLast(t.entries, d, n);
      OrderedJoin(FlatEntries(t.entries[..n - 1], d), Flat(e.sub, d - 1), lo, if n == 1 then lo else e.first, e.first, next);
    }
  }

  lemma {:induction false} FindAt(exts: seq<Extent>, lo: nat, hi: nat, k: nat, l: nat)
    requires Ordered(exts, lo, hi) && k < |exts| && Covers(exts[k], l)
    ensures FindIn(exts, l) == Some(HitIn(exts[k], l))
    decreases k
  {
    if k > 0 {
      FindAt(exts[1..], lo, hi, k - 1, l);
    }
  }

  lemma {:induction false} FoundIn(exts: seq<Extent>, l: nat) returns (k: nat)
    requires FindIn(exts, l).Some?
    ensures k < |exts| && Covers(exts[k], l)
    decreases |exts|
  {
    k := 0;
    if !Covers(exts[0], l) {
      k := FoundIn(exts[1..], l);
      k := k + 1;
    }
  }

  /** Looking up: each of the `n` blocks of every extent of a well-formed tree goes to its own, marked as it is stored, and
    * a block no extent is stored for goes nowhere. */
  lemma LookupStored(t: Tree, d: nat, lo: nat, hi: nat, k: nat, n: nat, written: bool, i: nat)
    requires WellFormed(t, d, lo, hi) && k < |Flat(t, d)| && StoredFor(Flat(t, d)[k], n, written) && i < n
    ensures var e := Flat(t, d)[k]; Lookup(t, e.block + i) == Some(Hit(e.start + i, !written))
  {
    var e := Flat(t, d)[k];
    LookupIsFind(t, d, lo, hi, e.block + i);
    FlatOrdered(t, d, lo, hi);
    StoredFinds(e, n, written, e.block + i);
    FindAt(Flat(t, d), lo, hi, k, e.block + i);
  }

  lemma LookupOnlyStored(t: Tree, d: nat, lo: nat, hi: nat, l: nat) returns (k: nat)
    requires WellFormed(t, d, lo, hi) && Lookup(t, l).Some?
    requires forall j :: 0 <= j < |Flat(t, d)| ==> Flat(t, d)[j].len < 65536
    ensures k < |Flat(t, d)| && var e := Flat(t, d)[k]; e.block <= l < e.block + if e.len <= 32768 then e.len else e.len - 32768
  {
    LookupIsFind(t, d, lo, hi, l);
    k := FoundIn(Flat(t, d), l);
  }
}
