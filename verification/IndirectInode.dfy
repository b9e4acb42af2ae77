// The fifteen block pointers of an inode: twelve data blocks and the roots of
// a single, a double and a triple indirect tree, one after another in logical
// order.
module IndirectInode {
  import opened BlockSets
  import opened Options
  import opened Arith
  import opened IndirectTree

  const NDIR_BLOCKS: nat := 12
  const N_BLOCKS: nat := 15

  /** Levels of indirect blocks under pointer `k`. */
  function DepthOf(k: nat): nat
  {
    if k < NDIR_BLOCKS then 0 else k - NDIR_BLOCKS + 1
  }

  /** The first logical block under pointer `k`. */
  function SlotBase(per: nat, k: nat): (r: nat)
    ensures k <= NDIR_BLOCKS ==> r == k
  {
    if k == 0 then 0 else SlotBase(per, k - 1) + Span(per, DepthOf(k - 1))
  }

  lemma {:induction false} SlotBaseMonotone(per: nat, a: nat, b: nat)
    requires a <= b
    ensures SlotBase(per, a) <= SlotBase(per, b)
    decreases b
  {
    if a < b {
      SlotBaseMonotone(per, a, b - 1);
    }
  }

  ghost predicate MapReadable(store: Store, per: nat, ptrs: seq<nat>)
  {
    |ptrs| == N_BLOCKS && forall k :: 0 <= k < N_BLOCKS ==> Readable(store, per, ptrs[k], DepthOf(k))
  }

  /** The trees under an inode's pointers, gathered as if by a node of their own. */
  ghost function Roots(store: Store, per: nat, ptrs: seq<nat>): (r: Tree)
    requires MapReadable(store, per, ptrs)
    ensures r.Node? && |r.kids| == N_BLOCKS
    ensures forall k :: 0 <= k < N_BLOCKS ==> r.kids[k] == Load(store, per, ptrs[k], DepthOf(k))
  {
    Node(0, seq(N_BLOCKS, k requires 0 <= k < N_BLOCKS => Load(store, per, ptrs[k], DepthOf(k))))
  }

  ghost predicate RootsShape(t: Tree, per: nat)
  {
    t.Node? && |t.kids| == N_BLOCKS && forall k :: 0 <= k < N_BLOCKS ==> Shape(t.kids[k], per, DepthOf(k))
  }

  lemma RootsHaveShape(store: Store, per: nat, ptrs: seq<nat>)
    requires MapReadable(store, per, ptrs)
    ensures RootsShape(Roots(store, per, ptrs), per)
  {
    forall k | 0 <= k < N_BLOCKS ensures Shape(Roots(store, per, ptrs).kids[k], per, DepthOf(k)) {
      LoadShape(store, per, ptrs[k], DepthOf(k));
    }
  }

  /** Every block an inode's map owns. */
  ghost function Owned(t: Tree): multiset<nat>
    requires t.Node?
  {
    KidsBlocks(t, |t.kids|)
  }

  /** A map is read from its own blocks alone. */
  lemma RootsFrame(store: Store, store': Store, per: nat, ptrs: seq<nat>, changed: multiset<nat>)
    requires MapReadable(store, per, ptrs) && OnlyIn(store, store', changed) && Owned(Roots(store, per, ptrs)) !! changed
    ensures MapReadable(store', per, ptrs) && Roots(store', per, ptrs) == Roots(store, per, ptrs)
  {
    var t := Roots(store, per, ptrs);
    forall k | 0 <= k < N_BLOCKS ensures Reads(store', per, ptrs[k], DepthOf(k), t.kids[k]) {
      KidIsOwned(t, N_BLOCKS, k);
      ReadsElsewhere(store, store', per, ptrs[k], DepthOf(k), t.kids[k], changed);
    }
    assert Roots(store', per, ptrs).kids == t.kids;
  }

  /** What logical block `logical`, at or past pointer `k`'s first, is mapped to. */
  function Mapped(t: Tree, per: nat, k: nat, logical: nat): Option<nat>
    requires t.Node? && 0 < per && k <= |t.kids| && SlotBase(per, k) <= logical
    decreases |t.kids| - k
  {
    if k == |t.kids| then None
    else if logical < SlotBase(per, k + 1) then Get(t.kids[k], per, DepthOf(k), logical - SlotBase(per, k))
    else Mapped(t, per, k + 1, logical)
  }

  /** Among the direct pointers the logical block number is the index. */
  lemma MappedDirect(t: Tree, per: nat, k: nat, logical: nat)
    requires t.Node? && 0 < per && |t.kids| == N_BLOCKS && k <= logical
    ensures logical < NDIR_BLOCKS ==> Mapped(t, per, k, logical) == Get(t.kids[logical], per, 0, 0)
    ensures k <= NDIR_BLOCKS <= logical ==> Mapped(t, per, k, logical) == Mapped(t, per, NDIR_BLOCKS, logical)
    decreases NDIR_BLOCKS - k
  {
    if k < NDIR_BLOCKS && k < logical {
      MappedDirect(t, per, k + 1, logical);
    }
  }

  lemma Spans(per: nat)
    ensures Span(per, 1) == per && Span(per, 2) == per * per && Span(per, 3) == per * per * per
  {
    StartIsProduct(1, per);
    StartIsProduct(per, per);
    StartIsProduct(per * per, per);
    assert Span(per, 0) == 1;
    assert Span(per, 1) == Start(1, per);
    assert Span(per, 2) == Start(per, per);
    assert per * (per * per) == per * per * per;
  }

  /** Where the three roots begin and the map ends. */
  lemma Bases(per: nat)
    ensures SlotBase(per, 12) == 12 && SlotBase(per, 13) == 12 + per && SlotBase(per, 14) == 12 + per + per * per
    ensures SlotBase(per, 15) == 12 + per + per * per + per * per * per
  {
    Spans(per);
    assert SlotBase(per, 13) == SlotBase(per, 12) + Span(per, 1);
    assert SlotBase(per, 14) == SlotBase(per, 13) + Span(per, 2);
    assert SlotBase(per, 15) == SlotBase(per, 14) + Span(per, 3);
  }

  /** Under pointer `k`, or past it. */
  lemma MappedIndirect(t: Tree, per: nat, k: nat, logical: nat)
    requires t.Node? && 0 < per && |t.kids| == 15 && k < 15 && SlotBase(per, k) <= logical
    ensures Mapped(t, per, k, logical) ==
            if logical < SlotBase(per, k + 1) then Get(t.kids[k], per, DepthOf(k), logical - SlotBase(per, k))
            else if k == 14 then None
            else Mapped(t, per, k + 1, logical)
  {
  }

  /** Twelve direct blocks, then what one, two and three levels of indirect blocks map. */
  lemma DirectThenIndirect(t: Tree, per: nat, logical: nat)
    requires t.Node? && |t.kids| == N_BLOCKS && 0 < per
    ensures |t.kids| == 15
    ensures Mapped(t, per, 0, logical) ==
            if logical < 12 then Get(t.kids[logical], per, 0, 0)
            else if logical < SlotBase(per, 13) then Get(t.kids[12], per, 1, logical - 12)
            else if logical < SlotBase(per, 14) then Get(t.kids[13], per, 2, logical - SlotBase(per, 13))
            else if logical < SlotBase(per, 15) then Get(t.kids[14], per, 3, logical - SlotBase(per, 14))
            else None
  {
    MappedDirect(t, per, 0, logical);
    SlotBaseMonotone(per, 12, 13);
    SlotBaseMonotone(per, 13, 14);
    SlotBaseMonotone(per, 14, 15);
    if 12 <= logical {
      MappedIndirect(t, per, 12, logical);
    }
    if SlotBase(per, 13) <= logical {
      MappedIndirect(t, per, 13, logical);
    }
    if SlotBase(per, 14) <= logical {
      MappedIndirect(t, per, 14, logical);
    }
  }

  // ---- Truncation ----

  /** Each tree cut at logical block `cut`. */
  ghost predicate IsCut(t: Tree, per: nat, cut: nat, t': Tree)
  {
    && t.Node? && t'.Node? && |t.kids| == |t'.kids|
    && forall k :: 0 <= k < |t.kids| ==> t'.kids[k] == SlotAt(t, per, cut, |t.kids|, k)
  }

  /** The trees when the first `n` are cut. */
  ghost function SlotAt(t: Tree, per: nat, cut: nat, n: nat, k: nat): Tree
    requires t.Node? && k < |t.kids|
  {
    if k < n then Cut(t.kids[k], per, DepthOf(k), SlotBase(per, k), cut) else t.kids[k]
  }

  /** A cut map is the old map below the cut and nothing from it on. */
  lemma {:induction false} CutMapped(t: Tree, per: nat, cut: nat, t': Tree, k: nat, logical: nat)
    requires 0 < per && RootsShape(t, per) && IsCut(t, per, cut, t') && k <= N_BLOCKS && SlotBase(per, k) <= logical
    ensures Mapped(t', per, k, logical) == if logical < cut then Mapped(t, per, k, logical) else None
    decreases N_BLOCKS - k
  {
    if k < N_BLOCKS {
      if logical < SlotBase(per, k + 1) {
        assert t'.kids[k] == SlotAt(t, per, cut, N_BLOCKS, k);
        CutGet(t.kids[k], per, DepthOf(k), SlotBase(per, k), cut, logical - SlotBase(per, k));
      } else {
        CutMapped(t, per, cut, t', k + 1, logical);
      }
    }
  }

  /** Where truncating an inode stands before its pointer `i`. */
  ghost predicate SlotsCut(store: Store, per: nat, t: Tree, cut: nat, ptrs: seq<nat>, i: nat)
  {
    && t.Node? && |t.kids| == N_BLOCKS == |ptrs| && i <= N_BLOCKS
    && forall k :: 0 <= k < N_BLOCKS ==> Reads(store, per, ptrs[k], DepthOf(k), SlotAt(t, per, cut, i, k))
  }

  lemma OtherSlot(store: Store, store': Store, per: nat, t: Tree, cut: nat, i: nat, k: nat, ptr: nat)
    requires t.Node? && i < |t.kids| && k < |t.kids| && i != k && Unshared(Owned(t))
    requires OnlyIn(store, store', Blocks(t.kids[i])) && Reads(store, per, ptr, DepthOf(k), SlotAt(t, per, cut, i, k))
    ensures Reads(store', per, ptr, DepthOf(k), SlotAt(t, per, cut, i + 1, k))
  {
    if k < i {
      KidsApart(t, |t.kids|, k, i);
    } else {
      KidsApart(t, |t.kids|, i, k);
    }
    CutBlocks(t.kids[k], per, DepthOf(k), SlotBase(per, k), cut);
    ReadsElsewhere(store, store', per, ptr, DepthOf(k), SlotAt(t, per, cut, i, k), Blocks(t.kids[i]));
  }

  /** Truncating one of the trees disturbs none of the others. */
  lemma SlotsCutOn(store: Store, store': Store, per: nat, t: Tree, cut: nat, ptrs: seq<nat>, i: nat, ptr: nat)
    requires SlotsCut(store, per, t, cut, ptrs, i) && i < N_BLOCKS && Unshared(Owned(t))
    requires OnlyIn(store, store', Blocks(t.kids[i]))
    requires Reads(store', per, ptr, DepthOf(i), SlotAt(t, per, cut, i + 1, i))
    ensures SlotsCut(store', per, t, cut, ptrs[i := ptr], i + 1)
  {
    var ptrs' := ptrs[i := ptr];
    forall k | 0 <= k < N_BLOCKS ensures Reads(store', per, ptrs'[k], DepthOf(k), SlotAt(t, per, cut, i + 1, k)) {
      if k != i {
        OtherSlot(store, store', per, t, cut, i, k, ptrs[k]);
      }
    }
  }

  /** With every tree cut, the pointers read as the cut map. */
  lemma SlotsAllCut(store: Store, per: nat, t: Tree, cut: nat, ptrs: seq<nat>)
    requires SlotsCut(store, per, t, cut, ptrs, N_BLOCKS)
    ensures MapReadable(store, per, ptrs) && IsCut(t, per, cut, Roots(store, per, ptrs))
  {
    forall k | 0 <= k < N_BLOCKS
      ensures Readable(store, per, ptrs[k], DepthOf(k)) && Load(store, per, ptrs[k], DepthOf(k)) == SlotAt(t, per, cut, N_BLOCKS, k)
    {
      assert Reads(store, per, ptrs[k], DepthOf(k), SlotAt(t, per, cut, N_BLOCKS, k));
    }
  }

  /** The trees below, with the first `n` cut; what they own is what is still to be accounted for. */
  ghost function CutRoots(t: Tree, per: nat, cut: nat): (r: Tree)
    requires t.Node?
    ensures r.Node? && |r.kids| == |t.kids| && IsCut(t, per, cut, r)
  {
    Node(0, seq(|t.kids|, k requires 0 <= k < |t.kids| => SlotAt(t, per, cut, |t.kids|, k)))
  }

  /** Where truncating an inode stands before its pointer `i`: blocks freed and blocks kept make up those owned. */
  ghost predicate SlotsTruncated(was: Store, store: Store, per: nat, t: Tree, cut: nat, ptrs: seq<nat>, i: nat, freed: multiset<nat>)
  {
    && SlotsCut(store, per, t, cut, ptrs, i) && OnlyIn(was, store, KidsBlocks(t, i))
    && freed + KidsBlocks(CutRoots(t, per, cut), i) == KidsBlocks(t, i)
  }

  lemma SlotTruncated(was: Store, mid: Store, store: Store, per: nat, t: Tree, cut: nat, ptrs: seq<nat>, i: nat, ptr: nat,
                      freed: multiset<nat>, freed': multiset<nat>)
    requires i < N_BLOCKS && SlotsTruncated(was, mid, per, t, cut, ptrs, i, freed) && Unshared(Owned(t))
    requires OnlyIn(mid, store, Blocks(t.kids[i])) && Reads(store, per, ptr, DepthOf(i), SlotAt(t, per, cut, i + 1, i))
    requires freed' + Blocks(SlotAt(t, per, cut, i + 1, i)) == freed + Blocks(t.kids[i])
    ensures SlotsTruncated(was, store, per, t, cut, ptrs[i := ptr], i + 1, freed')
  {
    SlotsCutOn(mid, store, per, t, cut, ptrs, i, ptr);
    assert CutRoots(t, per, cut).kids[i] == SlotAt(t, per, cut, i + 1, i);
    Balance(multiset{}, freed, freed', CutRoots(t, per, cut), t, i);
    OnlyInMore(was, mid, store, t, i);
  }

  /** Pointer `i` of an inode, cut in place: dropped or kept, its old tree's blocks freed or kept. */
  ghost predicate SlotCut(was: Store, store: Store, per: nat, ptr: nat, i: nat, cut: nat, drop: bool, freed: multiset<nat>, freed': multiset<nat>)
  {
    && Readable(was, per, ptr, DepthOf(i))
    && var t := Load(was, per, ptr, DepthOf(i));
       var t' := Cut(t, per, DepthOf(i), SlotBase(per, i), cut);
       && OnlyIn(was, store, Blocks(t)) && Reads(store, per, if drop then 0 else ptr, DepthOf(i), t')
       && freed' + Blocks(t') == freed + Blocks(t)
  }

  lemma SlotReady(was: Store, store: Store, per: nat, t: Tree, cut: nat, ptrs: seq<nat>, i: nat, freed: multiset<nat>)
    requires SlotsTruncated(was, store, per, t, cut, ptrs, i, freed) && Unshared(Owned(t)) && i < N_BLOCKS
    ensures Reads(store, per, ptrs[i], DepthOf(i), t.kids[i]) && Unshared(Blocks(t.kids[i]))
  {
    assert Reads(store, per, ptrs[i], DepthOf(i), SlotAt(t, per, cut, i, i));
    KidIsOwned(t, N_BLOCKS, i);
    UnsharedPart(Blocks(t.kids[i]), multiset{}, Owned(t));
  }

  lemma SlotDone(was: Store, mid: Store, store: Store, per: nat, t: Tree, cut: nat, ptrs: seq<nat>, i: nat, drop: bool,
                 freed: multiset<nat>, freed': multiset<nat>)
    requires i < N_BLOCKS && SlotsTruncated(was, mid, per, t, cut, ptrs, i, freed) && Unshared(Owned(t))
    requires SlotCut(mid, store, per, ptrs[i], i, cut, drop, freed, freed')
    ensures SlotsTruncated(was, store, per, t, cut, if drop then ptrs[i := 0] else ptrs, i + 1, freed')
  {
    SlotReady(was, mid, per, t, cut, ptrs, i, freed);
    assert ptrs[i := ptrs[i]] == ptrs;
    SlotTruncated(was, mid, store, per, t, cut, ptrs, i, if drop then 0 else ptrs[i], freed, freed');
  }

  /** A truncated map: the old one below the cut, nothing from it on, every block either kept or freed once. */
  ghost predicate Truncated(was: Tree, now: Tree, per: nat, cut: nat, freed: multiset<nat>)
    requires 0 < per && was.Node? && now.Node?
  {
    && (forall logical: nat :: Mapped(now, per, 0, logical) == if logical < cut then Mapped(was, per, 0, logical) else None)
    && freed + Owned(now) == Owned(was) && Unshared(freed) && freed !! Owned(now)
  }

  lemma AllTruncated(was: Store, store: Store, per: nat, old': seq<nat>, ptrs: seq<nat>, cut: nat, freed: multiset<nat>)
    requires 0 < per && MapReadable(was, per, old') && Unshared(Owned(Roots(was, per, old')))
    requires SlotsTruncated(was, store, per, Roots(was, per, old'), cut, ptrs, N_BLOCKS, freed)
    ensures MapReadable(store, per, ptrs) && Truncated(Roots(was, per, old'), Roots(store, per, ptrs), per, cut, freed)
  {
    var t := Roots(was, per, old');
    SlotsAllCut(store, per, t, cut, ptrs);
    var t' := Roots(store, per, ptrs);
    RootsHaveShape(was, per, old');
    forall logical: nat ensures Mapped(t', per, 0, logical) == if logical < cut then Mapped(t, per, 0, logical) else None {
      CutMapped(t, per, cut, t', 0, logical);
    }
    SameKidsSameBlocks(t', CutRoots(t, per, cut), N_BLOCKS);
    UnsharedPart(freed, Owned(t'), Owned(t));
  }

  lemma {:induction false} SameKidsSameBlocks(a: Tree, b: Tree, n: nat)
    requires a.Node? && b.Node? && n <= |a.kids| && n <= |b.kids| && forall k :: 0 <= k < n ==> a.kids[k] == b.kids[k]
    ensures KidsBlocks(a, n) == KidsBlocks(b, n)
  {
    if n > 0 {
      SameKidsSameBlocks(a, b, n - 1);
    }
  }

  // ---- Resolving by digits ----

  /** The part of a logical block number that pointers of depth `d` have to tell apart. */
  function Rest(per: nat, d: nat, logical: nat): (r: nat)
    requires 0 < per
    ensures r < Span(per, d)
  {
    logical % Span(per, d)
  }

  lemma RestOfSmall(per: nat, d: nat, logical: nat)
    requires 0 < per && logical < Span(per, d)
    ensures Rest(per, d, logical) == logical
  {
    DivModUnique(logical, Span(per, d), 0, logical);
  }

  /** Which pointer of a block of depth `d`: a digit of the logical block number in base `per`. */
  function IndexAt(per: nat, d: nat, logical: nat): (r: nat)
    requires 0 < per && 0 < d
    ensures r < per
  {
    logical / Span(per, d - 1) % per
  }

  lemma RestDigit(per: nat, d: nat, logical: nat)
    requires 0 < per && 0 < d
    ensures BlockOf(Span(per, d - 1), Rest(per, d, logical)) == IndexAt(per, d, logical)
    ensures Rest(per, d, logical) - Start(Span(per, d - 1), IndexAt(per, d, logical)) == Rest(per, d - 1, logical)
  {
    var s := Span(per, d - 1);
    Digits(logical, s, per);
    StartIsProduct(s, per);
    BlockOfIsQuotient(s, Rest(per, d, logical));
    StartIsProduct(s, IndexAt(per, d, logical));
    MulMod(Rest(per, d, logical), s);
  }

  lemma MulMod(x: nat, m: nat)
    requires 0 < m
    ensures x - x / m * m == x % m
  {
  }

  /** One level down: the digit picks the pointer, the rest is looked up under it. */
  lemma GetByDigit(store: Store, per: nat, ptr: nat, d: nat, logical: nat)
    requires 0 < per && 0 < d && ptr != 0 && Readable(store, per, ptr, d)
    ensures var p := store[ptr][IndexAt(per, d, logical)];
            Readable(store, per, p, d - 1) && Get(Load(store, per, ptr, d), per, d, Rest(per, d, logical)) ==
            Get(Load(store, per, p, d - 1), per, d - 1, Rest(per, d - 1, logical))
  {
    RestDigit(per, d, logical);
    GetKid(Load(store, per, ptr, d), per, d, Rest(per, d, logical));
    LoadKid(store, per, ptr, d, IndexAt(per, d, logical));
  }
}
