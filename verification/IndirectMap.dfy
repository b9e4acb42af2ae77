// Inodes mapped through twelve direct pointers and single, double and triple
// indirect blocks: resolving, walking and truncating the map in its store.
module IndirectMap {
  import opened BlockSets
  import opened Options
  import opened Arith
  import opened IndirectTree
  import opened IndirectInode
  import opened IndirectVisits
  import opened BlockRefs

  /** An indirect block to free, with everything under it. */
  datatype Subtree = Subtree(block: nat, depth: nat)

  ghost predicate EntryReadable(store: Store, per: nat, e: Subtree)
  {
    e.block != 0 && e.depth > 0 && Readable(store, per, e.block, e.depth)
  }

  ghost predicate StackReadable(store: Store, per: nat, stack: seq<Subtree>)
  {
    forall i :: 0 <= i < |stack| ==> EntryReadable(store, per, stack[i])
  }

  /** The blocks under everything on a stack of (block, depth). */
  ghost function StackBlocks(store: Store, per: nat, stack: seq<Subtree>): multiset<nat>
    requires StackReadable(store, per, stack)
  {
    if stack == [] then multiset{}
    else
      var rest, top := stack[..|stack| - 1], stack[|stack| - 1];
      assert forall i :: 0 <= i < |rest| ==> rest[i] == stack[i];
      assert EntryReadable(store, per, top);
      StackBlocks(store, per, rest) + Blocks(Load(store, per, top.block, top.depth))
  }

  lemma StackPush(store: Store, per: nat, stack: seq<Subtree>, e: Subtree)
    requires StackReadable(store, per, stack) && EntryReadable(store, per, e)
    ensures StackReadable(store, per, stack + [e])
    ensures StackBlocks(store, per, stack + [e]) == StackBlocks(store, per, stack) + Blocks(Load(store, per, e.block, e.depth))
  {
    assert (stack + [e])[..|stack|] == stack;
  }

  /** Freeing a subtree: what is freed and what is under the stack make up `total`. */
  ghost predicate Collecting(store: Store, per: nat, stack: seq<Subtree>, freed: multiset<nat>, total: multiset<nat>)
  {
    StackReadable(store, per, stack) && freed + StackBlocks(store, per, stack) == total && |freed| <= |total|
  }

  lemma Collected(store: Store, per: nat, stack: seq<Subtree>, freed: multiset<nat>, total: multiset<nat>, entry: nat, d: nat)
    requires Readable(store, per, entry, d) && Collecting(store, per, stack, freed, total)
    ensures var total' := total + Blocks(Load(store, per, entry, d));
            if entry == 0 then Collecting(store, per, stack, freed, total')
            else if d == 0 then Collecting(store, per, stack, freed + multiset{entry}, total')
            else Collecting(store, per, stack + [Subtree(entry, d)], freed, total')
  {
    var pending := StackBlocks(store, per, stack);
    if entry == 0 {
      assert total + multiset{} == total;
    } else if d == 0 {
      CollectedBlock(store, per, stack, freed, total, entry);
    } else {
      StackPush(store, per, stack, Subtree(entry, d));
      assert freed + (pending + Blocks(Load(store, per, entry, d))) == total + Blocks(Load(store, per, entry, d));
    }
  }

  lemma CollectedBlock(store: Store, per: nat, stack: seq<Subtree>, freed: multiset<nat>, total: multiset<nat>, b: nat)
    requires Collecting(store, per, stack, freed, total)
    ensures Collecting(store, per, stack, freed + multiset{b}, total + multiset{b})
  {
    assert freed + multiset{b} + StackBlocks(store, per, stack) == freed + StackBlocks(store, per, stack) + multiset{b};
  }

  lemma CollectPop(store: Store, per: nat, stack: seq<Subtree>, freed: multiset<nat>, total: multiset<nat>) returns (rest: multiset<nat>)
    requires stack != [] && Collecting(store, per, stack, freed, total)
    ensures var top := stack[|stack| - 1];
            && EntryReadable(store, per, top) && Collecting(store, per, stack[..|stack| - 1], freed, rest)
            && rest + Blocks(Load(store, per, top.block, top.depth)) == total
  {
    var front, top := stack[..|stack| - 1], stack[|stack| - 1];
    assert EntryReadable(store, per, top);
    assert forall i :: 0 <= i < |front| ==> front[i] == stack[i];
    rest := freed + StackBlocks(store, per, front);
    assert |rest| == |freed| + |StackBlocks(store, per, front)|;
    assert rest + Blocks(Load(store, per, top.block, top.depth)) == freed + StackBlocks(store, per, stack);
  }

  lemma AddLast(m: multiset<nat>, t: Tree, i: nat)
    requires t.Node? && i < |t.kids|
    ensures m + KidsBlocks(t, i) + Blocks(t.kids[i]) == m + KidsBlocks(t, i + 1)
  {
  }

  class BlockStore {
    var store: Store
    const per: nat

    constructor (contents: Store, per: nat)
      ensures store == contents && this.per == per
    {
      store := contents;
      this.per := per;
    }

    /** One pointer of an indirect block of depth `d`: a data block is freed, a lower indirect block put on the stack. */
    method CollectEntry(entry: nat, d: nat, stack: seq<Subtree>, freed: seq<nat>, ghost total: multiset<nat>)
      returns (stack': seq<Subtree>, freed': seq<nat>)
      requires d > 0 && Readable(store, per, entry, d - 1) && Collecting(store, per, stack, multiset(freed), total)
      ensures Collecting(store, per, stack', multiset(freed'), total + Blocks(Load(store, per, entry, d - 1)))
      ensures |freed'| >= |freed|
    {
      stack', freed' := stack, freed;
      Collected(store, per, stack, multiset(freed), total, entry, d - 1);
      if entry == 0 {
      } else if d == 1 {
        freed' := freed + [entry];
      } else {
        stack' := stack + [Subtree(entry, d - 1)];
      }
    }

    /** The pointers of one indirect block. */
    method CollectEntries(b: nat, d: nat, stack: seq<Subtree>, freed: seq<nat>, ghost total: multiset<nat>)
      returns (stack': seq<Subtree>, freed': seq<nat>)
      requires EntryReadable(store, per, Subtree(b, d)) && Collecting(store, per, stack, multiset(freed), total)
      ensures Collecting(store, per, stack', multiset(freed'), total + Blocks(Load(store, per, b, d)))
      ensures |freed'| > |freed|
    {
      stack', freed' := stack, freed + [b];
      ghost var t, with := Load(store, per, b, d), total + multiset{b};
      CollectedBlock(store, per, stack, multiset(freed), total, b);
      assert with + multiset{} == with;
      for i := 0 to per
        invariant |freed'| > |freed|
        invariant Collecting(store, per, stack', multiset(freed'), with + KidsBlocks(t, i))
      {
        stack', freed' := CollectSlot(b, d, i, stack', freed', with);
      }
      assert with + KidsBlocks(t, per) == total + Blocks(t);
    }

    /** Pointer `i` of an indirect block. */
    method CollectSlot(b: nat, d: nat, i: nat, stack: seq<Subtree>, freed: seq<nat>, ghost total: multiset<nat>)
      returns (stack': seq<Subtree>, freed': seq<nat>)
      requires EntryReadable(store, per, Subtree(b, d)) && i < per
      requires Collecting(store, per, stack, multiset(freed), total + KidsBlocks(Load(store, per, b, d), i))
      ensures Collecting(store, per, stack', multiset(freed'), total + KidsBlocks(Load(store, per, b, d), i + 1))
      ensures |freed'| >= |freed|
    {
      ghost var t := Load(store, per, b, d);
      LoadKid(store, per, b, d, i);
      AddLast(total, t, i);
      stack', freed' := CollectEntry(store[b][i], d, stack, freed, total + KidsBlocks(t, i));
    }

    /** Every block of the tree under an indirect block, the block itself included. */
    method CollectSubtree(block: nat, depth: nat, freed: seq<nat>) returns (freed': seq<nat>)
      requires EntryReadable(store, per, Subtree(block, depth))
      ensures multiset(freed') == multiset(freed) + Blocks(Load(store, per, block, depth))
    {
      freed' := freed;
      var stack := [Subtree(block, depth)];
      assert stack == [] + [Subtree(block, depth)];
      StackPush(store, per, [], Subtree(block, depth));
      ghost var total := multiset(freed) + Blocks(Load(store, per, block, depth));
      while stack != []
        invariant Collecting(store, per, stack, multiset(freed'), total)
        decreases |total| - |freed'|
      {
        var Subtree(b, d) := stack[|stack| - 1];
        ghost var rest := CollectPop(store, per, stack, multiset(freed'), total);
        assert |multiset(freed')| <= |total|;
        stack, freed' := CollectEntries(b, d, stack[..|stack| - 1], freed', rest);
      }
    }

    /** One pointer of an indirect block of depth `d`, of the walk: visited and, if an indirect block, put on the stack. */
    method WalkEntry(entry: nat, d: nat, base: nat, stack: seq<Todo>, visits: seq<Ref>, ghost end: nat, ghost total: Bag)
      returns (stack': seq<Todo>, visits': seq<Ref>)
      requires d > 0 && Readable(store, per, entry, d - 1)
      requires Walking(store, per, stack, visits, end, total) && base + Span(per, d - 1) <= end
      ensures Walking(store, per, stack', visits', end, Plus(total, Visits(Load(store, per, entry, d - 1), per, d - 1, base)))
      ensures |visits'| > |visits| || (visits' == visits && stack' == stack)
    {
      stack', visits' := stack, visits;
      EntryVisited(store, per, stack, visits, end, total, entry, d - 1, base);
      if entry == 0 {
      } else if d == 1 {
        visits' := visits + [DataRef(base, entry)];
      } else {
        visits' := visits + [MetaRef(entry)];
        stack' := stack + [Todo(entry, d - 1, base)];
      }
    }

    /** The pointers of one indirect block. */
    method WalkBlock(b: nat, d: nat, base: nat, stack: seq<Todo>, visits: seq<Ref>, ghost end: nat, ghost total: Bag)
      returns (stack': seq<Todo>, visits': seq<Ref>)
      requires Pending(store, per, Todo(b, d, base)) && Walking(store, per, stack, visits, end, total) && base + Span(per, d) <= end
      ensures Walking(store, per, stack', visits', end, Plus(total, Under(store, per, Todo(b, d, base))))
      ensures |visits'| > |visits| || (visits' == visits && stack' == stack)
    {
      stack', visits' := stack, visits;
      ghost var t := Load(store, per, b, d);
      PlusNothing(total);
      for i := 0 to per
        invariant Walking(store, per, stack', visits', end, Plus(total, KidsVisits(t, per, d, base, i)))
        invariant |visits'| > |visits| || (visits' == visits && stack' == stack)
      {
        stack', visits' := WalkSlot(b, d, base, i, stack', visits', end, total);
      }
    }

    /** Pointer `i` of an indirect block. */
    method WalkSlot(b: nat, d: nat, base: nat, i: nat, stack: seq<Todo>, visits: seq<Ref>, ghost end: nat, ghost total: Bag)
      returns (stack': seq<Todo>, visits': seq<Ref>)
      requires Pending(store, per, Todo(b, d, base)) && i < per && base + Span(per, d) <= end
      requires Walking(store, per, stack, visits, end, Plus(total, KidsVisits(Load(store, per, b, d), per, d, base, i)))
      ensures Walking(store, per, stack', visits', end, Plus(total, KidsVisits(Load(store, per, b, d), per, d, base, i + 1)))
      ensures |visits'| > |visits| || (visits' == visits && stack' == stack)
    {
      OneMoreKid(store, per, b, d, base, i, total);
      ghost var sofar := Plus(total, KidsVisits(Load(store, per, b, d), per, d, base, i));
      stack', visits' := WalkEntry(store[b][i], d, KidBase(per, d, base, i), stack, visits, end, sofar);
    }

    /** Expands one indirect block with a stack; returns the logical block after the last it can map. */
    method WalkLevel(block: nat, depth: nat, start: nat, visits: seq<Ref>) returns (logical: nat, visits': seq<Ref>)
      requires Pending(store, per, Todo(block, depth, start))
      ensures logical == start + Span(per, depth)
      ensures Seen(visits') == Plus(Seen(visits), Under(store, per, Todo(block, depth, start)))
    {
      logical, visits' := start, visits;
      var stack := [Todo(block, depth, start)];
      ghost var total, end := Plus(Seen(visits), Under(store, per, Todo(block, depth, start))), start + Span(per, depth);
      WalkStarts(store, per, visits, block, depth, start);
      while stack != []
        invariant Walking(store, per, stack, visits', end, total) && |visits'| <= |total.refs|
        invariant logical == end || (logical <= end && ReachesEnd(per, stack, end))
        decreases |total.refs| - |visits'|, |stack|
      {
        stack, visits', logical := WalkTop(stack, visits', logical, end, total);
      }
      WalkStops(store, per, visits', end, total);
    }

    /** Takes one indirect block off the stack. */
    method WalkTop(stack: seq<Todo>, visits: seq<Ref>, logical: nat, ghost end: nat, ghost total: Bag)
      returns (stack': seq<Todo>, visits': seq<Ref>, logical': nat)
      requires stack != [] && Walking(store, per, stack, visits, end, total)
      requires logical == end || (logical <= end && ReachesEnd(per, stack, end))
      ensures Walking(store, per, stack', visits', end, total) && |visits'| <= |total.refs|
      ensures |visits'| > |visits| || (visits' == visits && |stack'| < |stack|)
      ensures logical' == end
    {
      var Todo(b, d, base) := stack[|stack| - 1];
      var rest := stack[..|stack| - 1];
      ghost var before := Popped(store, per, stack, visits, end, total);
      stack', visits' := WalkBlock(b, d, base, rest, visits, end, before);
      logical' := Max(logical, base + Span(per, d));
    }

    /** Every block of an inode's map, data and indirect. */
    method WalkIndirect(ptrs: seq<nat>) returns (visits: seq<Ref>)
      requires 0 < per && MapReadable(store, per, ptrs)
      ensures WalkedAll(Roots(store, per, ptrs), per, visits)
    {
      var logical;
      visits, logical := WalkDirects(ptrs);
      for k := NDIR_BLOCKS to N_BLOCKS
        invariant logical == SlotBase(per, k) && VisitedUpTo(store, per, ptrs, k, visits)
      {
        logical, visits := WalkRoot(ptrs[k], DepthOf(k), logical, visits);
      }
      RootsHaveShape(store, per, ptrs);
      MapIsWalked(Roots(store, per, ptrs), per, visits);
    }

    method WalkDirects(ptrs: seq<nat>) returns (visits: seq<Ref>, logical: nat)
      requires MapReadable(store, per, ptrs)
      ensures logical == NDIR_BLOCKS && VisitedUpTo(store, per, ptrs, NDIR_BLOCKS, visits)
    {
      logical, visits := 0, [];
      for k := 0 to NDIR_BLOCKS
        invariant logical == k && VisitedUpTo(store, per, ptrs, k, visits)
      {
        DirectVisited(store, per, ptrs, k, visits);
        if ptrs[k] != 0 {
          visits := visits + [DataRef(logical, ptrs[k])];
        }
        logical := logical + 1;
      }
    }

    method WalkRoot(root: nat, depth: nat, start: nat, visits: seq<Ref>) returns (logical: nat, visits': seq<Ref>)
      requires depth > 0 && Readable(store, per, root, depth)
      ensures logical == start + Span(per, depth)
      ensures Seen(visits') == Plus(Seen(visits), Visits(Load(store, per, root, depth), per, depth, start))
    {
      if root == 0 {
        PlusNothing(Seen(visits));
        return start + Span(per, depth), visits;
      }
      SeenOneMore(visits, MetaRef(root));
      PlusAssociates(Seen(visits), One(MetaRef(root)), Under(store, per, Todo(root, depth, start)));
      logical, visits' := WalkLevel(root, depth, start, visits + [MetaRef(root)]);
    }

    /** One pointer of depth `d` past which the map may be cut; says whether the pointer goes. */
    method TruncateEntry(entry: nat, d: nat, base: nat, cut: nat, freed: seq<nat>) returns (drop: bool, freed': seq<nat>)
      requires 0 < per && Readable(store, per, entry, d) && Unshared(Blocks(Load(store, per, entry, d)))
      modifies this
      ensures var k := Load(old(store), per, entry, d);
              && OnlyIn(old(store), store, Blocks(k))
              && Reads(store, per, if drop then 0 else entry, d, Cut(k, per, d, base, cut))
              && multiset(freed') + Blocks(Cut(k, per, d, base, cut)) == multiset(freed) + Blocks(k)
      decreases d, 2
    {
      if entry == 0 || base + Span(per, d) <= cut {
        return false, freed;
      }
      if d == 0 {
        return true, freed + [entry];
      }
      if base >= cut {
        freed' := CollectSubtree(entry, d, freed);
        return true, freed';
      }
      drop, freed' := TruncateBlock(entry, d, base, cut, freed);
      if drop {
        freed' := freed' + [entry];
      }
    }

    /** Pointer `i` of an indirect block being truncated; `was` and `kept` are the store before and the node after. */
    method TruncateSlot(ghost t: Tree, ghost was: Store, ghost kept: Tree, buf: seq<nat>, i: nat, d: nat, base: nat, cut: nat,
                        changed: bool, freed: seq<nat>, ghost start: multiset<nat>)
      returns (buf': seq<nat>, changed': bool, freed': seq<nat>)
      requires 0 < per && i < per && Unshared(Blocks(t))
      requires Truncating(was, store, per, t, d, base, cut, buf, i, changed) && kept == CutInPlace(t, per, d, base, cut)
      requires multiset(freed) + KidsBlocks(kept, i) == start + KidsBlocks(t, i)
      modifies this
      ensures Truncating(was, store, per, t, d, base, cut, buf', i + 1, changed')
      ensures multiset(freed') + KidsBlocks(kept, i + 1) == start + KidsBlocks(t, i + 1)
      decreases d, 0, 1
    {
      assert ReadsAt(store, per, t, d, base, cut, buf, i, i);
      UnsharedKid(t, i);
      ghost var before := store;
      var drop;
      drop, freed' := TruncateEntry(buf[i], d - 1, KidBase(per, d, base, i), cut, freed);
      buf' := if drop then buf[i := 0] else buf;
      changed' := changed || drop;
      PointerDone(was, before, store, per, t, d, base, cut, buf, i, changed, drop);
      CutKid(t, per, d, base, cut, i);
      Balance(start, multiset(freed), multiset(freed'), kept, t, i);
    }

    /** The pointers of an indirect block being truncated, kept in a buffer. */
    method TruncateSlots(ghost t: Tree, ghost kept: Tree, block: nat, d: nat, base: nat, cut: nat, freed: seq<nat>)
      returns (buf: seq<nat>, changed: bool, freed': seq<nat>)
      requires 0 < per && block != 0 && d > 0 && Readable(store, per, block, d)
      requires t == Load(store, per, block, d) && Unshared(Blocks(t)) && kept == CutInPlace(t, per, d, base, cut)
      modifies this
      ensures Truncating(old(store), store, per, t, d, base, cut, buf, per, changed)
      ensures multiset(freed') + KidsBlocks(kept, per) == multiset(freed) + KidsBlocks(t, per)
      decreases d, 1, 0
    {
      ghost var was := store;
      buf, changed, freed' := store[block], false, freed;
      ProgressStart(store, per, block, d, base, cut);
      for i := 0 to per
        invariant Truncating(was, store, per, t, d, base, cut, buf, i, changed)
        invariant multiset(freed') + KidsBlocks(kept, i) == multiset(freed) + KidsBlocks(t, i)
      {
        buf, changed, freed' := TruncateSlot(t, was, kept, buf, i, d, base, cut, changed, freed', multiset(freed));
      }
    }

    /** Truncates one indirect block of depth `d`, in place; says whether it is now empty, for the caller to free. */
    method TruncateBlock(block: nat, d: nat, base: nat, cut: nat, freed: seq<nat>) returns (empty: bool, freed': seq<nat>)
      requires 0 < per && block != 0 && d > 0 && base + Span(per, d) > cut
      requires Readable(store, per, block, d) && Unshared(Blocks(Load(store, per, block, d)))
      modifies this
      ensures var t := Load(old(store), per, block, d);
              && OnlyIn(old(store), store, Blocks(t))
              && (empty <==> Cut(t, per, d, base, cut).Hole?)
              && (!empty ==> Reads(store, per, block, d, Cut(t, per, d, base, cut)))
              && multiset(freed') + (if empty then multiset{block} else Blocks(Cut(t, per, d, base, cut))) ==
                 multiset(freed) + Blocks(t)
      decreases d, 1, 1
    {
      ghost var t := Load(store, per, block, d);
      ghost var was, kept := store, CutInPlace(t, per, d, base, cut);
      var buf, changed;
      buf, changed, freed' := TruncateSlots(t, kept, block, d, base, cut, freed);
      empty := forall j :: 0 <= j < |buf| ==> buf[j] == 0;
      StoreNode(was, store, per, t, d, base, cut, buf, changed, multiset(freed), multiset(freed'));
      if !empty && changed {
        store := store[block := buf];
      }
    }

    /** One of the direct pointers of an inode. */
    method TruncateDirect(ptr: nat, i: nat, cut: nat, freed: seq<nat>) returns (drop: bool, freed': seq<nat>)
      requires i < NDIR_BLOCKS
      ensures SlotCut(store, store, per, ptr, i, cut, drop, multiset(freed), multiset(freed'))
    {
      drop := i >= cut && ptr != 0;
      freed' := if drop then freed + [ptr] else freed;
    }

    /** One of the roots of an inode's indirect trees. */
    method TruncateRoot(root: nat, slot: nat, base: nat, cut: nat, freed: seq<nat>) returns (drop: bool, freed': seq<nat>)
      requires 0 < per && NDIR_BLOCKS <= slot < N_BLOCKS && base == SlotBase(per, slot)
      requires Readable(store, per, root, DepthOf(slot)) && Unshared(Blocks(Load(store, per, root, DepthOf(slot))))
      modifies this
      ensures SlotCut(old(store), store, per, root, slot, cut, drop, multiset(freed), multiset(freed'))
    {
      drop, freed' := false, freed;
      var d := DepthOf(slot);
      if root != 0 && base + Span(per, d) > cut {
        drop, freed' := TruncateBlock(root, d, base, cut, freed);
        if drop {
          freed' := freed' + [root];
        }
      }
    }

    /** Frees every block mapped at or past logical block `cut`, and every indirect block left with nothing to map. */
    method TruncateIndirect(ptrs: seq<nat>, cut: nat) returns (ptrs': seq<nat>, freed: seq<nat>)
      requires 0 < per && MapReadable(store, per, ptrs) && Unshared(Owned(Roots(store, per, ptrs)))
      modifies this
      ensures MapReadable(store, per, ptrs')
      ensures Truncated(Roots(old(store), per, ptrs), Roots(store, per, ptrs'), per, cut, multiset(freed))
      ensures OnlyIn(old(store), store, Owned(Roots(old(store), per, ptrs)))
    {
      ghost var t, was := Roots(store, per, ptrs), store;
      ptrs', freed := TruncateDirects(ptrs, cut);
      ptrs', freed := TruncateRoots(was, t, ptrs', cut, freed);
      AllTruncated(was, store, per, ptrs, ptrs', cut, multiset(freed));
    }

    method TruncateRoots(ghost was: Store, ghost t: Tree, ptrs: seq<nat>, cut: nat, freed: seq<nat>)
      returns (ptrs': seq<nat>, freed': seq<nat>)
      requires 0 < per && t.Node? && Unshared(Owned(t))
      requires SlotsTruncated(was, store, per, t, cut, ptrs, NDIR_BLOCKS, multiset(freed))
      modifies this
      ensures SlotsTruncated(was, store, per, t, cut, ptrs', N_BLOCKS, multiset(freed'))
    {
      var base := NDIR_BLOCKS;
      ptrs', freed' := ptrs, freed;
      for slot := NDIR_BLOCKS to N_BLOCKS
        invariant base == SlotBase(per, slot) && SlotsTruncated(was, store, per, t, cut, ptrs', slot, multiset(freed'))
      {
        ptrs', freed' := TruncateRootSlot(was, t, ptrs', slot, base, cut, freed');
        base := base + Span(per, DepthOf(slot));
      }
    }

    method TruncateRootSlot(ghost was: Store, ghost t: Tree, ptrs: seq<nat>, slot: nat, base: nat, cut: nat, freed: seq<nat>)
      returns (ptrs': seq<nat>, freed': seq<nat>)
      requires 0 < per && NDIR_BLOCKS <= slot < N_BLOCKS && base == SlotBase(per, slot) && t.Node? && Unshared(Owned(t))
      requires SlotsTruncated(was, store, per, t, cut, ptrs, slot, multiset(freed))
      modifies this
      ensures SlotsTruncated(was, store, per, t, cut, ptrs', slot + 1, multiset(freed'))
    {
      ghost var mid := store;
      SlotReady(was, store, per, t, cut, ptrs, slot, multiset(freed));
      var drop;
      drop, freed' := TruncateRoot(ptrs[slot], slot, base, cut, freed);
      SlotDone(was, mid, store, per, t, cut, ptrs, slot, drop, multiset(freed), multiset(freed'));
      ptrs' := if drop then ptrs[slot := 0] else ptrs;
    }

    method TruncateDirects(ptrs: seq<nat>, cut: nat) returns (ptrs': seq<nat>, freed: seq<nat>)
      requires 0 < per && MapReadable(store, per, ptrs) && Unshared(Owned(Roots(store, per, ptrs)))
      ensures SlotsTruncated(store, store, per, Roots(store, per, ptrs), cut, ptrs', NDIR_BLOCKS, multiset(freed))
    {
      ghost var t := Roots(store, per, ptrs);
      ptrs', freed := ptrs, [];
      for i := 0 to NDIR_BLOCKS
        invariant SlotsTruncated(store, store, per, t, cut, ptrs', i, multiset(freed))
      {
        ghost var before := freed;
        var drop;
        drop, freed := TruncateDirect(ptrs'[i], i, cut, freed);
        SlotDone(store, store, store, per, t, cut, ptrs', i, drop, multiset(before), multiset(freed));
        ptrs' := if drop then ptrs'[i := 0] else ptrs';
      }
    }

    /** The block a logical block is mapped to, found by the digits of its number in base `per`. */
    method ResolveBlock(ptrs: seq<nat>, logical: nat) returns (r: Option<nat>)
      requires 0 < per && MapReadable(store, per, ptrs)
      ensures r == Mapped(Roots(store, per, ptrs), per, 0, logical)
    {
      ghost var t := Roots(store, per, ptrs);
      MappedDirect(t, per, 0, logical);
      if logical < NDIR_BLOCKS {
        var p := ptrs[logical];
        return if p != 0 then Some(p) else None;
      }
      var remaining := logical - NDIR_BLOCKS;
      for slot := NDIR_BLOCKS to N_BLOCKS
        invariant logical == remaining + SlotBase(per, slot) && SlotBase(per, slot) <= logical
        invariant Mapped(t, per, 0, logical) == Mapped(t, per, slot, logical)
      {
        var span := Span(per, DepthOf(slot));
        if remaining < span {
          r := Descend(ptrs[slot], DepthOf(slot), remaining);
          return r;
        }
        remaining := remaining - span;
      }
      return None;
    }

    /** Down from the root of an indirect tree, one digit a level. */
    method Descend(root: nat, depth: nat, remaining: nat) returns (r: Option<nat>)
      requires 0 < per && Readable(store, per, root, depth) && remaining < Span(per, depth)
      ensures r == Get(Load(store, per, root, depth), per, depth, remaining)
    {
      if root == 0 {
        return None;
      }
      var block := root;
      RestOfSmall(per, depth, remaining);
      for level := depth downto 0
        invariant block != 0 && Readable(store, per, block, level)
        invariant Get(Load(store, per, root, depth), per, depth, remaining) ==
                  Get(Load(store, per, block, level), per, level, Rest(per, level, remaining))
      {
        GetByDigit(store, per, block, level + 1, remaining);
        var stride := Span(per, level);
        var index := remaining / stride % per;
        block := store[block][index];
        if block == 0 {
          return None;
        }
      }
      return Some(block);
    }
  }

  /** Where truncating a node stands before its pointer `i`. */
  ghost predicate Truncating(was: Store, store: Store, per: nat, t: Tree, d: nat, base: nat, cut: nat, buf: seq<nat>, i: nat, changed: bool)
  {
    && Progress(store, per, t, d, base, cut, buf, i) && OnlyIn(was, store, KidsBlocks(t, i))
    && t.block in was && (changed || buf == was[t.block])
  }

  /** With every pointer cut, the node is stored or, when nothing is left of it, freed; no other tree is touched. */
  lemma StoreNode(was: Store, store: Store, per: nat, t: Tree, d: nat, base: nat, cut: nat, buf: seq<nat>, changed: bool,
                  freed: multiset<nat>, freed': multiset<nat>)
    requires Truncating(was, store, per, t, d, base, cut, buf, per, changed) && Unshared(Blocks(t))
    requires 0 < per && t.block != 0 && base + Span(per, d) > cut
    requires freed' + KidsBlocks(CutInPlace(t, per, d, base, cut), per) == freed + KidsBlocks(t, per)
    ensures OnlyIn(was, store, Blocks(t)) && OnlyIn(was, store[t.block := buf], Blocks(t))
    ensures !changed ==> store[t.block := buf] == store
    ensures var left, empty := Cut(t, per, d, base, cut), forall j :: 0 <= j < |buf| ==> buf[j] == 0;
            && (empty <==> left.Hole?)
            && (!empty ==> Reads(store[t.block := buf], per, t.block, d, left))
            && freed' + (if empty then multiset{t.block} else Blocks(left)) == freed + Blocks(t)
  {
    ProgressDone(store, per, t, d, base, cut, buf);
    NodeBalance(t, per, d, base, cut, freed, freed');
    NodeFrame(was, store, t, buf);
  }

  lemma NodeBalance(t: Tree, per: nat, d: nat, base: nat, cut: nat, freed: multiset<nat>, freed': multiset<nat>)
    requires 0 < per && t.Node? && d > 0 && base + Span(per, d) > cut
    requires freed' + KidsBlocks(CutInPlace(t, per, d, base, cut), |t.kids|) == freed + KidsBlocks(t, |t.kids|)
    ensures var left := Cut(t, per, d, base, cut);
            freed' + (if left.Hole? then multiset{t.block} else Blocks(left)) == freed + Blocks(t)
  {
    CutOwns(t, per, d, base, cut);
    Regroup(freed, freed, freed', multiset{t.block}, KidsBlocks(CutInPlace(t, per, d, base, cut), |t.kids|),
            multiset{t.block}, KidsBlocks(t, |t.kids|));
  }

  /** A node is not among its own pointers' blocks. */
  lemma NodeFrame(was: Store, store: Store, t: Tree, buf: seq<nat>)
    requires t.Node? && Unshared(Blocks(t)) && OnlyIn(was, store, KidsBlocks(t, |t.kids|)) && t.block in was
    ensures OnlyIn(was, store, Blocks(t)) && OnlyIn(was, store[t.block := buf], Blocks(t))
    ensures store[t.block] == was[t.block]
  {
    UnsharedPart(multiset{t.block}, KidsBlocks(t, |t.kids|), Blocks(t));
    assert t.block in multiset{t.block};
  }

  lemma PointerDone(was: Store, mid: Store, store: Store, per: nat, t: Tree, d: nat, base: nat, cut: nat, buf: seq<nat>, i: nat,
                 changed: bool, drop: bool)
    requires i < per && Unshared(Blocks(t)) && Truncating(was, mid, per, t, d, base, cut, buf, i, changed)
    requires OnlyIn(mid, store, Blocks(t.kids[i]))
    requires Reads(store, per, if drop then 0 else buf[i], d - 1, KidAt(t, per, d, base, cut, i + 1, i))
    ensures Truncating(was, store, per, t, d, base, cut, if drop then buf[i := 0] else buf, i + 1, changed || drop)
  {
    assert buf[i := buf[i]] == buf;
    ProgressOn(mid, store, per, t, d, base, cut, buf, i, if drop then 0 else buf[i]);
    OnlyInMore(was, mid, store, t, i);
  }

  lemma ProgressStart(store: Store, per: nat, block: nat, d: nat, base: nat, cut: nat)
    requires block != 0 && d > 0 && Readable(store, per, block, d)
    ensures Progress(store, per, Load(store, per, block, d), d, base, cut, store[block], 0)
  {
    var t := Load(store, per, block, d);
    forall j | 0 <= j < per ensures ReadsAt(store, per, t, d, base, cut, store[block], 0, j) {
      LoadKid(store, per, block, d, j);
    }
  }

  /** A node with each of its pointers cut, before an empty one is pruned. */
  ghost function CutInPlace(t: Tree, per: nat, d: nat, base: nat, cut: nat): (r: Tree)
    requires t.Node? && d > 0
    ensures r.Node? && r.block == t.block && |r.kids| == |t.kids|
  {
    Node(t.block, CutKids(t, per, d, base, cut))
  }

  lemma {:induction false} HolesOwnNothing(t: Tree, n: nat)
    requires t.Node? && n <= |t.kids| && forall i :: 0 <= i < n ==> t.kids[i].Hole?
    ensures KidsBlocks(t, n) == multiset{}
    decreases n
  {
    if n > 0 {
      HolesOwnNothing(t, n - 1);
    }
  }

  /** What a cut node owns: its block and its cut pointers' blocks, or nothing when no pointer is left. */
  lemma CutOwns(t: Tree, per: nat, d: nat, base: nat, cut: nat)
    requires 0 < per && t.Node? && d > 0 && base + Span(per, d) > cut
    ensures var left := KidsBlocks(CutInPlace(t, per, d, base, cut), |t.kids|);
            if Cut(t, per, d, base, cut).Hole? then left == multiset{}
            else Blocks(Cut(t, per, d, base, cut)) == multiset{t.block} + left
  {
    CutNode(t, per, d, base, cut);
    if Cut(t, per, d, base, cut).Hole? {
      HolesOwnNothing(CutInPlace(t, per, d, base, cut), |t.kids|);
    }
  }
}
