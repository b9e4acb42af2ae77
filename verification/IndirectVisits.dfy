// The blocks a walk of an indirect map visits, in logical order, and what
// they say about the map.
module IndirectVisits {
  import opened Options
  import opened Arith
  import opened IndirectTree
  import opened IndirectInode
  import opened BlockRefs

  /** Everything under a pointer of depth `d` whose first logical block is `base`. */
  function Visits(t: Tree, per: nat, d: nat, base: nat): Bag
    decreases t, 1
  {
    match t
    case Hole => NOTHING
    case Data(b) => One(DataRef(base, b))
    case Node(b, kids) => if d == 0 then One(MetaRef(b)) else Plus(One(MetaRef(b)), KidsVisits(t, per, d, base, |kids|))
  }

  /** Everything under the first `n` pointers of a node. */
  function KidsVisits(t: Tree, per: nat, d: nat, base: nat, n: nat): Bag
    requires t.Node? && d > 0 && n <= |t.kids|
    decreases t, 0, n
  {
    if n == 0 then NOTHING
    else Plus(KidsVisits(t, per, d, base, n - 1), Visits(t.kids[n - 1], per, d - 1, KidBase(per, d, base, n - 1)))
  }

  // ---- The data visits are the graph of the mapping ----

  /** Whether the tree maps logical block `l` to `p`. */
  function Maps(t: Tree, per: nat, d: nat, base: nat, bound: nat, l: nat, p: nat): nat
    requires 0 < per
  {
    if base <= l < bound && Get(t, per, d, l - base) == Some(p) then 1 else 0
  }

  lemma {:induction false} VisitsAreGraph(t: Tree, per: nat, d: nat, base: nat, hi: nat, l: nat, p: nat)
    requires 0 < per && Shape(t, per, d) && hi == base + Span(per, d)
    ensures Visits(t, per, d, base).refs[DataRef(l, p)] == Maps(t, per, d, base, hi, l, p)
    decreases d, per + 1
  {
    if t.Node? {
      KidsVisitsAreGraph(t, per, d, base, per, hi, l, p);
    }
  }

  lemma {:induction false} KidsVisitsAreGraph(t: Tree, per: nat, d: nat, base: nat, n: nat, hi: nat, l: nat, p: nat)
    requires 0 < per && t.Node? && d > 0 && n <= |t.kids| == per && hi == KidBase(per, d, base, n)
    requires forall i :: 0 <= i < n ==> ShapeAt(t.kids, per, d, i)
    ensures KidsVisits(t, per, d, base, n).refs[DataRef(l, p)] == Maps(t, per, d, base, hi, l, p)
    decreases d, n
  {
    if n > 0 {
      var kid, lo := t.kids[n - 1], KidBase(per, d, base, n - 1);
      assert ShapeAt(t.kids, per, d, n - 1);
      KidsVisitsAreGraph(t, per, d, base, n - 1, lo, l, p);
      VisitsAreGraph(kid, per, d - 1, lo, hi, l, p);
      LastKidMaps(t, per, d, base, n, l, p, lo, hi);
      LastKidCounts(t, per, d, base, n, lo, DataRef(l, p));
      assert hi == lo + Span(per, d - 1);
    }
  }

  lemma LastKidCounts(t: Tree, per: nat, d: nat, base: nat, n: nat, lo: nat, r: Ref)
    requires t.Node? && d > 0 && 0 < n <= |t.kids| && lo == KidBase(per, d, base, n - 1)
    ensures KidsVisits(t, per, d, base, n).refs[r] ==
            KidsVisits(t, per, d, base, n - 1).refs[r] + Visits(t.kids[n - 1], per, d - 1, lo).refs[r]
  {
    LastKidVisits(t, per, d, base, n);
  }

  lemma LastKidVisits(t: Tree, per: nat, d: nat, base: nat, n: nat)
    requires t.Node? && d > 0 && 0 < n <= |t.kids|
    ensures KidsVisits(t, per, d, base, n) ==
            Plus(KidsVisits(t, per, d, base, n - 1), Visits(t.kids[n - 1], per, d - 1, KidBase(per, d, base, n - 1)))
  {
  }

  lemma LastKidMaps(t: Tree, per: nat, d: nat, base: nat, n: nat, l: nat, p: nat, lo: nat, hi: nat)
    requires 0 < per && t.Node? && d > 0 && |t.kids| == per && 0 < n <= per
    requires lo == KidBase(per, d, base, n - 1) && hi == lo + Span(per, d - 1)
    ensures Maps(t, per, d, base, hi, l, p) ==
            Maps(t, per, d, base, lo, l, p) + Maps(t.kids[n - 1], per, d - 1, lo, hi, l, p)
  {
    if lo <= l < hi {
      KidGets(t, per, d, base, n, l, lo, hi);
    }
  }

  // ---- The blocks visited are the blocks owned ----

  ghost predicate KidBlocksRight(t: Tree, per: nat, d: nat, base: nat, i: nat)
    requires t.Node? && d > 0 && i < |t.kids|
  {
    Visits(t.kids[i], per, d - 1, KidBase(per, d, base, i)).blocks == Blocks(t.kids[i])
  }

  lemma {:induction false} VisitsAreBlocks(t: Tree, per: nat, d: nat, base: nat)
    requires Shape(t, per, d)
    ensures Visits(t, per, d, base).blocks == Blocks(t)
    decreases d
  {
    if t.Node? {
      forall i | 0 <= i < per ensures KidBlocksRight(t, per, d, base, i) {
        assert ShapeAt(t.kids, per, d, i);
        VisitsAreBlocks(t.kids[i], per, d - 1, KidBase(per, d, base, i));
      }
      KidsVisitsAreBlocks(t, per, d, base, per);
    }
  }

  lemma {:induction false} KidsVisitsAreBlocks(t: Tree, per: nat, d: nat, base: nat, n: nat)
    requires t.Node? && d > 0 && n <= |t.kids| && forall i :: 0 <= i < n ==> KidBlocksRight(t, per, d, base, i)
    ensures KidsVisits(t, per, d, base, n).blocks == KidsBlocks(t, n)
    decreases n
  {
    if n > 0 {
      KidsVisitsAreBlocks(t, per, d, base, n - 1);
      assert KidBlocksRight(t, per, d, base, n - 1);
      LastKidVisits(t, per, d, base, n);
    }
  }

  // ---- A whole inode ----

  /** Everything under the first `n` pointers of an inode. */
  function MapVisits(t: Tree, per: nat, n: nat): Bag
    requires t.Node? && n <= |t.kids|
  {
    if n == 0 then NOTHING
    else Plus(MapVisits(t, per, n - 1), Visits(t.kids[n - 1], per, DepthOf(n - 1), SlotBase(per, n - 1)))
  }

  function MapsBelow(t: Tree, per: nat, n: nat, l: nat, p: nat): nat
    requires 0 < per && t.Node?
  {
    if l < SlotBase(per, n) && Mapped(t, per, 0, l) == Some(p) then 1 else 0
  }

  lemma {:induction false} MappedAt(t: Tree, per: nat, k: nat, n: nat, l: nat)
    requires 0 < per && t.Node? && k <= n < |t.kids| && SlotBase(per, k) <= SlotBase(per, n) <= l < SlotBase(per, n + 1)
    ensures Mapped(t, per, k, l) == Get(t.kids[n], per, DepthOf(n), l - SlotBase(per, n))
    decreases n - k
  {
    if k < n {
      SlotBaseMonotone(per, k + 1, n);
      MappedAt(t, per, k + 1, n, l);
    }
  }

  lemma LastSlotMaps(t: Tree, per: nat, n: nat, l: nat, p: nat)
    requires 0 < per && t.Node? && 0 < n <= |t.kids|
    ensures MapsBelow(t, per, n, l, p) == MapsBelow(t, per, n - 1, l, p) +
            Maps(t.kids[n - 1], per, DepthOf(n - 1), SlotBase(per, n - 1), SlotBase(per, n), l, p)
  {
    SlotBaseMonotone(per, 0, n - 1);
    if SlotBase(per, n - 1) <= l < SlotBase(per, n) {
      MappedAt(t, per, 0, n - 1, l);
    }
  }

  lemma {:induction false} MapVisitsAreGraph(t: Tree, per: nat, n: nat, l: nat, p: nat)
    requires 0 < per && RootsShape(t, per) && n <= N_BLOCKS
    ensures MapVisits(t, per, n).refs[DataRef(l, p)] == MapsBelow(t, per, n, l, p)
    decreases n
  {
    if n > 0 {
      MapVisitsAreGraph(t, per, n - 1, l, p);
      VisitsAreGraph(t.kids[n - 1], per, DepthOf(n - 1), SlotBase(per, n - 1), SlotBase(per, n), l, p);
      LastSlotMaps(t, per, n, l, p);
    }
  }

  lemma {:induction false} MappedEnds(t: Tree, per: nat, k: nat, l: nat)
    requires 0 < per && t.Node? && k <= |t.kids| && SlotBase(per, k) <= l && SlotBase(per, |t.kids|) <= l
    ensures Mapped(t, per, k, l) == None
    decreases |t.kids| - k
  {
    if k < |t.kids| {
      SlotBaseMonotone(per, k + 1, |t.kids|);
      MappedEnds(t, per, k + 1, l);
    }
  }

  lemma {:induction false} MapVisitsAreBlocks(t: Tree, per: nat, n: nat)
    requires RootsShape(t, per) && n <= N_BLOCKS
    ensures MapVisits(t, per, n).blocks == KidsBlocks(t, n)
    decreases n
  {
    if n > 0 {
      MapVisitsAreBlocks(t, per, n - 1);
      VisitsAreBlocks(t.kids[n - 1], per, DepthOf(n - 1), SlotBase(per, n - 1));
    }
  }

  ghost predicate VisitedUpTo(store: Store, per: nat, ptrs: seq<nat>, k: nat, visits: seq<Ref>)
    requires MapReadable(store, per, ptrs) && k <= N_BLOCKS
  {
    Seen(visits) == MapVisits(Roots(store, per, ptrs), per, k)
  }

  lemma DirectVisited(store: Store, per: nat, ptrs: seq<nat>, k: nat, visits: seq<Ref>)
    requires MapReadable(store, per, ptrs) && k < NDIR_BLOCKS && VisitedUpTo(store, per, ptrs, k, visits)
    ensures VisitedUpTo(store, per, ptrs, k + 1, if ptrs[k] == 0 then visits else visits + [DataRef(k, ptrs[k])])
  {
    var t := Roots(store, per, ptrs);
    assert MapVisits(t, per, k + 1) == Plus(Seen(visits), Visits(Load(store, per, ptrs[k], 0), per, 0, k));
    PlusNothing(Seen(visits));
    SeenOneMore(visits, DataRef(k, ptrs[k]));
  }

  /** A walk of a whole map visits each mapped logical block once, with the block it is mapped to, and every block owned. */
  ghost predicate WalkedAll(t: Tree, per: nat, visits: seq<Ref>)
    requires 0 < per && t.Node?
  {
    && (forall l: nat, p: nat :: multiset(visits)[DataRef(l, p)] == if Mapped(t, per, 0, l) == Some(p) then 1 else 0)
    && Physicals(visits) == Owned(t)
  }

  lemma MapIsWalked(t: Tree, per: nat, visits: seq<Ref>)
    requires 0 < per && RootsShape(t, per) && Seen(visits) == MapVisits(t, per, N_BLOCKS)
    ensures WalkedAll(t, per, visits)
  {
    forall l: nat, p: nat ensures multiset(visits)[DataRef(l, p)] == if Mapped(t, per, 0, l) == Some(p) then 1 else 0 {
      MapVisitsAreGraph(t, per, N_BLOCKS, l, p);
      if SlotBase(per, N_BLOCKS) <= l {
        MappedEnds(t, per, 0, l);
      }
    }
    MapVisitsAreBlocks(t, per, N_BLOCKS);
  }

  // ---- A stack of indirect blocks still to be walked ----

  /** An indirect block to expand: its depth and the first logical block under it. */
  datatype Todo = Todo(block: nat, depth: nat, base: nat)

  ghost predicate Pending(store: Store, per: nat, e: Todo)
  {
    e.block != 0 && e.depth > 0 && Readable(store, per, e.block, e.depth)
  }

  ghost predicate StackPending(store: Store, per: nat, stack: seq<Todo>)
  {
    forall i :: 0 <= i < |stack| ==> Pending(store, per, stack[i])
  }

  /** What is under an indirect block already visited. */
  ghost function Under(store: Store, per: nat, e: Todo): Bag
    requires Pending(store, per, e)
  {
    KidsVisits(Load(store, per, e.block, e.depth), per, e.depth, e.base, per)
  }

  ghost function StackVisits(store: Store, per: nat, stack: seq<Todo>): Bag
    requires StackPending(store, per, stack)
  {
    if stack == [] then NOTHING
    else
      var rest, top := stack[..|stack| - 1], stack[|stack| - 1];
      assert forall i :: 0 <= i < |rest| ==> rest[i] == stack[i];
      assert Pending(store, per, top);
      Plus(StackVisits(store, per, rest), Under(store, per, top))
  }

  lemma StackVisitsPush(store: Store, per: nat, stack: seq<Todo>, e: Todo)
    requires StackPending(store, per, stack) && Pending(store, per, e)
    ensures StackPending(store, per, stack + [e])
    ensures StackVisits(store, per, stack + [e]) == Plus(StackVisits(store, per, stack), Under(store, per, e))
  {
    assert (stack + [e])[..|stack|] == stack;
  }

  /** No block on the stack reaches past logical block `end`. */
  ghost predicate StackWithin(per: nat, stack: seq<Todo>, end: nat)
  {
    forall i :: 0 <= i < |stack| ==> stack[i].base + Span(per, stack[i].depth) <= end
  }

  /** A walk under way: what it has visited and what is under its stack make up `total`. */
  ghost predicate Walking(store: Store, per: nat, stack: seq<Todo>, visits: seq<Ref>, end: nat, total: Bag)
  {
    && StackPending(store, per, stack) && StackWithin(per, stack, end)
    && Plus(Seen(visits), StackVisits(store, per, stack)) == total && |visits| <= |total.refs|
  }

  /** The top of the stack is the block whose pointers go on to `end`. */
  ghost predicate ReachesEnd(per: nat, stack: seq<Todo>, end: nat)
  {
    stack != [] && stack[|stack| - 1].base + Span(per, stack[|stack| - 1].depth) == end
  }

  lemma VisitedData(store: Store, per: nat, stack: seq<Todo>, visits: seq<Ref>, end: nat, total: Bag, entry: nat, base: nat)
    requires Walking(store, per, stack, visits, end, total)
    ensures Walking(store, per, stack, visits + [DataRef(base, entry)], end, Plus(total, One(DataRef(base, entry))))
  {
    var one, pending := One(DataRef(base, entry)), StackVisits(store, per, stack);
    SeenOneMore(visits, DataRef(base, entry));
    VisitedAtMost(visits + [DataRef(base, entry)], pending);
    PlusAssociates(Seen(visits), one, pending);
    PlusCommutes(one, pending);
    PlusAssociates(Seen(visits), pending, one);
  }

  lemma NodeVisits(store: Store, per: nat, entry: nat, d: nat, base: nat)
    requires Pending(store, per, Todo(entry, d, base))
    ensures Visits(Load(store, per, entry, d), per, d, base) == Plus(One(MetaRef(entry)), Under(store, per, Todo(entry, d, base)))
  {
  }

  lemma VisitedPush(store: Store, per: nat, stack: seq<Todo>, visits: seq<Ref>, end: nat, total: Bag, e: Todo, r: Ref)
    requires Walking(store, per, stack, visits, end, total) && Pending(store, per, e) && e.base + Span(per, e.depth) <= end
    ensures Walking(store, per, stack + [e], visits + [r], end, Plus(total, Plus(One(r), Under(store, per, e))))
  {
    SeenOneMore(visits, r);
    StackVisitsPush(store, per, stack, e);
    VisitedAtMost(visits + [r], StackVisits(store, per, stack + [e]));
    Shuffle(Seen(visits), One(r), StackVisits(store, per, stack), Under(store, per, e));
  }

  lemma VisitedNode(store: Store, per: nat, stack: seq<Todo>, visits: seq<Ref>, end: nat, total: Bag, entry: nat, d: nat, base: nat)
    requires Walking(store, per, stack, visits, end, total) && Pending(store, per, Todo(entry, d, base)) && base + Span(per, d) <= end
    ensures Walking(store, per, stack + [Todo(entry, d, base)], visits + [MetaRef(entry)], end,
                    Plus(total, Visits(Load(store, per, entry, d), per, d, base)))
  {
    VisitedPush(store, per, stack, visits, end, total, Todo(entry, d, base), MetaRef(entry));
    NodeVisits(store, per, entry, d, base);
  }

  /** A pointer of depth `d` visited: a hole leaves nothing to visit, an indirect block goes on the stack. */
  lemma EntryVisited(store: Store, per: nat, stack: seq<Todo>, visits: seq<Ref>, end: nat, total: Bag, entry: nat, d: nat, base: nat)
    requires Walking(store, per, stack, visits, end, total) && Readable(store, per, entry, d) && base + Span(per, d) <= end
    ensures var total' := Plus(total, Visits(Load(store, per, entry, d), per, d, base));
            if entry == 0 then Walking(store, per, stack, visits, end, total')
            else if d == 0 then Walking(store, per, stack, visits + [DataRef(base, entry)], end, total')
            else Walking(store, per, stack + [Todo(entry, d, base)], visits + [MetaRef(entry)], end, total')
  {
    if entry == 0 {
      PlusNothing(total);
    } else if d == 0 {
      VisitedData(store, per, stack, visits, end, total, entry, base);
    } else {
      VisitedNode(store, per, stack, visits, end, total, entry, d, base);
    }
  }

  lemma OneMoreKid(store: Store, per: nat, b: nat, d: nat, base: nat, i: nat, total: Bag)
    requires Pending(store, per, Todo(b, d, base)) && i < per
    ensures var t := Load(store, per, b, d);
            && Readable(store, per, store[b][i], d - 1) && t.kids[i] == Load(store, per, store[b][i], d - 1)
            && KidBase(per, d, base, i) + Span(per, d - 1) <= base + Span(per, d)
            && Plus(total, KidsVisits(t, per, d, base, i + 1)) ==
               Plus(Plus(total, KidsVisits(t, per, d, base, i)), Visits(t.kids[i], per, d - 1, KidBase(per, d, base, i)))
  {
    var t := Load(store, per, b, d);
    LoadKid(store, per, b, d, i);
    LastKidVisits(t, per, d, base, i + 1);
    StartMonotone(Span(per, d - 1), i, per);
    PlusAssociates(total, KidsVisits(t, per, d, base, i), Visits(t.kids[i], per, d - 1, KidBase(per, d, base, i)));
  }

  lemma WalkStarts(store: Store, per: nat, visits: seq<Ref>, block: nat, depth: nat, start: nat)
    requires Pending(store, per, Todo(block, depth, start))
    ensures Walking(store, per, [Todo(block, depth, start)], visits, start + Span(per, depth),
                    Plus(Seen(visits), Under(store, per, Todo(block, depth, start))))
  {
    assert [Todo(block, depth, start)] == [] + [Todo(block, depth, start)];
    StackVisitsPush(store, per, [], Todo(block, depth, start));
    VisitedAtMost(visits, Under(store, per, Todo(block, depth, start)));
    NothingPlus(Under(store, per, Todo(block, depth, start)));
  }

  /** A walk has visited no more than there is to visit. */
  lemma VisitedAtMost(visits: seq<Ref>, pending: Bag)
    ensures |visits| <= |Plus(Seen(visits), pending).refs|
  {
    assert |multiset(visits)| == |visits|;
  }

  lemma WalkStops(store: Store, per: nat, visits: seq<Ref>, end: nat, total: Bag)
    requires Walking(store, per, [], visits, end, total)
    ensures Seen(visits) == total
  {
    PlusNothing(Seen(visits));
  }

  /** Taking a block off the stack leaves what is under it to be visited. */
  lemma Popped(store: Store, per: nat, stack: seq<Todo>, visits: seq<Ref>, end: nat, total: Bag) returns (before: Bag)
    requires stack != [] && Walking(store, per, stack, visits, end, total)
    ensures var top := stack[|stack| - 1];
            && Pending(store, per, top) && top.base + Span(per, top.depth) <= end
            && Walking(store, per, stack[..|stack| - 1], visits, end, before) && Plus(before, Under(store, per, top)) == total
  {
    var rest, top := stack[..|stack| - 1], stack[|stack| - 1];
    assert Pending(store, per, top);
    assert forall i :: 0 <= i < |rest| ==> rest[i] == stack[i];
    before := Plus(Seen(visits), StackVisits(store, per, rest));
    VisitedAtMost(visits, StackVisits(store, per, rest));
    PlusAssociates(Seen(visits), StackVisits(store, per, rest), Under(store, per, top));
  }
}
