// Block maps made of indirect blocks, as trees.
//
// A pointer of depth 0 is a data block; one of depth d > 0 is a block of
// pointers of depth d - 1. A zero pointer maps nothing.
module IndirectTree {
  import opened BlockSets
  import opened Options
  import opened Arith

  datatype Tree = Hole | Data(block: nat) | Node(block: nat, kids: seq<Tree>)

  /** Logical blocks under a pointer of depth `d`: `per` to the power `d`. */
  function Span(per: nat, d: nat): (r: nat)
    ensures 0 < per ==> 0 < r
  {
    if d == 0 then 1 else Start(Span(per, d - 1), per)
  }

  /** The tree is one a pointer of depth `d` can have. */
  ghost predicate Shape(t: Tree, per: nat, d: nat)
    decreases d, 1
  {
    match t
    case Hole => true
    case Data(b) => d == 0 && b != 0
    case Node(b, kids) => d > 0 && b != 0 && |kids| == per && forall i :: 0 <= i < per ==> ShapeAt(kids, per, d, i)
  }

  ghost predicate ShapeAt(kids: seq<Tree>, per: nat, d: nat, i: nat)
    requires i < |kids| && 0 < d
    decreases d, 0
  {
    Shape(kids[i], per, d - 1)
  }

  // ---- What a tree maps ----

  /** The block that logical block `idx` of the tree is mapped to. */
  function Get(t: Tree, per: nat, d: nat, idx: nat): Option<nat>
    requires 0 < per
    decreases d
  {
    match t
    case Hole => None
    case Data(b) => Some(b)
    case Node(b, kids) =>
      if d == 0 then None
      else
        var span := Span(per, d - 1);
        var i := BlockOf(span, idx);
        if i < |kids| then Get(kids[i], per, d - 1, idx - Start(span, i)) else None
  }

  /** The first logical block under pointer `i` of a node. */
  function KidBase(per: nat, d: nat, base: nat, i: nat): nat
    requires d > 0
  {
    base + Start(Span(per, d - 1), i)
  }

  // ---- What a tree owns ----

  /** Every block of the tree, data and indirect, with its multiplicity. */
  function Blocks(t: Tree): multiset<nat>
    decreases t, 0
  {
    match t
    case Hole => multiset{}
    case Data(b) => multiset{b}
    case Node(b, kids) => multiset{b} + KidsBlocks(t, |kids|)
  }

  /** The blocks under the first `n` pointers of a node. */
  function KidsBlocks(t: Tree, n: nat): multiset<nat>
    requires t.Node? && n <= |t.kids|
    decreases t, 0, n
  {
    if n == 0 then multiset{} else KidsBlocks(t, n - 1) + Blocks(t.kids[n - 1])
  }

  lemma {:induction false} KidIsOwned(t: Tree, n: nat, i: nat)
    requires t.Node? && i < n <= |t.kids|
    ensures Blocks(t.kids[i]) <= KidsBlocks(t, n)
  {
    if i < n - 1 {
      KidIsOwned(t, n - 1, i);
    }
  }

  /** Under an unshared node, two pointers have no block in common. */
  lemma {:induction false} KidsApart(t: Tree, n: nat, i: nat, j: nat)
    requires t.Node? && i < j < n <= |t.kids| && Unshared(KidsBlocks(t, n))
    ensures Blocks(t.kids[i]) !! Blocks(t.kids[j])
  {
    UnsharedPart(KidsBlocks(t, n - 1), Blocks(t.kids[n - 1]), KidsBlocks(t, n));
    if j == n - 1 {
      KidIsOwned(t, n - 1, i);
    } else {
      KidsApart(t, n - 1, i, j);
    }
  }

  lemma UnsharedKid(t: Tree, i: nat)
    requires t.Node? && i < |t.kids| && Unshared(Blocks(t))
    ensures Unshared(Blocks(t.kids[i])) && t.block !in Blocks(t.kids[i]) && Unshared(KidsBlocks(t, |t.kids|))
  {
    KidIsOwned(t, |t.kids|, i);
    UnsharedPart(multiset{t.block}, KidsBlocks(t, |t.kids|), Blocks(t));
    assert t.block in multiset{t.block};
    UnsharedPart(Blocks(t.kids[i]), multiset{}, KidsBlocks(t, |t.kids|));
  }

  // ---- Truncation ----

  /** A node none of whose pointers is left maps nothing and is freed. */
  function Prune(b: nat, kids: seq<Tree>): Tree
  {
    if forall i :: 0 <= i < |kids| ==> kids[i].Hole? then Hole else Node(b, kids)
  }

  /** The tree under a pointer of depth `d` whose first logical block is `base`, cut at logical block `cut`. */
  function Cut(t: Tree, per: nat, d: nat, base: nat, cut: nat): Tree
    decreases t, 2
  {
    if base + Span(per, d) <= cut then t
    else if base >= cut || !t.Node? || d == 0 then Hole
    else Prune(t.block, CutKids(t, per, d, base, cut))
  }

  /** The pointers of a node of depth `d`, cut. */
  function CutKids(t: Tree, per: nat, d: nat, base: nat, cut: nat): (r: seq<Tree>)
    requires t.Node? && d > 0
    ensures |r| == |t.kids|
    decreases t, 1
  {
    seq(|t.kids|, i requires 0 <= i < |t.kids| => CutAt(t, per, d, base, cut, i))
  }

  function CutAt(t: Tree, per: nat, d: nat, base: nat, cut: nat, i: nat): Tree
    requires t.Node? && d > 0 && i < |t.kids|
    decreases t, 0
  {
    Cut(t.kids[i], per, d - 1, KidBase(per, d, base, i), cut)
  }

  lemma CutKid(t: Tree, per: nat, d: nat, base: nat, cut: nat, i: nat)
    requires t.Node? && d > 0 && i < |t.kids|
    ensures CutKids(t, per, d, base, cut)[i] == Cut(t.kids[i], per, d - 1, KidBase(per, d, base, i), cut)
  {
  }

  /** Which pointer of a node covers `idx`, and what is left of `idx` below it. */
  lemma KidOf(per: nat, d: nat, idx: nat)
    requires 0 < per && 0 < d && idx < Span(per, d)
    ensures BlockOf(Span(per, d - 1), idx) < per
    ensures idx - Start(Span(per, d - 1), BlockOf(Span(per, d - 1), idx)) < Span(per, d - 1)
  {
    var span, i := Span(per, d - 1), BlockOf(Span(per, d - 1), idx);
    if per <= i {
      StartMonotone(span, per, i);
    }
  }

  lemma PruneGet(b: nat, kids: seq<Tree>, per: nat, d: nat, idx: nat)
    requires 0 < per
    ensures Get(Prune(b, kids), per, d, idx) == Get(Node(b, kids), per, d, idx)
  {
  }

  /** A cut keeps the mapping below the cut and nothing else. */
  lemma {:induction false} CutGet(t: Tree, per: nat, d: nat, base: nat, cut: nat, idx: nat)
    requires 0 < per && Shape(t, per, d) && idx < Span(per, d)
    ensures Get(Cut(t, per, d, base, cut), per, d, idx) == if base + idx < cut then Get(t, per, d, idx) else None
    decreases d
  {
    if base + Span(per, d) > cut && base < cut && t.Node? {
      KidOf(per, d, idx);
      var span, i := Span(per, d - 1), BlockOf(Span(per, d - 1), idx);
      var base', idx' := KidBase(per, d, base, i), idx - Start(span, i);
      assert ShapeAt(t.kids, per, d, i);
      CutGet(t.kids[i], per, d - 1, base', cut, idx');
      GetKid(t, per, d, idx);
      CutGetKid(t, per, d, base, cut, idx);
      assert base' + idx' == base + idx;
    } else {
      CutGetFlat(t, per, d, base, cut, idx);
    }
  }

  lemma GetKid(t: Tree, per: nat, d: nat, idx: nat)
    requires 0 < per && 0 < d && t.Node? && |t.kids| == per && BlockOf(Span(per, d - 1), idx) < per
    ensures var span, i := Span(per, d - 1), BlockOf(Span(per, d - 1), idx);
            Get(t, per, d, idx) == Get(t.kids[i], per, d - 1, idx - Start(span, i))
  {
  }

  /** The block `l` under pointer `n - 1` of a tree whose first logical block is `base`. */
  lemma KidGets(t: Tree, per: nat, d: nat, base: nat, n: nat, l: nat, lo: nat, hi: nat)
    requires 0 < per && t.Node? && d > 0 && |t.kids| == per && 0 < n <= per
    requires lo == KidBase(per, d, base, n - 1) && hi == lo + Span(per, d - 1) && lo <= l < hi
    ensures Get(t, per, d, l - base) == Get(t.kids[n - 1], per, d - 1, l - lo)
  {
    BlockOfStart(Span(per, d - 1), n - 1, l - lo);
    GetKid(t, per, d, l - base);
  }

  lemma CutGetFlat(t: Tree, per: nat, d: nat, base: nat, cut: nat, idx: nat)
    requires 0 < per && Shape(t, per, d) && idx < Span(per, d)
    requires base + Span(per, d) <= cut || base >= cut || !t.Node?
    ensures Get(Cut(t, per, d, base, cut), per, d, idx) == if base + idx < cut then Get(t, per, d, idx) else None
  {
  }

  lemma CutGetKid(t: Tree, per: nat, d: nat, base: nat, cut: nat, idx: nat)
    requires 0 < per && 0 < d && t.Node? && |t.kids| == per && idx < Span(per, d) && base < cut < base + Span(per, d)
    requires BlockOf(Span(per, d - 1), idx) < per
    ensures var span, i := Span(per, d - 1), BlockOf(Span(per, d - 1), idx);
            Get(Cut(t, per, d, base, cut), per, d, idx)
            == Get(Cut(t.kids[i], per, d - 1, KidBase(per, d, base, i), cut), per, d - 1, idx - Start(span, i))
  {
    var kids := CutKids(t, per, d, base, cut);
    CutKid(t, per, d, base, cut, BlockOf(Span(per, d - 1), idx));
    PruneGet(t.block, kids, per, d, idx);
    GetKid(Node(t.block, kids), per, d, idx);
  }

  lemma {:induction false} CutShape(t: Tree, per: nat, d: nat, base: nat, cut: nat)
    requires Shape(t, per, d)
    ensures Shape(Cut(t, per, d, base, cut), per, d)
    decreases d
  {
    if base + Span(per, d) > cut && base < cut && t.Node? {
      var kids := CutKids(t, per, d, base, cut);
      forall i | 0 <= i < per ensures ShapeAt(kids, per, d, i) {
        assert ShapeAt(t.kids, per, d, i);
        CutKid(t, per, d, base, cut, i);
        CutShape(t.kids[i], per, d - 1, KidBase(per, d, base, i), cut);
      }
    }
  }

  lemma SpanPositive(per: nat, d: nat)
    requires 0 < per
    ensures 0 < Span(per, d)
  {
  }

  /** A node that reaches past the cut is the node of its cut pointers, pruned. */
  lemma CutNode(t: Tree, per: nat, d: nat, base: nat, cut: nat)
    requires 0 < per && t.Node? && 0 < d && base + Span(per, d) > cut
    ensures Cut(t, per, d, base, cut) == Prune(t.block, CutKids(t, per, d, base, cut))
  {
    if base >= cut {
      var kids := CutKids(t, per, d, base, cut);
      forall i | 0 <= i < |t.kids| ensures kids[i].Hole? {
        SpanPositive(per, d - 1);
        CutKid(t, per, d, base, cut, i);
      }
    }
  }

  // ---- Trees in a store of pointer blocks ----

  type Store = map<nat, seq<nat>>

  /** Every block a walk of the tree under `ptr` reads can be read. */
  predicate Readable(store: Store, per: nat, ptr: nat, d: nat)
    decreases d, 1
  {
    ptr == 0 || d == 0 ||
    (ptr in store && |store[ptr]| == per && forall i :: 0 <= i < per ==> ReadableAt(store, per, ptr, d, i))
  }

  predicate ReadableAt(store: Store, per: nat, ptr: nat, d: nat, i: nat)
    requires ptr in store && i < |store[ptr]| && 0 < d
    decreases d, 0
  {
    Readable(store, per, store[ptr][i], d - 1)
  }

  function Load(store: Store, per: nat, ptr: nat, d: nat): Tree
    requires Readable(store, per, ptr, d)
    decreases d, 1
  {
    if ptr == 0 then Hole
    else if d == 0 then Data(ptr)
    else Node(ptr, seq(per, i requires 0 <= i < per => LoadAt(store, per, ptr, d, i)))
  }

  function LoadAt(store: Store, per: nat, ptr: nat, d: nat, i: nat): Tree
    requires Readable(store, per, ptr, d) && ptr != 0 && d > 0 && i < per
    decreases d, 0
  {
    assert ReadableAt(store, per, ptr, d, i);
    Load(store, per, store[ptr][i], d - 1)
  }

  lemma LoadKid(store: Store, per: nat, ptr: nat, d: nat, i: nat)
    requires Readable(store, per, ptr, d) && ptr != 0 && d > 0 && i < per
    ensures Readable(store, per, store[ptr][i], d - 1)
    ensures Load(store, per, ptr, d).kids[i] == Load(store, per, store[ptr][i], d - 1)
  {
    assert ReadableAt(store, per, ptr, d, i);
  }

  lemma {:induction false} LoadShape(store: Store, per: nat, ptr: nat, d: nat)
    requires Readable(store, per, ptr, d)
    ensures Shape(Load(store, per, ptr, d), per, d)
    decreases d
  {
    if ptr != 0 && d > 0 {
      var kids := Load(store, per, ptr, d).kids;
      forall i | 0 <= i < per ensures ShapeAt(kids, per, d, i) {
        LoadKid(store, per, ptr, d, i);
        LoadShape(store, per, store[ptr][i], d - 1);
      }
    }
  }

  /** `store'` still has what `store` has in the given blocks. */
  ghost predicate Keeps(store: Store, store': Store, blocks: multiset<nat>)
  {
    forall b :: b in blocks && b in store ==> b in store' && store'[b] == store[b]
  }

  /** A tree is read from its own blocks alone. */
  lemma {:induction false} LoadFrame(store: Store, store': Store, per: nat, ptr: nat, d: nat)
    requires Readable(store, per, ptr, d) && Keeps(store, store', Blocks(Load(store, per, ptr, d)))
    ensures Readable(store', per, ptr, d) && Load(store', per, ptr, d) == Load(store, per, ptr, d)
    decreases d
  {
    if ptr != 0 && d > 0 {
      var t := Load(store, per, ptr, d);
      assert ptr in Blocks(t);
      forall i | 0 <= i < per ensures Reads(store', per, store'[ptr][i], d - 1, t.kids[i]) {
        LoadKid(store, per, ptr, d, i);
        KidIsOwned(t, per, i);
        LoadFrame(store, store', per, store[ptr][i], d - 1);
      }
      NodeReads(store', per, ptr, d, t.kids);
    }
  }

  /** A block of pointers that read as the kids reads as the node. */
  lemma NodeReads(store: Store, per: nat, ptr: nat, d: nat, kids: seq<Tree>)
    requires ptr != 0 && d > 0 && ptr in store && |store[ptr]| == per == |kids|
    requires forall j :: 0 <= j < per ==> Reads(store, per, store[ptr][j], d - 1, kids[j])
    ensures Reads(store, per, ptr, d, Node(ptr, kids))
  {
    forall i | 0 <= i < per ensures ReadableAt(store, per, ptr, d, i) {
      assert Reads(store, per, store[ptr][i], d - 1, kids[i]);
    }
    var t := Load(store, per, ptr, d);
    forall i | 0 <= i < per ensures t.kids[i] == kids[i] {
      LoadKid(store, per, ptr, d, i);
      assert Reads(store, per, store[ptr][i], d - 1, kids[i]);
    }
    assert t.kids == kids;
  }

  // ---- Truncating in place ----

  lemma {:induction false} KidsBlocksMonotone(a: Tree, b: Tree, n: nat)
    requires a.Node? && b.Node? && n <= |a.kids| == |b.kids|
    requires forall j :: 0 <= j < n ==> Blocks(a.kids[j]) <= Blocks(b.kids[j])
    ensures KidsBlocks(a, n) <= KidsBlocks(b, n)
    decreases n
  {
    if n > 0 {
      KidsBlocksMonotone(a, b, n - 1);
    }
  }

  /** A cut owns no block the tree did not. */
  lemma {:induction false} CutBlocks(t: Tree, per: nat, d: nat, base: nat, cut: nat)
    ensures Blocks(Cut(t, per, d, base, cut)) <= Blocks(t)
    decreases t
  {
    if base + Span(per, d) > cut && base < cut && t.Node? && d > 0 {
      var node := Node(t.block, CutKids(t, per, d, base, cut));
      forall j | 0 <= j < |t.kids| ensures Blocks(node.kids[j]) <= Blocks(t.kids[j]) {
        CutKid(t, per, d, base, cut, j);
        CutBlocks(t.kids[j], per, d - 1, KidBase(per, d, base, j), cut);
      }
      KidsBlocksMonotone(node, t, |t.kids|);
      PruneBlocks(t, node.kids);
    }
  }

  lemma PruneBlocks(t: Tree, kids: seq<Tree>)
    requires t.Node? && |kids| == |t.kids| && KidsBlocks(Node(t.block, kids), |kids|) <= KidsBlocks(t, |kids|)
    ensures Blocks(Prune(t.block, kids)) <= Blocks(t)
  {
  }

  lemma OnlyInMore(was: Store, mid: Store, store: Store, t: Tree, i: nat)
    requires t.Node? && i < |t.kids| && OnlyIn(was, mid, KidsBlocks(t, i)) && OnlyIn(mid, store, Blocks(t.kids[i]))
    ensures OnlyIn(was, store, KidsBlocks(t, i + 1))
  {
  }

  /** The balance of freed and kept blocks, carried over one more pointer. */
  lemma Balance(freed: multiset<nat>, freed': multiset<nat>, freed'': multiset<nat>, cut: Tree, t: Tree, i: nat)
    requires cut.Node? && t.Node? && i < |cut.kids| == |t.kids|
    requires freed' + KidsBlocks(cut, i) == freed + KidsBlocks(t, i)
    requires freed'' + Blocks(cut.kids[i]) == freed' + Blocks(t.kids[i])
    ensures freed'' + KidsBlocks(cut, i + 1) == freed + KidsBlocks(t, i + 1)
  {
    Regroup(freed, freed', freed'', KidsBlocks(cut, i), Blocks(cut.kids[i]), KidsBlocks(t, i), Blocks(t.kids[i]));
  }

  /** The pointer reads as the tree. */
  ghost predicate Reads(store: Store, per: nat, ptr: nat, d: nat, t: Tree)
  {
    Readable(store, per, ptr, d) && Load(store, per, ptr, d) == t
  }

  lemma ReadsElsewhere(store: Store, store': Store, per: nat, ptr: nat, d: nat, t: Tree, changed: multiset<nat>)
    requires Reads(store, per, ptr, d, t) && OnlyIn(store, store', changed) && Blocks(t) !! changed
    ensures Reads(store', per, ptr, d, t)
  {
    LoadFrame(store, store', per, ptr, d);
  }

  /** The pointers `buf` of a node being truncated: the first `i` are cut, the rest as they were. */
  ghost predicate Progress(store: Store, per: nat, t: Tree, d: nat, base: nat, cut: nat, buf: seq<nat>, i: nat)
  {
    && t.Node? && |t.kids| == per == |buf| && d > 0 && i <= per
    && forall j :: 0 <= j < per ==> ReadsAt(store, per, t, d, base, cut, buf, i, j)
  }

  ghost predicate ReadsAt(store: Store, per: nat, t: Tree, d: nat, base: nat, cut: nat, buf: seq<nat>, i: nat, j: nat)
    requires t.Node? && d > 0 && j < |t.kids| && j < |buf|
  {
    Reads(store, per, buf[j], d - 1, KidAt(t, per, d, base, cut, i, j))
  }

  ghost function KidAt(t: Tree, per: nat, d: nat, base: nat, cut: nat, i: nat, j: nat): Tree
    requires t.Node? && d > 0 && j < |t.kids|
  {
    if j < i then CutAt(t, per, d, base, cut, j) else t.kids[j]
  }

  lemma KidAtBlocks(t: Tree, per: nat, d: nat, base: nat, cut: nat, i: nat, j: nat)
    requires t.Node? && d > 0 && j < |t.kids|
    ensures Blocks(KidAt(t, per, d, base, cut, i, j)) <= Blocks(t.kids[j])
  {
    CutBlocks(t.kids[j], per, d - 1, KidBase(per, d, base, j), cut);
  }

  lemma OtherKid(store: Store, store': Store, per: nat, t: Tree, d: nat, base: nat, cut: nat, i: nat, j: nat, ptr: nat)
    requires t.Node? && d > 0 && i < |t.kids| && j < |t.kids| && i != j && Unshared(Blocks(t))
    requires OnlyIn(store, store', Blocks(t.kids[i])) && Reads(store, per, ptr, d - 1, KidAt(t, per, d, base, cut, i, j))
    ensures Reads(store', per, ptr, d - 1, KidAt(t, per, d, base, cut, i, j))
  {
    UnsharedKid(t, i);
    if j < i {
      KidsApart(t, |t.kids|, j, i);
    } else {
      KidsApart(t, |t.kids|, i, j);
    }
    KidAtBlocks(t, per, d, base, cut, i, j);
    ReadsElsewhere(store, store', per, ptr, d - 1, KidAt(t, per, d, base, cut, i, j), Blocks(t.kids[i]));
  }

  /** Truncating one pointer disturbs none of the others. */
  lemma ProgressOn(store: Store, store': Store, per: nat, t: Tree, d: nat, base: nat, cut: nat, buf: seq<nat>, i: nat, ptr: nat)
    requires Progress(store, per, t, d, base, cut, buf, i) && i < per && Unshared(Blocks(t))
    requires OnlyIn(store, store', Blocks(t.kids[i]))
    requires Reads(store', per, ptr, d - 1, KidAt(t, per, d, base, cut, i + 1, i))
    ensures Progress(store', per, t, d, base, cut, buf[i := ptr], i + 1)
  {
    var buf' := buf[i := ptr];
    var next := i + 1;
    forall j | 0 <= j < per ensures ReadsAt(store', per, t, d, base, cut, buf', next, j) {
      if j != i {
        assert ReadsAt(store, per, t, d, base, cut, buf, i, j);
        OtherKid(store, store', per, t, d, base, cut, i, j, buf[j]);
        assert KidAt(t, per, d, base, cut, next, j) == KidAt(t, per, d, base, cut, i, j);
      }
    }
  }

  lemma KidInPlace(store: Store, per: nat, t: Tree, d: nat, base: nat, cut: nat, buf: seq<nat>, j: nat)
    requires Progress(store, per, t, d, base, cut, buf, per) && Unshared(Blocks(t)) && j < per && t.block in store
    ensures CutKids(t, per, d, base, cut)[j] == KidAt(t, per, d, base, cut, per, j)
    ensures Reads(store[t.block := buf], per, buf[j], d - 1, KidAt(t, per, d, base, cut, per, j))
    ensures buf[j] == 0 <==> KidAt(t, per, d, base, cut, per, j).Hole?
  {
    CutKid(t, per, d, base, cut, j);
    assert ReadsAt(store, per, t, d, base, cut, buf, per, j);
    UnsharedKid(t, j);
    KidAtBlocks(t, per, d, base, cut, per, j);
    ReadsElsewhere(store, store[t.block := buf], per, buf[j], d - 1, KidAt(t, per, d, base, cut, per, j), multiset{t.block});
  }

  /** With every pointer cut and the node's block holding them, the node reads as its cut. */
  lemma ProgressDone(store: Store, per: nat, t: Tree, d: nat, base: nat, cut: nat, buf: seq<nat>)
    requires Progress(store, per, t, d, base, cut, buf, per) && Unshared(Blocks(t)) && t.block != 0
    requires 0 < per && base + Span(per, d) > cut && t.block in store
    ensures Cut(t, per, d, base, cut).Hole? <==> forall j :: 0 <= j < per ==> buf[j] == 0
    ensures !Cut(t, per, d, base, cut).Hole? ==> Reads(store[t.block := buf], per, t.block, d, Cut(t, per, d, base, cut))
  {
    var kids, store' := CutKids(t, per, d, base, cut), store[t.block := buf];
    forall j | 0 <= j < per ensures Reads(store', per, buf[j], d - 1, kids[j]) && (buf[j] == 0 <==> kids[j].Hole?) {
      KidInPlace(store, per, t, d, base, cut, buf, j);
    }
    CutNode(t, per, d, base, cut);
    PruneReads(store', per, t.block, d, kids);
  }

  lemma PruneReads(store: Store, per: nat, ptr: nat, d: nat, kids: seq<Tree>)
    requires ptr != 0 && d > 0 && ptr in store && |store[ptr]| == per == |kids|
    requires forall j :: 0 <= j < per ==> Reads(store, per, store[ptr][j], d - 1, kids[j])
    ensures !Prune(ptr, kids).Hole? ==> Reads(store, per, ptr, d, Prune(ptr, kids))
  {
    NodeReads(store, per, ptr, d, kids);
  }
}
