// Directories with a hash index: finding a name through the index, and by
// reading the directory.
module HashIndex {
  import opened Options

  datatype Dirent = Dirent(inode: nat, name: string)

  /** An index entry: everything from `hash` up to the next entry's is in or under logical block `block`. */
  datatype Dx = Dx(hash: nat, block: nat)

  /** A directory block: the root of the index, with its own two names, an interior node, or names. */
  datatype DirBlock =
    | Root(entries: seq<Dirent>, levels: nat, dx: seq<Dx>)
    | Node(dx: seq<Dx>)
    | Leaf(entries: seq<Dirent>)

  /** A directory's logical blocks; a hole has none. */
  datatype Directory = Directory(count: nat, blocks: map<nat, DirBlock>)

  function Parse(b: DirBlock): seq<Dirent>
  {
    if b.Node? then [] else b.entries
  }

  /** Entry `i` of logical block `l` is a name, and not a gap or a checksum. */
  predicate Lists(d: Directory, l: nat, i: nat)
  {
    l < d.count && l in d.blocks && i < |Parse(d.blocks[l])| && Parse(d.blocks[l])[i].inode != 0 && Parse(d.blocks[l])[i].name != ""
  }

  function EntryAt(d: Directory, l: nat, i: nat): Dirent
    requires Lists(d, l, i)
  {
    Parse(d.blocks[l])[i]
  }

  /** Whether the name is in block `l`. */
  ghost predicate HasName(d: Directory, l: nat, name: string)
  {
    exists i: nat :: Lists(d, l, i) && EntryAt(d, l, i).name == name
  }

  /** What looking a name up should answer. */
  ghost predicate Answers(d: Directory, name: string, r: Option<nat>)
  {
    match r
    case None => forall l: nat :: !HasName(d, l, name)
    case Some(ino) => exists l: nat, i: nat :: Lists(d, l, i) && EntryAt(d, l, i) == Dirent(ino, name)
  }

  /** An answer is a number other than zero that some entry of the directory has with the name; none, where the name is only in
    * entries with no inode. */
  lemma AnswersAreLive(d: Directory, name: string, r: Option<nat>)
    requires name != "" && Answers(d, name, r)
    ensures r.Some? ==> r.value != 0 && exists l: nat, i: nat ::
              l < d.count && l in d.blocks && !d.blocks[l].Node? && i < |d.blocks[l].entries| && d.blocks[l].entries[i] == Dirent(r.value, name)
    ensures r.None? ==> forall l: nat, i: nat ::
              l < d.count && l in d.blocks && !d.blocks[l].Node? && i < |d.blocks[l].entries| && d.blocks[l].entries[i].name == name ==>
                d.blocks[l].entries[i].inode == 0
  {
    if r.Some? {
      var l: nat, i: nat :| Lists(d, l, i) && EntryAt(d, l, i) == Dirent(r.value, name);
    } else {
      forall l: nat, i: nat | l < d.count && l in d.blocks && !d.blocks[l].Node? && i < |d.blocks[l].entries| && d.blocks[l].entries[i].name == name
        ensures d.blocks[l].entries[i].inode == 0
      {
        assert !HasName(d, l, name);
        assert d.blocks[l].entries[i].inode != 0 ==> Lists(d, l, i);
      }
    }
  }

  /** No name is listed twice. */
  ghost predicate NamesUnique(d: Directory)
  {
    forall l: nat, i: nat, m: nat, j: nat ::
      Lists(d, l, i) && Lists(d, m, j) && EntryAt(d, l, i).name == EntryAt(d, m, j).name ==> l == m && i == j
  }

  /** A name then has one answer. */
  lemma AnswerIsUnique(d: Directory, name: string, a: Option<nat>, b: Option<nat>)
    requires NamesUnique(d) && Answers(d, name, a) && Answers(d, name, b)
    ensures a == b
  {
    if a.Some? {
      var l, i :| Lists(d, l, i) && EntryAt(d, l, i) == Dirent(a.value, name);
      assert HasName(d, l, name);
    }
    if b.Some? {
      var l, i :| Lists(d, l, i) && EntryAt(d, l, i) == Dirent(b.value, name);
      assert HasName(d, l, name);
    }
  }

  // ---- Reading the directory ----

  method SearchBlock(d: Directory, l: nat, name: string) returns (r: Option<nat>)
    requires l < d.count && name != ""
    ensures match r
            case None => !HasName(d, l, name)
            case Some(ino) => ino != 0 && exists i: nat :: Lists(d, l, i) && EntryAt(d, l, i) == Dirent(ino, name)
  {
    if l !in d.blocks {
      return None;
    }
    var entries := Parse(d.blocks[l]);
    for i := 0 to |entries|
      invariant forall j: nat :: j < i && Lists(d, l, j) ==> EntryAt(d, l, j).name != name
    {
      if entries[i].inode != 0 && entries[i].name == name {
        assert Lists(d, l, i) && EntryAt(d, l, i) == Dirent(entries[i].inode, name);
        return Some(entries[i].inode);
      }
    }
    return None;
  }

  /** The first entry of the directory with the name. */
  method LinearSearch(d: Directory, name: string) returns (r: Option<nat>)
    requires name != ""
    ensures Answers(d, name, r) && r != Some(0)
  {
    for l := 0 to d.count
      invariant forall m: nat :: m < l ==> !HasName(d, m, name)
    {
      r := SearchBlock(d, l, name);
      if r.Some? {
        return;
      }
    }
    return None;
  }

  // ---- The index ----

  function LowBit(h: nat): nat
  {
    h % 2
  }

  /** Index entries in order; entry zero's hash is not one. */
  ghost predicate Ascending(dx: seq<Dx>)
  {
    forall i, j :: 1 <= i < j < |dx| ==> dx[i].hash <= dx[j].hash
  }

  /** The names of a leaf: below the next entry's hash, and at or past its own, or one short of it: hashes of names are even,
    * and an entry one past is odd, which says that the run of names with that hash began in the leaf before. */
  ghost predicate LeafFits(d: Directory, hash: string -> nat, dx: seq<Dx>, i: nat)
    requires i < |dx|
  {
    forall k: nat :: Lists(d, dx[i].block, k) ==>
      var h := hash(EntryAt(d, dx[i].block, k).name);
      && (1 <= i ==> dx[i].hash <= h + 1)
      && (i + 1 < |dx| ==> h < dx[i + 1].hash)
  }

  ghost predicate NodeFits(d: Directory, hash: string -> nat, dx: seq<Dx>)
  {
    dx != [] && Ascending(dx) && forall i :: 0 <= i < |dx| ==> 0 < dx[i].block < d.count && LeafFits(d, hash, dx, i)
  }

  /** Names under entry `k` of the root: no run of one hash goes on from one interior node to the next. */
  ghost predicate UnderFits(d: Directory, hash: string -> nat, dx: seq<Dx>, k: nat, node: seq<Dx>)
    requires k < |dx|
  {
    forall i, e: nat :: 0 <= i < |node| && Lists(d, node[i].block, e) ==>
      var h := hash(EntryAt(d, node[i].block, e).name);
      (1 <= k ==> dx[k].hash <= h) && (k + 1 < |dx| ==> h < dx[k + 1].hash)
  }

  ghost predicate PointsTo(dx: seq<Dx>, l: nat)
  {
    exists i :: 0 <= i < |dx| && dx[i].block == l
  }

  ghost predicate InteriorFits(d: Directory, hash: string -> nat, dx: seq<Dx>, k: nat)
    requires k < |dx|
  {
    dx[k].block in d.blocks && d.blocks[dx[k].block].Node? ==>
      NodeFits(d, hash, d.blocks[dx[k].block].dx) && UnderFits(d, hash, dx, k, d.blocks[dx[k].block].dx)
  }

  /** A well-formed index of one or two levels: every block with names is one of its leaves. */
  ghost predicate Indexed(d: Directory, hash: string -> nat)
  {
    && (forall name :: hash(name) % 2 == 0)
    && 0 in d.blocks && d.blocks[0].Root? && d.blocks[0].levels <= 1
    && (forall i: nat :: Lists(d, 0, i) ==> EntryAt(d, 0, i).name == "." || EntryAt(d, 0, i).name == "..")
    && var dx := d.blocks[0].dx;
       if d.blocks[0].levels == 0 then
         NodeFits(d, hash, dx) && (forall l: nat, i: nat :: 0 < l && Lists(d, l, i) ==> PointsTo(dx, l))
       else
         && dx != [] && Ascending(dx) && (forall k :: 0 <= k < |dx| ==> InteriorFits(d, hash, dx, k))
         && (forall l: nat, i: nat :: 0 < l && Lists(d, l, i) ==> exists k :: 0 <= k < |dx| && UnderPoints(d, dx[k].block, l))
  }

  /** Logical block `b` is an interior node that points to `l`. */
  ghost predicate UnderPoints(d: Directory, b: nat, l: nat)
  {
    b in d.blocks && d.blocks[b].Node? && PointsTo(d.blocks[b].dx, l)
  }

  /** The last entry whose hash is not past the one wanted; entry zero covers everything before entry one. */
  method Find(dx: seq<Dx>, h: nat) returns (chosen: nat)
    requires dx != []
    ensures chosen < |dx| && (1 <= chosen ==> dx[chosen].hash <= h) && (chosen + 1 < |dx| ==> h < dx[chosen + 1].hash)
  {
    chosen := 0;
    for i := 1 to |dx|
      invariant chosen == i - 1 && (1 <= chosen ==> dx[chosen].hash <= h)
    {
      if dx[i].hash > h {
        return;
      }
      chosen := i;
    }
  }

  /** A leaf that has a name with hash `h` is the chosen one or follows it in a run of odd hashes. */
  lemma LeafInRun(d: Directory, hash: string -> nat, dx: seq<Dx>, name: string, chosen: nat, j: nat)
    requires NodeFits(d, hash, dx) && hash(name) % 2 == 0 && chosen < |dx| && j < |dx| && HasName(d, dx[j].block, name)
    requires 1 <= chosen ==> dx[chosen].hash <= hash(name)
    requires chosen + 1 < |dx| ==> hash(name) < dx[chosen + 1].hash
    ensures chosen <= j && forall k :: chosen < k <= j ==> LowBit(dx[k].hash) == 1
  {
    var h := hash(name);
    assert LeafFits(d, hash, dx, j);
    if j < chosen {
      assert false;
    }
    forall k | chosen < k <= j ensures LowBit(dx[k].hash) == 1 {
      assert h < dx[chosen + 1].hash <= dx[k].hash <= dx[j].hash;
      assert dx[j].hash <= h + 1;
    }
  }

  /** A block of names, not the root, lists the name. */
  ghost predicate FoundInLeaf(d: Directory, name: string, ino: nat)
  {
    exists l: nat, i: nat :: 0 < l && Lists(d, l, i) && EntryAt(d, l, i) == Dirent(ino, name)
  }

  /** Every block the entries point to is there. */
  predicate AllThere(d: Directory, dx: seq<Dx>)
  {
    forall i :: 0 <= i < |dx| ==> dx[i].block in d.blocks
  }

  /** The index can be followed wherever it leads: no hole, and interior nodes where the root points to them. */
  predicate Followable(d: Directory)
    requires 0 in d.blocks && d.blocks[0].Root?
  {
    var dx := d.blocks[0].dx;
    && AllThere(d, dx)
    && (d.blocks[0].levels > 0 ==>
          forall k :: 0 <= k < |dx| ==> d.blocks[dx[k].block].Node? && AllThere(d, d.blocks[dx[k].block].dx))
  }

  /** Looks through the chosen leaf and those that go on with its hash. */
  method SearchRun(d: Directory, hash: string -> nat, dx: seq<Dx>, name: string) returns (usable: bool, r: Option<nat>)
    requires NodeFits(d, hash, dx) && hash(name) % 2 == 0 && name != ""
    ensures usable ==> match r
            case None => forall j :: 0 <= j < |dx| ==> !HasName(d, dx[j].block, name)
            case Some(ino) => FoundInLeaf(d, name, ino)
    ensures AllThere(d, dx) ==> usable
    ensures r != Some(0)
  {
    var chosen := Find(dx, hash(name));
    var at := chosen;
    while true
      invariant chosen <= at < |dx| && forall j :: chosen <= j < at ==> !HasName(d, dx[j].block, name)
      decreases |dx| - at
    {
      if dx[at].block !in d.blocks {
        return false, None;
      }
      r := SearchBlock(d, dx[at].block, name);
      if r.Some? {
        return true, r;
      }
      at := at + 1;
      if at >= |dx| || LowBit(dx[at].hash) == 0 {
        NotInOthers(d, hash, dx, name, chosen, at);
        return true, None;
      }
    }
  }

  lemma NotInOthers(d: Directory, hash: string -> nat, dx: seq<Dx>, name: string, chosen: nat, at: nat)
    requires NodeFits(d, hash, dx) && hash(name) % 2 == 0 && chosen < at <= |dx|
    requires 1 <= chosen ==> dx[chosen].hash <= hash(name)
    requires chosen + 1 < |dx| ==> hash(name) < dx[chosen + 1].hash
    requires forall j :: chosen <= j < at ==> !HasName(d, dx[j].block, name)
    requires at < |dx| ==> LowBit(dx[at].hash) == 0
    ensures forall j :: 0 <= j < |dx| ==> !HasName(d, dx[j].block, name)
  {
    forall j | 0 <= j < |dx| ensures !HasName(d, dx[j].block, name) {
      if HasName(d, dx[j].block, name) {
        LeafInRun(d, hash, dx, name, chosen, j);
      }
    }
  }

  /** Names with the hash are under the chosen interior node alone. */
  lemma OneNode(d: Directory, hash: string -> nat, name: string, chosen: nat, k: nat, l: nat)
    requires Indexed(d, hash) && d.blocks[0].levels == 1 && chosen < |d.blocks[0].dx| && k < |d.blocks[0].dx|
    requires var dx := d.blocks[0].dx; 1 <= chosen ==> dx[chosen].hash <= hash(name)
    requires var dx := d.blocks[0].dx; chosen + 1 < |dx| ==> hash(name) < dx[chosen + 1].hash
    requires HasName(d, l, name) && UnderPoints(d, d.blocks[0].dx[k].block, l)
    ensures k == chosen
  {
    var dx := d.blocks[0].dx;
    var node := d.blocks[dx[k].block].dx;
    assert InteriorFits(d, hash, dx, k);
    var i :| 0 <= i < |node| && node[i].block == l;
    var e: nat :| Lists(d, l, e) && EntryAt(d, l, e).name == name;
    assert Lists(d, node[i].block, e);
    if k != chosen {
      assert false;
    }
  }

  /** Looks a name up through the index; unusable means that the directory has to be read. */
  method LookupIndexed(d: Directory, hash: string -> nat, name: string) returns (usable: bool, r: Option<nat>)
    requires Indexed(d, hash) && name != ""
    ensures usable ==> match r
            case None => forall l: nat :: 0 < l ==> !HasName(d, l, name)
            case Some(ino) => FoundInLeaf(d, name, ino)
    ensures Followable(d) ==> usable
    ensures r != Some(0)
  {
    var dx := d.blocks[0].dx;
    if d.blocks[0].levels == 0 {
      usable, r := SearchRun(d, hash, dx, name);
      return;
    }
    var chosen := Find(dx, hash(name));
    var child := dx[chosen].block;
    if child !in d.blocks || !d.blocks[child].Node? {
      return false, None;
    }
    assert InteriorFits(d, hash, dx, chosen);
    usable, r := SearchRun(d, hash, d.blocks[child].dx, name);
    if usable && r.None? {
      forall l: nat | 0 < l ensures !HasName(d, l, name) {
        if HasName(d, l, name) {
          var e: nat :| Lists(d, l, e) && EntryAt(d, l, e).name == name;
          var k :| 0 <= k < |dx| && UnderPoints(d, dx[k].block, l);
          OneNode(d, hash, name, chosen, k, l);
        }
      }
    }
  }

  /** An answer from the index is right exactly for the names the root block does not list itself: for `.` and `..`,
    * which it does, the index answers that there is no such name. */
  lemma IndexAnswers(d: Directory, hash: string -> nat, name: string, r: Option<nat>)
    requires Indexed(d, hash) && NamesUnique(d)
    requires match r
             case None => forall l: nat :: 0 < l ==> !HasName(d, l, name)
             case Some(ino) => FoundInLeaf(d, name, ino)
    ensures Answers(d, name, r) <==> !HasName(d, 0, name)
    ensures name != "." && name != ".." ==> !HasName(d, 0, name)
  {
  }

  /** A directory of one leaf. */
  const SMALL: Directory := Directory(2, map[0 := Root([Dirent(2, "."), Dirent(2, "..")], 0, [Dx(0, 1)]), 1 := Leaf([Dirent(12, "a")])])

  lemma SmallIsIndexed()
    ensures Indexed(SMALL, (n: string) => 0) && NamesUnique(SMALL) && HasName(SMALL, 0, ".") && Followable(SMALL)
  {
    var hash := (n: string) => 0;
    assert Lists(SMALL, 0, 0) && EntryAt(SMALL, 0, 0).name == ".";
    assert PointsTo([Dx(0, 1)], 1) by {
      assert [Dx(0, 1)][0].block == 1;
    }
    assert "."[0] == '.' && |"."| == 1 && |".."| == 2 && "a"[0] == 'a';
    assert NodeFits(SMALL, hash, [Dx(0, 1)]);
  }

  /** Looking `.` up in it: the index is used and answers that there is no such name, though the directory lists it. */
  method DotIsMissed() returns (usable: bool, r: Option<nat>)
    ensures usable && r == None && HasName(SMALL, 0, ".") && !Answers(SMALL, ".", r)
  {
    var hash := (n: string) => 0;
    SmallIsIndexed();
    assert "." != "";
    usable, r := LookupIndexed(SMALL, hash, ".");
    IndexAnswers(SMALL, hash, ".", r);
    OnlyTheRootHasDot();
  }

  lemma OnlyTheRootHasDot()
    ensures forall ino: nat :: !FoundInLeaf(SMALL, ".", ino)
  {
    assert "."[0] == '.' && "a"[0] == 'a';
    forall l: nat, i: nat | 0 < l && Lists(SMALL, l, i) ensures EntryAt(SMALL, l, i).name == "a" {
    }
  }

  /** Looks a name up, through the index when there is one it can use. The answer is right unless it comes from an index
    * whose root block lists the name itself. */
  method Lookup(d: Directory, hash: string -> nat, indexed: bool, name: string) returns (r: Option<nat>)
    requires name != "" && (indexed ==> Indexed(d, hash) && NamesUnique(d))
    ensures !indexed || !HasName(d, 0, name) ==> Answers(d, name, r)
    ensures indexed && Followable(d) ==> (Answers(d, name, r) <==> !HasName(d, 0, name))
    ensures r != Some(0)
  {
    if indexed {
      var usable;
      usable, r := LookupIndexed(d, hash, name);
      if usable {
        IndexAnswers(d, hash, name, r);
        return;
      }
    }
    r := LinearSearch(d, name);
  }
}
