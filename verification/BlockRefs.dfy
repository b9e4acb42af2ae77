// What a walk of a block map visits: data blocks with their logical numbers,
// and the blocks the map itself is made of.
module BlockRefs {

  /** A block a walk comes to: a data block with its logical number, or an indirect block. */
  datatype Ref = DataRef(logical: nat, physical: nat) | MetaRef(physical: nat)

  /** What has been visited: the visits, and the blocks they come to. */
  datatype Bag = Bag(refs: multiset<Ref>, blocks: multiset<nat>)

  const NOTHING: Bag := Bag(multiset{}, multiset{})

  function One(r: Ref): Bag
  {
    Bag(multiset{r}, multiset{r.physical})
  }

  function Plus(a: Bag, b: Bag): Bag
  {
    Bag(a.refs + b.refs, a.blocks + b.blocks)
  }

  lemma PlusAssociates(a: Bag, b: Bag, c: Bag)
    ensures Plus(Plus(a, b), c) == Plus(a, Plus(b, c))
  {
    assert a.refs + b.refs + c.refs == a.refs + (b.refs + c.refs);
    assert a.blocks + b.blocks + c.blocks == a.blocks + (b.blocks + c.blocks);
  }

  lemma PlusCommutes(a: Bag, b: Bag)
    ensures Plus(a, b) == Plus(b, a)
  {
    assert a.refs + b.refs == b.refs + a.refs;
    assert a.blocks + b.blocks == b.blocks + a.blocks;
  }

  /** What a list of visits amounts to. */
  ghost function Seen(visits: seq<Ref>): Bag
  {
    Bag(multiset(visits), Physicals(visits))
  }

  /** The blocks a list of visits comes to, as often as it does. */
  function Physicals(visits: seq<Ref>): multiset<nat>
  {
    if visits == [] then multiset{} else Physicals(visits[..|visits| - 1]) + multiset{visits[|visits| - 1].physical}
  }

  lemma SeenOneMore(visits: seq<Ref>, r: Ref)
    ensures Seen(visits + [r]) == Plus(Seen(visits), One(r))
  {
    assert (visits + [r])[..|visits|] == visits;
  }

  lemma PlusNothing(a: Bag)
    ensures Plus(a, NOTHING) == a
  {
    assert a.refs + multiset{} == a.refs;
    assert a.blocks + multiset{} == a.blocks;
  }

  lemma NothingPlus(a: Bag)
    ensures Plus(NOTHING, a) == a
  {
    assert multiset{} + a.refs == a.refs;
    assert multiset{} + a.blocks == a.blocks;
  }

  lemma Shuffle(a: Bag, b: Bag, c: Bag, d: Bag)
    ensures Plus(Plus(a, b), Plus(c, d)) == Plus(Plus(a, c), Plus(b, d))
  {
    PlusAssociates(Plus(a, b), c, d);
    PlusAssociates(a, b, c);
    PlusCommutes(b, c);
    PlusAssociates(a, c, b);
    PlusAssociates(Plus(a, c), b, d);
  }
}
