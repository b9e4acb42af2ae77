// Blocks owned, freed and kept, as multisets, and stores that differ in some
// blocks only.
module BlockSets {

  /** No block occurs twice. */
  ghost predicate Unshared(m: multiset<nat>)
  {
    forall b :: m[b] <= 1
  }

  lemma UnsharedPart(a: multiset<nat>, b: multiset<nat>, whole: multiset<nat>)
    requires Unshared(whole) && a + b <= whole
    ensures Unshared(a) && Unshared(b) && a !! b
  {
    assert forall x :: a[x] + b[x] == (a + b)[x] <= whole[x];
  }

  lemma AddNothing(m: multiset<nat>)
    ensures m + multiset{} == m
  {
  }

  lemma AddAssociates(a: multiset<nat>, b: multiset<nat>, c: multiset<nat>)
    ensures a + b + c == a + (b + c)
  {
  }

  lemma AddCommutes(a: multiset<nat>, b: multiset<nat>)
    ensures a + b == b + a
  {
  }

  lemma SumWithin(a: multiset<nat>, b: multiset<nat>, x: multiset<nat>, y: multiset<nat>, p: multiset<nat>, q: multiset<nat>)
    requires a <= b && x <= y && p == a + x && q == b + y
    ensures p <= q
  {
  }

  /** Two balances, of blocks freed and kept against blocks owned, one after the other. */
  lemma Regroup(a: multiset<nat>, b: multiset<nat>, c: multiset<nat>, p: multiset<nat>, q: multiset<nat>, r: multiset<nat>, s: multiset<nat>)
    requires b + p == a + r && c + q == b + s
    ensures c + (p + q) == a + (r + s)
  {
    assert c + (p + q) == (c + q) + p;
    assert (b + s) + p == (b + p) + s;
  }

  /** Only the given blocks differ between the two stores. */
  ghost predicate OnlyIn<Content>(store: map<nat, Content>, store': map<nat, Content>, blocks: multiset<nat>)
  {
    store.Keys == store'.Keys && forall b :: b in store && b !in blocks ==> store'[b] == store[b]
  }
}
