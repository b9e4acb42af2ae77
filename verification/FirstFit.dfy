// The first run of free blocks at or after a block.
module FirstFit {

  /** The `len` blocks from `s` are below `limit` and none of them is taken. */
  ghost predicate Fits(taken: nat -> bool, limit: nat, s: nat, len: nat)
  {
    s + len <= limit && forall b: nat :: s <= b < s + len ==> !taken(b)
  }

  ghost predicate NoneBefore(taken: nat -> bool, limit: nat, from: nat, len: nat, s: nat)
  {
    forall x: nat :: from <= x < s ==> !Fits(taken, limit, x, len)
  }

  /** `s` is the first place at or after `from` where `len` blocks fit. */
  ghost predicate IsFirst(taken: nat -> bool, limit: nat, from: nat, len: nat, s: nat)
  {
    from <= s && Fits(taken, limit, s, len) && NoneBefore(taken, limit, from, len, s)
  }

  /** `len` blocks fit nowhere at or after `from`. */
  ghost predicate NoFit(taken: nat -> bool, limit: nat, from: nat, len: nat)
  {
    forall x: nat :: from <= x ==> !Fits(taken, limit, x, len)
  }

  /** A taken block rules out every place whose run would cover it. */
  lemma Blocked(taken: nat -> bool, limit: nat, from: nat, len: nat, s: nat, b: nat)
    requires NoneBefore(taken, limit, from, len, s) && s <= b < s + len && taken(b)
    ensures NoneBefore(taken, limit, from, len, b + 1)
  {
  }

  lemma PastTheEnd(taken: nat -> bool, limit: nat, from: nat, len: nat, s: nat)
    requires NoneBefore(taken, limit, from, len, s) && s + len > limit
    ensures NoFit(taken, limit, from, len)
  {
  }

  /** There is one first place. */
  lemma FirstIsUnique(taken: nat -> bool, limit: nat, from: nat, len: nat, s: nat, s': nat)
    requires IsFirst(taken, limit, from, len, s) && IsFirst(taken, limit, from, len, s')
    ensures s == s' && !NoFit(taken, limit, from, len)
  {
  }
}
