// Products, quotients and powers, said so that the verifier can follow them:
// a line of equal blocks, each starting where the one before it ends.
module Arith {

  function Max(a: nat, b: nat): nat
  {
    if a < b then b else a
  }

  lemma MulGrows(d: nat, m: nat)
    requires 0 < d
    ensures m <= d * m
  {
    if d > 1 {
      MulGrows(d - 1, m);
      MulSplit(d - 1, 1, m);
    }
  }

  lemma MulSplit(a: int, b: int, m: int)
    ensures (a + b) * m == a * m + b * m
  {
  }

  /** A number has one quotient and one remainder. */
  lemma DivModUnique(x: int, m: nat, q: int, r: nat)
    requires r < m && x == q * m + r
    ensures x / m == q && x % m == r
  {
    var d := x / m - q;
    MulSplit(x / m, -q, m);
    MulSplit(q, -q, m);
    assert d * m == r - x % m;
    if d > 0 {
      MulGrows(d, m);
    } else if d < 0 {
      MulGrows(-d, m);
      MulSplit(d, -d, m);
    }
  }

  lemma DivBounds(x: nat, m: nat)
    requires 0 < m
    ensures x / m * m <= x < x / m * m + m
  {
  }

  lemma MulMonotone(a: nat, b: nat, m: nat)
    requires a <= b
    ensures a * m <= b * m
    ensures a < b ==> a * m + m <= b * m
  {
    MulSplit(a, b - a, m);
    if a < b {
      MulGrows(b - a, m);
    }
  }

  /** First byte of block `blk`, block after block: the product `blk * bs`. */
  function Start(bs: nat, blk: nat): (r: nat)
    ensures 0 < blk ==> bs <= r
  {
    if blk == 0 then 0 else Start(bs, blk - 1) + bs
  }

  lemma {:induction false} StartIsProduct(bs: nat, blk: nat)
    ensures Start(bs, blk) == blk * bs
  {
    if blk > 0 {
      StartIsProduct(bs, blk - 1);
    }
  }

  lemma {:induction false} StartMonotone(bs: nat, a: nat, b: nat)
    requires a <= b
    ensures Start(bs, a) <= Start(bs, b)
    ensures a < b ==> Start(bs, a) + bs <= Start(bs, b)
  {
    if a < b {
      StartMonotone(bs, a, b - 1);
    }
  }

  /** The block byte `x` is in: the quotient `x / bs`. */
  function BlockOf(bs: nat, x: nat): (r: nat)
    requires 0 < bs
    ensures Start(bs, r) <= x < Start(bs, r) + bs
  {
    if x < bs then 0 else BlockOf(bs, x - bs) + 1
  }

  lemma {:induction false} BlockOfIsQuotient(bs: nat, x: nat)
    requires 0 < bs
    ensures Start(bs, BlockOf(bs, x)) <= x < Start(bs, BlockOf(bs, x)) + bs
    ensures BlockOf(bs, x) == x / bs
  {
    if x >= bs {
      BlockOfIsQuotient(bs, x - bs);
    }
    StartIsProduct(bs, BlockOf(bs, x));
    DivModUnique(x, bs, BlockOf(bs, x), x - BlockOf(bs, x) * bs);
  }

  /** Block `i` holds exactly the numbers from its start up to the next one's. */
  lemma BlockOfStart(bs: nat, i: nat, off: nat)
    requires off < bs
    ensures BlockOf(bs, Start(bs, i) + off) == i
  {
    BlockOfIsQuotient(bs, Start(bs, i) + off);
    var q := BlockOf(bs, Start(bs, i) + off);
    if q < i {
      StartMonotone(bs, q, i);
    } else if i < q {
      StartMonotone(bs, i, q);
    }
  }

  /** The digits of a number: dropping high ones does not change the low ones. */
  lemma Digits(x: nat, s: nat, p: nat)
    requires 0 < s && 0 < p
    ensures 0 < p * s && x % (p * s) / s == x / s % p && x % (p * s) % s == x % s
  {
    var a, b := x / s, x % s;
    var c, e := a / p, a % p;
    MulGrows(p, s);
    calc {
      x;
      a * s + b;
      (c * p + e) * s + b;
      { MulSplit(c * p, e, s); }
      c * p * s + e * s + b;
      c * (p * s) + (e * s + b);
    }
    MulMonotone(e, p, s);
    MulNonneg(e, s);
    DivModUnique(x, p * s, c, e * s + b);
    DivModUnique(e * s + b, s, e, b);
  }

  lemma MulNonneg(a: nat, b: nat)
    ensures 0 <= a * b
  {
  }
}
