// Bitmaps of blocks: one bit a block, low bits of a byte first.
module Bitmaps {

  /** The byte with only bit `k` set. */
  function Mask(k: nat): bv8
    requires k < 8
  {
    match k
    case 0 => 1
    case 1 => 2
    case 2 => 4
    case 3 => 8
    case 4 => 16
    case 5 => 32
    case 6 => 64
    case _ => 128
  }

  predicate Bit(b: bv8, k: nat)
    requires k < 8
  {
    b & Mask(k) != 0
  }

  lemma SetOneBit(b: bv8, k: nat, j: nat)
    requires k < 8 && j < 8
    ensures Bit(b | Mask(k), j) <==> Bit(b, j) || j == k
  {
  }

  lemma ClearOneBit(b: bv8, k: nat, j: nat)
    requires k < 8 && j < 8
    ensures Bit(b & !Mask(k), j) <==> Bit(b, j) && j != k
  {
  }

  lemma FullByte(j: nat)
    requires j < 8
    ensures Bit(0xff, j) && !Bit(0, j)
  {
  }

  /** Bit `k` stands for `2^k` in the byte's value. */
  lemma BitIsDigit(b: bv8, k: nat)
    requires k < 8
    ensures Bit(b, 0) <==> b % 2 == 1
    ensures 0 < k ==> (Bit(b, k) <==> Bit(b / 2, k - 1))
  {
  }

  lemma SameBits(a: bv8, b: bv8)
    requires forall k :: 0 <= k < 8 ==> (Bit(a, k) <==> Bit(b, k))
    ensures a == b
  {
    assert Bit(a, 0) <==> Bit(b, 0);
    assert Bit(a, 1) <==> Bit(b, 1);
    assert Bit(a, 2) <==> Bit(b, 2);
    assert Bit(a, 3) <==> Bit(b, 3);
    assert Bit(a, 4) <==> Bit(b, 4);
    assert Bit(a, 5) <==> Bit(b, 5);
    assert Bit(a, 6) <==> Bit(b, 6);
    assert Bit(a, 7) <==> Bit(b, 7);
  }

  /** Bit `i` of a bitmap; there are none past its end. */
  predicate Test(s: seq<bv8>, i: nat)
  {
    i / 8 < |s| && Bit(s[i / 8], i % 8)
  }

  /** Bitmaps of one length with the same bits are the same bytes. */
  lemma SameBitmap(s: seq<bv8>, t: seq<bv8>)
    requires |s| == |t| && forall i: nat :: i < 8 * |s| ==> (Test(s, i) <==> Test(t, i))
    ensures s == t
  {
    forall n | 0 <= n < |s| ensures s[n] == t[n] {
      forall k | 0 <= k < 8 ensures Bit(s[n], k) <==> Bit(t[n], k) {
        assert (8 * n + k) / 8 == n && (8 * n + k) % 8 == k;
        assert Test(s, 8 * n + k) <==> Test(t, 8 * n + k);
      }
      SameBits(s[n], t[n]);
    }
  }

  // ---- Setting and clearing one bit ----

  lemma SetTest(s: seq<bv8>, i: nat, j: nat)
    requires i < 8 * |s|
    ensures Test(s[i / 8 := s[i / 8] | Mask(i % 8)], j) <==> Test(s, j) || j == i
  {
    if j / 8 == i / 8 {
      SetOneBit(s[i / 8], i % 8, j % 8);
    }
  }

  lemma ClearTest(s: seq<bv8>, i: nat, j: nat)
    requires i < 8 * |s|
    ensures Test(s[i / 8 := s[i / 8] & !Mask(i % 8)], j) <==> Test(s, j) && j != i
  {
    if j / 8 == i / 8 {
      ClearOneBit(s[i / 8], i % 8, j % 8);
    }
  }

  /** How many of the first `n` bits are set. */
  function Ones(s: seq<bv8>, n: nat): nat
  {
    if n == 0 then 0 else Ones(s, n - 1) + if Test(s, n - 1) then 1 else 0
  }

  // ---- Marking a range ----

  /** `t` is `s` with bits `lo` up to `hi` set. */
  ghost predicate Marks(s: seq<bv8>, t: seq<bv8>, lo: nat, hi: nat)
  {
    |s| == |t| && forall i: nat :: i < 8 * |s| ==> Marked(s, t, lo, hi, i)
  }

  ghost predicate Marked(s: seq<bv8>, t: seq<bv8>, lo: nat, hi: nat, i: nat)
  {
    Test(t, i) <==> Test(s, i) || lo <= i < hi
  }

  lemma MarkOne(s: seq<bv8>, t: seq<bv8>, lo: nat, i: nat)
    requires Marks(s, t, lo, i) && lo <= i < 8 * |s|
    ensures Marks(s, t[i / 8 := t[i / 8] | Mask(i % 8)], lo, i + 1)
  {
    var t', next := t[i / 8 := t[i / 8] | Mask(i % 8)], i + 1;
    forall j: nat | j < 8 * |s| ensures Marked(s, t', lo, next, j) {
      assert Marked(s, t, lo, i, j);
      SetTest(t, i, j);
    }
  }

  /** Whole bytes set at once. */
  lemma MarkBytes(s: seq<bv8>, t: seq<bv8>, t': seq<bv8>, lo: nat, at: nat, n: nat)
    requires Marks(s, t, lo, 8 * at) && lo <= 8 * at && at + n <= |s| == |t'|
    requires forall k :: 0 <= k < |s| ==> t'[k] == if at <= k < at + n then 0xff else t[k]
    ensures Marks(s, t', lo, 8 * (at + n))
  {
    var next := 8 * (at + n);
    forall j: nat | j < 8 * |s| ensures Marked(s, t', lo, next, j) {
      assert Marked(s, t, lo, 8 * at, j);
      FullByte(j % 8);
    }
  }

  /** Sets bits `start` up to `end`, whole bytes where it can. */
  method SetBits(bitmap: array<bv8>, start: nat, end: nat)
    modifies bitmap
    ensures Marks(old(bitmap[..]), bitmap[..], start, end)
  {
    var last := if end < 8 * bitmap.Length then end else 8 * bitmap.Length;
    ghost var was := bitmap[..];
    var bit := start;
    while bit < last
      invariant start <= bit && (bit <= last || bit == start) && Marks(was, bitmap[..], start, bit)
      decreases last - bit
    {
      ghost var now := bitmap[..];
      if bit % 8 == 0 && last - bit >= 8 {
        var bytes, at := (last - bit) / 8, bit / 8;
        forall k | at <= k < at + bytes {
          bitmap[k] := 0xff;
        }
        MarkBytes(was, now, bitmap[..], start, at, bytes);
        bit := bit + bytes * 8;
      } else {
        MarkOne(was, now, start, bit);
        bitmap[bit / 8] := bitmap[bit / 8] | Mask(bit % 8);
        assert bitmap[..] == now[bit / 8 := now[bit / 8] | Mask(bit % 8)];
        bit := bit + 1;
      }
    }
    MarksEnd(was, bitmap[..], start, bit, end);
  }

  lemma MarksEnd(s: seq<bv8>, t: seq<bv8>, lo: nat, hi: nat, hi': nat)
    requires Marks(s, t, lo, hi) && lo <= hi
    requires hi == hi' || (hi >= 8 * |s| && hi' >= 8 * |s|) || (hi == lo && hi' <= lo)
    ensures Marks(s, t, lo, hi')
  {
    forall i: nat | i < 8 * |s| ensures Marked(s, t, lo, hi', i) {
      assert Marked(s, t, lo, hi, i);
    }
  }

  // ---- Counting ----

  function PopCount(b: bv8): nat
  {
    PopBelow(b, 8)
  }

  function PopBelow(b: bv8, k: nat): nat
    requires k <= 8
  {
    if k == 0 then 0 else PopBelow(b, k - 1) + if Bit(b, k - 1) then 1 else 0
  }

  lemma {:induction false} OnesInByte(s: seq<bv8>, n: nat, k: nat)
    requires n < |s| && k <= 8
    ensures Ones(s, 8 * n + k) == Ones(s, 8 * n) + PopBelow(s[n], k)
    decreases k
  {
    if k > 0 {
      OnesInByte(s, n, k - 1);
      assert (8 * n + k - 1) / 8 == n && (8 * n + k - 1) % 8 == k - 1;
    }
  }

  /** The ones in the first `n` bytes. */
  method CountOnes(s: seq<bv8>, n: nat) returns (c: nat)
    requires n <= |s|
    ensures c == Ones(s, 8 * n)
  {
    c := 0;
    for i := 0 to n
      invariant c == Ones(s, 8 * i)
    {
      OnesInByte(s, i, 8);
      c := c + PopCount(s[i]);
    }
  }
}
