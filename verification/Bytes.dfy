// Bytes, blocks and the big-endian words the journal stores.
module Bytes {

  type Byte = x: int | 0 <= x < 256 witness 0
  type Block = seq<Byte>

  const TWO16: nat := 0x1_0000
  const TWO32: nat := 0x1_0000_0000

  /** The 16-bit big-endian word at `at`. */
  function U16Be(b: seq<Byte>, at: nat): (r: nat)
    requires at + 2 <= |b|
    ensures r < TWO16
  {
    b[at] as int * 256 + b[at + 1] as int
  }

  /** The 32-bit big-endian word at `at`. */
  function U32Be(b: seq<Byte>, at: nat): (r: nat)
    requires at + 4 <= |b|
    ensures r < TWO32
  {
    U16Be(b, at) * TWO16 + U16Be(b, at + 2)
  }

  /** The most significant byte comes first. */
  lemma BigEndian(b: seq<Byte>, at: nat)
    requires at + 4 <= |b|
    ensures U32Be(b, at) == b[at] as int * 16_777_216 + b[at + 1] as int * 65_536 + b[at + 2] as int * 256 + b[at + 3] as int
  {
  }

  /** The bytes of a 32-bit word, most significant first. */
  function BytesBe(v: nat): (r: seq<Byte>)
    requires v < TWO32
    ensures |r| == 4
  {
    [v / 0x100_0000, v / TWO16 % 256, v / 256 % 256, v % 256]
  }

  /** `b` with `patch` copied over it at `at`. */
  function Patch(b: seq<Byte>, at: nat, patch: seq<Byte>): (r: seq<Byte>)
    requires at + |patch| <= |b|
    ensures |r| == |b|
    ensures forall i :: at <= i < at + |patch| ==> r[i] == patch[i - at]
    ensures forall i :: 0 <= i < |b| && !(at <= i < at + |patch|) ==> r[i] == b[i]
  {
    b[..at] + patch + b[at + |patch|..]
  }

  lemma BytesBeValue(v: nat)
    requires v < TWO32
    ensures U32Be(BytesBe(v), 0) == v
  {
    var high, low := v / TWO16, v % TWO16;
    assert v / 0x100_0000 == high / 256 && v / TWO16 % 256 == high % 256;
    assert v / 256 % 256 == low / 256 && v % 256 == low % 256;
  }

  /** Equal bytes give equal words. */
  lemma SameWord(a: seq<Byte>, i: nat, b: seq<Byte>, j: nat)
    requires i + 4 <= |a| && j + 4 <= |b| && a[i..i + 4] == b[j..j + 4]
    ensures U32Be(a, i) == U32Be(b, j)
  {
    var word := a[i..i + 4];
    assert word[0] == a[i] && word[1] == a[i + 1] && word[2] == a[i + 2] && word[3] == a[i + 3];
    assert word[0] == b[j] && word[1] == b[j + 1] && word[2] == b[j + 2] && word[3] == b[j + 3];
  }

  /** Writing a word and reading it back. */
  lemma WordRoundTrip(b: seq<Byte>, at: nat, v: nat)
    requires at + 4 <= |b| && v < TWO32
    ensures U32Be(Patch(b, at, BytesBe(v)), at) == v
  {
    var p := Patch(b, at, BytesBe(v));
    assert p[at..at + 4] == BytesBe(v)[0..4];
    SameWord(p, at, BytesBe(v), 0);
    BytesBeValue(v);
  }

  /** A write leaves every word beside it alone. */
  lemma WordElsewhere(b: seq<Byte>, at: nat, patch: seq<Byte>, i: nat)
    requires at + |patch| <= |b| && i + 4 <= |b|
    requires i + 4 <= at || at + |patch| <= i
    ensures U32Be(Patch(b, at, patch), i) == U32Be(b, i)
  {
    var p := Patch(b, at, patch);
    assert p[i..i + 4] == b[i..i + 4];
    SameWord(p, i, b, i);
  }
}
