/**
 * Byte strings and the fixed-width integer fields of the relay's frames:
 * Python's `struct` "<I" fields, Node's `Buffer.readInt32LE` and
 * `Buffer.writeInt32LE`, and the index clamping of `Buffer.slice`,
 * `Buffer.toString(enc, start, end)` and Python slices.
 */
module Bytes {

  type byte = x: int | 0 <= x < 256

  const TWO_31: int := 0x8000_0000
  const TWO_32: int := 0x1_0000_0000

  /** The four little-endian bytes of an unsigned 32-bit field. */
  function U32LE(n: nat): (b: seq<byte>)
    requires n < TWO_32
    ensures |b| == 4
  {
    [n % 256, (n / 256) % 256, (n / 65536) % 256, n / 16777216]
  }

  /** The unsigned little-endian 32-bit field at `off`. */
  function ReadU32LE(b: seq<byte>, off: nat): (n: nat)
    requires off + 4 <= |b|
    ensures n < TWO_32
  {
    b[off] as int + 256 * (b[off + 1] as int) + 65536 * (b[off + 2] as int) + 16777216 * (b[off + 3] as int)
  }

  /** `Buffer.readInt32LE(off)`: the field read as a two's-complement signed integer. */
  function ReadInt32LE(b: seq<byte>, off: nat): (i: int)
    requires off + 4 <= |b|
    ensures -TWO_31 <= i < TWO_31
    ensures i >= 0 ==> i == ReadU32LE(b, off)
    ensures i < 0 ==> i == ReadU32LE(b, off) - TWO_32
  {
    var u := ReadU32LE(b, off);
    if u < TWO_31 then u else u - TWO_32
  }

  /** Reading back the field written by U32LE, whatever surrounds it. */
  lemma ReadU32LEOfU32LE(n: nat, before: seq<byte>, after: seq<byte>)
    requires n < TWO_32
    ensures ReadU32LE(before + U32LE(n) + after, |before|) == n
  {
    var b := before + U32LE(n) + after;
    var k := |before|;
    assert b[k..k + 4] == U32LE(n);
    Recombine(n);
  }

  /** The four base-256 digits of a 32-bit number give it back. */
  lemma Recombine(n: nat)
    requires n < TWO_32
    ensures n % 256 + 256 * ((n / 256) % 256) + 65536 * ((n / 65536) % 256) + 16777216 * (n / 16777216) == n
  {
    var a := n / 256;
    var c := a / 256;
    var d := c / 256;
    assert n / 65536 == c;
    assert n / 16777216 == d;
    assert c == 256 * d + c % 256;
    assert a == 256 * c + a % 256;
    assert n == 256 * a + n % 256;
  }

  /** A field below 2^31 reads back unchanged through the signed reader. */
  lemma ReadInt32LEOfU32LE(n: nat, before: seq<byte>, after: seq<byte>)
    requires n < TWO_31
    ensures ReadInt32LE(before + U32LE(n) + after, |before|) == n
  {
    ReadU32LEOfU32LE(n, before, after);
  }

  /**
   * The bytes that `b.toString(enc, start, end)` decodes: a start at or below
   * zero means 0, a start at or past the end gives nothing, an end past the
   * length means the length, and an end at or before the start gives nothing.
   */
  function JsStringRange(b: seq<byte>, start: int, end: int): (r: seq<byte>)
    ensures 0 <= start <= end <= |b| ==> r == b[start..end]
  {
    var s := if start <= 0 then 0 else start;
    if s >= |b| then []
    else
      var e := if end > |b| then |b| else end;
      if e <= s then [] else b[s..e]
  }

  /** Python's `b[0:n]` for a non-negative `n`. */
  function PyTake(b: seq<byte>, n: nat): (r: seq<byte>)
    ensures |r| == if n <= |b| then n else |b|
    ensures r == b[..|r|]
  {
    if n <= |b| then b[..n] else b
  }

  /** Python's `b[n:]` for a non-negative `n`. */
  function PyDrop(b: seq<byte>, n: nat): (r: seq<byte>)
    ensures PyTake(b, n) + r == b
  {
    if n <= |b| then b[n..] else []
  }
}
