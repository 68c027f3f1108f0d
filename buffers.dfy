/** Byte-buffer primitives shared by both decoders: the byte type, an
    optional value, the little-endian integer encodings that Node's
    `Buffer.readXxx` methods decode, and the range check those methods make
    before they read (a read past the end throws a RangeError). */
module Buffers {

  type byte = x: int | 0 <= x < 0x100

  datatype Option<+T> = None | Some(value: T)

  /** `readUInt16LE`: the unsigned value of two bytes, low byte first. */
  function U16LE(lo: byte, hi: byte): (r: nat)
    ensures r < 0x1_0000
  {
    lo + 0x100 * hi
  }

  /** `readInt16LE`: the two's-complement value of two bytes, low byte first. */
  function S16LE(lo: byte, hi: byte): (r: int)
    ensures -0x8000 <= r < 0x8000
    ensures (r < 0) == (hi >= 0x80)
  {
    var u := U16LE(lo, hi);
    if u >= 0x8000 then u - 0x1_0000 else u
  }

  /** `readInt8`: the two's-complement value of one byte. */
  function S8(b: byte): (r: int)
    ensures -0x80 <= r < 0x80
    ensures (r < 0) == (b >= 0x80)
  {
    if b >= 0x80 then b - 0x100 else b
  }

  /** `readUint32LE`: the unsigned value of four bytes, lowest byte first. */
  function U32LE(b: seq<byte>): (r: nat)
    requires |b| == 4
    ensures r < 0x1_0000_0000
  {
    b[0] as int + 0x100 * (b[1] as int) + 0x1_0000 * (b[2] as int) + 0x100_0000 * (b[3] as int)
  }

  /** The bytes `writeUInt16LE` stores for an unsigned 16-bit value. */
  function EncodeU16LE(v: nat): (r: seq<byte>)
    requires v < 0x1_0000
    ensures |r| == 2
  {
    [v % 0x100, v / 0x100]
  }

  /** The bytes `writeInt16LE` stores for a signed 16-bit value. */
  function EncodeS16LE(v: int): (r: seq<byte>)
    requires -0x8000 <= v < 0x8000
    ensures |r| == 2
  {
    EncodeU16LE(if v < 0 then v + 0x1_0000 else v)
  }

  /** The byte `writeInt8` stores for a signed 8-bit value. */
  function EncodeS8(v: int): (r: byte)
    requires -0x80 <= v < 0x80
  {
    if v < 0 then v + 0x100 else v
  }

  /** The bytes `writeUInt32LE` stores for an unsigned 32-bit value. */
  function EncodeU32LE(v: nat): (r: seq<byte>)
    requires v < 0x1_0000_0000
    ensures |r| == 4
  {
    [v % 0x100, (v / 0x100) % 0x100, (v / 0x1_0000) % 0x100, v / 0x100_0000]
  }

  lemma U16LEOfEncode(v: nat)
    requires v < 0x1_0000
    ensures var b := EncodeU16LE(v); U16LE(b[0], b[1]) == v
  {
  }

  lemma EncodeOfU16LE(lo: byte, hi: byte)
    ensures EncodeU16LE(U16LE(lo, hi)) == [lo, hi]
  {
  }

  lemma S16LEOfEncode(v: int)
    requires -0x8000 <= v < 0x8000
    ensures var b := EncodeS16LE(v); S16LE(b[0], b[1]) == v
  {
    U16LEOfEncode(if v < 0 then v + 0x1_0000 else v);
  }

  lemma EncodeOfS16LE(lo: byte, hi: byte)
    ensures EncodeS16LE(S16LE(lo, hi)) == [lo, hi]
  {
    EncodeOfU16LE(lo, hi);
  }

  lemma S8OfEncode(v: int)
    requires -0x80 <= v < 0x80
    ensures S8(EncodeS8(v)) == v
  {
  }

  lemma EncodeOfS8(b: byte)
    ensures EncodeS8(S8(b)) == b
  {
  }

  lemma U32LEOfEncode(v: nat)
    requires v < 0x1_0000_0000
    ensures U32LE(EncodeU32LE(v)) == v
  {
    var b := EncodeU32LE(v);
    assert v == v % 0x100 + 0x100 * (v / 0x100);
    assert v / 0x100 == (v / 0x100) % 0x100 + 0x100 * (v / 0x1_0000);
    assert v / 0x1_0000 == (v / 0x1_0000) % 0x100 + 0x100 * (v / 0x100_0000);
  }

  lemma EncodeOfU32LE(b: seq<byte>)
    requires |b| == 4
    ensures EncodeU32LE(U32LE(b)) == b
  {
    var v := U32LE(b);
    assert v / 0x100 == b[1] as int + 0x100 * (b[2] as int) + 0x1_0000 * (b[3] as int);
    assert v / 0x1_0000 == b[2] as int + 0x100 * (b[3] as int);
    assert v / 0x100_0000 == b[3];
  }

  /** `buf.readUInt8(off)`: present exactly when `off` is inside the buffer. */
  function ReadU8(data: seq<byte>, off: int): (r: Option<byte>)
    ensures r.Some? <==> 0 <= off < |data|
    ensures r.Some? ==> r.value == data[off]
  {
    if 0 <= off < |data| then Some(data[off]) else None
  }

  /** `buf.readInt8(off)`. */
  function ReadS8(data: seq<byte>, off: int): (r: Option<int>)
    ensures r.Some? <==> 0 <= off < |data|
    ensures r.Some? ==> r.value == S8(data[off])
  {
    if 0 <= off < |data| then Some(S8(data[off])) else None
  }

  /** `buf.readUInt16LE(off)`: needs both bytes `off` and `off + 1`. */
  function ReadU16LE(data: seq<byte>, off: int): (r: Option<nat>)
    ensures r.Some? <==> 0 <= off && off + 2 <= |data|
    ensures r.Some? ==> r.value == U16LE(data[off], data[off + 1])
  {
    if 0 <= off && off + 2 <= |data| then Some(U16LE(data[off], data[off + 1])) else None
  }

  /** `buf.readInt16LE(off)`. */
  function ReadS16LE(data: seq<byte>, off: int): (r: Option<int>)
    ensures r.Some? <==> 0 <= off && off + 2 <= |data|
    ensures r.Some? ==> r.value == S16LE(data[off], data[off + 1])
  {
    if 0 <= off && off + 2 <= |data| then Some(S16LE(data[off], data[off + 1])) else None
  }

  /** What is left of `s` after its first `k` elements; empty when `k`
      overshoots, as a loop over an offset past the end sees it. */
  function Drop<T>(s: seq<T>, k: nat): (r: seq<T>)
    ensures |r| == if k <= |s| then |s| - k else 0
    ensures forall i :: 0 <= i < |r| ==> r[i] == s[k + i]
  {
    if k <= |s| then s[k..] else []
  }

  lemma DropDrop<T>(s: seq<T>, j: nat, k: nat)
    ensures Drop(Drop(s, j), k) == Drop(s, j + k)
  {
  }
}
