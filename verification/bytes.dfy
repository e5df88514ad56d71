/**
  Bytes, 64-byte USB frames and the little-endian field encodings the MCP2210
  command packets use.
 */
module Bytes {

  /** An unsigned 8-bit value, the C `unsigned char` of the packet buffers. */
  newtype Byte = x: int | 0 <= x < 0x100

  /** Every MCP2210 command and response is exactly 64 bytes long. */
  const FrameSize: nat := 64

  type Frame = s: seq<Byte> | |s| == 64 witness seq(64, _ => 0)

  type U16 = x: int | 0 <= x < 0x1_0000
  type U32 = x: int | 0 <= x < 0x1_0000_0000

  /** `n` copies of the byte `b`, as a reserved or padding region. */
  function Fill(b: Byte, n: nat): (s: seq<Byte>)
    ensures |s| == n
    ensures forall i :: 0 <= i < n ==> s[i] == b
  {
    seq(n, _ => b)
  }

  predicate AllEqual(s: seq<Byte>, b: Byte)
  {
    forall i :: 0 <= i < |s| ==> s[i] == b
  }

  /** A 16-bit value as two bytes, low byte first. */
  function Le16(v: U16): (s: seq<Byte>)
    ensures |s| == 2
    ensures FromLe16(s) == v
  {
    [(v % 0x100) as Byte, (v / 0x100) as Byte]
  }

  function FromLe16(s: seq<Byte>): (v: U16)
    requires |s| == 2
  {
    s[0] as int + 0x100 * (s[1] as int)
  }

  lemma Le16OfFromLe16(s: seq<Byte>)
    requires |s| == 2
    ensures Le16(FromLe16(s)) == s
  {
  }

  /** A 32-bit value as four bytes, low byte first. */
  function Le32(v: U32): (s: seq<Byte>)
    ensures |s| == 4
    ensures FromLe32(s) == v
  {
    var r1 := v / 0x100;
    var r2 := r1 / 0x100;
    [(v % 0x100) as Byte, (r1 % 0x100) as Byte, (r2 % 0x100) as Byte, (r2 / 0x100) as Byte]
  }

  function FromLe32(s: seq<Byte>): (v: U32)
    requires |s| == 4
  {
    s[0] as int + 0x100 * (s[1] as int + 0x100 * (s[2] as int + 0x100 * (s[3] as int)))
  }

  /** Splitting off the low byte of `lo + 0x100 * hi`. */
  lemma LowByte(lo: int, hi: int)
    requires 0 <= lo < 0x100 && 0 <= hi
    ensures (lo + 0x100 * hi) % 0x100 == lo
    ensures (lo + 0x100 * hi) / 0x100 == hi
  {
  }

  lemma Le32OfFromLe32(s: seq<Byte>)
    requires |s| == 4
    ensures Le32(FromLe32(s)) == s
  {
    var v := FromLe32(s);
    var t2 := s[2] as int + 0x100 * (s[3] as int);
    var t1 := s[1] as int + 0x100 * t2;
    LowByte(s[0] as int, t1);
    LowByte(s[1] as int, t2);
    LowByte(s[2] as int, s[3] as int);
  }
}
