/**
  The TC77 temperature word. The sensor shifts out a big-endian 16-bit word
  whose top 13 bits are a two's-complement reading at 0.0625 degrees Celsius
  per least-significant bit; the low 3 bits carry no temperature.
 */
module Tc77 {
  import opened Bytes

  const MinReading: int := -4096
  const MaxReading: int := 4095

  /**
    The conversion the temperature program applies to response bytes 4 and 5:
    test bit 7 of the high byte; when clear, shift the word right by three;
    when set, mask the bit off, shift, and subtract 4096.
   */
  function Decode(b4: Byte, b5: Byte): (t: int)
    ensures MinReading <= t <= MaxReading
    ensures t >= 0 <==> b4 < 0x80
  {
    var hi := b4 as bv16;
    var lo := b5 as bv16;
    if hi & 0x80 == 0 then
      (((hi << 8) | lo) >> 3) as int
    else
      ((((hi & 0x7F) << 8) | lo) >> 3) as int - 4096
  }

  /** The raw 16-bit sensor word, high byte first. */
  function Word(b4: Byte, b5: Byte): int
  {
    0x100 * (b4 as int) + b5 as int
  }

  /** Reads a 13-bit field as a two's-complement number. */
  function Signed13(code: int): (t: int)
    requires 0 <= code < 0x2000
    ensures MinReading <= t <= MaxReading
  {
    if code < 0x1000 then code else code - 0x2000
  }

  /** The inverse of `Signed13`: the 13-bit field holding a reading. */
  function Unsigned13(t: int): (code: int)
    requires MinReading <= t <= MaxReading
    ensures 0 <= code < 0x2000
    ensures Signed13(code) == t
  {
    if t < 0 then t + 0x2000 else t
  }

  /** The datasheet reading of a word: its top 13 bits as a signed number. */
  function Reading(b4: Byte, b5: Byte): int
  {
    Signed13(Word(b4, b5) / 8)
  }

  /** Shifting a high byte up by eight and or-ing in a low byte concatenates them. */
  lemma ShiftOrIsWord(hi: bv16, lo: bv16)
    requires hi < 0x100 && lo < 0x100
    ensures ((hi << 8) | lo) as int == 0x100 * (hi as int) + lo as int
  {
  }

  /** Splitting off the low three bits, within sixteen bits. */
  lemma ShiftSplit(x: bv16)
    ensures x == (x >> 3) * 8 + (x & 7)
    ensures x >> 3 < 0x2000 && x & 7 < 8
  {
  }

  lemma NoOverflow(q: bv16, r: bv16)
    requires q < 0x2000 && r < 8
    ensures (q * 8 + r) as int == 8 * (q as int) + r as int
    ensures r as int < 8
  {
  }

  lemma SameInt(x: bv16, y: bv16)
    requires x == y
    ensures x as int == y as int
  {
  }

  lemma DivByEight(n: int, q: int, r: int)
    requires n == 8 * q + r && 0 <= r < 8
    ensures q == n / 8
  {
  }

  /** A logical right shift by three divides by eight. */
  lemma ShiftRightIsDiv(x: bv16)
    ensures (x >> 3) as int == x as int / 8
  {
    ShiftSplit(x);
    var q, r := x >> 3, x & 7;
    NoOverflow(q, r);
    SameInt(x, q * 8 + r);
    var n, qi, ri := x as int, q as int, r as int;
    DivByEight(n, qi, ri);
  }

  lemma ByteAsBv16(b: Byte)
    ensures (b as bv16) as int == b as int
    ensures b as bv16 < 0x100
  {
  }

  /** Masking with 0x80 tests bit 7. */
  lemma SignBit(b: Byte)
    ensures (b as bv16) & 0x80 == 0 <==> b < 0x80
  {
  }

  /** Masking with 0x7F clears bit 7. */
  lemma MaskSignBit(b: Byte)
    requires 0x80 <= b
    ensures ((b as bv16) & 0x7F) as int == b as int - 0x80
    ensures (b as bv16) & 0x7F < 0x100
  {
  }

  /** The sixteen-bit word the program assembles from both bytes. */
  lemma FullWord(b4: Byte, b5: Byte)
    ensures (((b4 as bv16) << 8) | (b5 as bv16)) as int == Word(b4, b5)
  {
    ByteAsBv16(b4);
    ByteAsBv16(b5);
    ShiftOrIsWord(b4 as bv16, b5 as bv16);
  }

  /** The word the program assembles once bit 7 of the high byte is masked off. */
  lemma MaskedWord(b4: Byte, b5: Byte)
    requires 0x80 <= b4
    ensures ((((b4 as bv16) & 0x7F) << 8) | (b5 as bv16)) as int == Word(b4, b5) - 0x8000
  {
    ByteAsBv16(b5);
    MaskSignBit(b4);
    ShiftOrIsWord((b4 as bv16) & 0x7F, b5 as bv16);
  }

  /** Sign bit clear: the shifted word is the reading. */
  lemma DecodeNonNegative(b4: Byte, b5: Byte)
    requires b4 < 0x80
    ensures Decode(b4, b5) == Reading(b4, b5)
  {
    SignBit(b4);
    var w := ((b4 as bv16) << 8) | (b5 as bv16);
    FullWord(b4, b5);
    ShiftRightIsDiv(w);
  }

  lemma MaskedShift(b4: Byte, b5: Byte)
    requires 0x80 <= b4
    ensures (((((b4 as bv16) & 0x7F) << 8) | (b5 as bv16)) >> 3) as int == (Word(b4, b5) - 0x8000) / 8
  {
    MaskedWord(b4, b5);
    ShiftRightIsDiv((((b4 as bv16) & 0x7F) << 8) | (b5 as bv16));
  }

  lemma OffsetDiv(n: int)
    requires 0x8000 <= n
    ensures (n - 0x8000) / 8 == n / 8 - 0x1000
  {
  }

  /** Sign bit set: the masked, shifted word less 4096 is the reading. */
  lemma DecodeNegative(b4: Byte, b5: Byte)
    requires 0x80 <= b4
    ensures Decode(b4, b5) == Reading(b4, b5)
  {
    SignBit(b4);
    MaskedShift(b4, b5);
    OffsetDiv(Word(b4, b5));
  }

  /** The program's bit manipulation computes exactly the datasheet reading. */
  lemma DecodeIsReading(b4: Byte, b5: Byte)
    ensures Decode(b4, b5) == Reading(b4, b5)
  {
    if b4 < 0x80 {
      DecodeNonNegative(b4, b5);
    } else {
      DecodeNegative(b4, b5);
    }
  }

  /** The sensor word carrying reading `t`, with its three low bits zero. */
  function Encode(t: int): (w: (Byte, Byte))
    requires MinReading <= t <= MaxReading
    ensures w.1 % 8 == 0
    ensures Reading(w.0, w.1) == t
  {
    var word := Unsigned13(t) * 8;
    assert word / 8 == Unsigned13(t);
    ((word / 0x100) as Byte, (word % 0x100) as Byte)
  }

  /** Decoding a sensor word produced by `Encode` gives back the reading. */
  lemma DecodeEncode(t: int)
    requires MinReading <= t <= MaxReading
    ensures Decode(Encode(t).0, Encode(t).1) == t
  {
    DecodeIsReading(Encode(t).0, Encode(t).1);
  }

  /** Encoding a decoded reading restores the word up to its three low bits. */
  lemma EncodeDecode(b4: Byte, b5: Byte)
    ensures Encode(Decode(b4, b5)) == (b4, b5 / 8 * 8)
  {
    DecodeIsReading(b4, b5);
    var code := Word(b4, b5) / 8;
    assert Unsigned13(Signed13(code)) == code;
    WordRoundDown(b4, b5);
    LowByte((b5 / 8 * 8) as int, b4 as int);
  }

  /** Dropping the low three bits of the word drops them from byte 5 only. */
  lemma WordRoundDown(b4: Byte, b5: Byte)
    ensures Word(b4, b5) / 8 * 8 == (b5 / 8 * 8) as int + 0x100 * (b4 as int)
  {
    assert Word(b4, b5) == (b5 as int) + 8 * (0x20 * (b4 as int));
  }

  /** The top 13 bits of the word: all of byte 4, the top five bits of byte 5. */
  lemma WordTopBits(b4: Byte, b5: Byte)
    ensures Word(b4, b5) / 8 == 32 * (b4 as int) + (b5 / 8) as int
  {
  }

  /** The three low bits of byte 5 never influence the reading. */
  lemma LowBitsIgnored(b4: Byte, b5: Byte, b5': Byte)
    requires b5 / 8 == b5' / 8
    ensures Decode(b4, b5) == Decode(b4, b5')
  {
    DecodeIsReading(b4, b5);
    DecodeIsReading(b4, b5');
    WordTopBits(b4, b5);
    WordTopBits(b4, b5');
  }

  /** Degrees Celsius at 0.0625 degree per least-significant bit. */
  function Celsius(t: int): (c: real)
    ensures c * 16.0 == t as real
  {
    t as real * 0.0625
  }

  /** Every decodable word lies between -256 and 255.9375 degrees Celsius. */
  lemma CelsiusRange(b4: Byte, b5: Byte)
    ensures -256.0 <= Celsius(Decode(b4, b5)) <= 255.9375
  {
  }

  /** A positive and a negative example word. */
  lemma DecodeExamples()
    ensures Decode(0x19, 0x20) == 804 && Celsius(804) == 50.25
    ensures Decode(0xE0, 0x00) == -1024 && Celsius(-1024) == -64.0
  {
    DecodeIsReading(0x19, 0x20);
    DecodeIsReading(0xE0, 0x00);
  }
}
