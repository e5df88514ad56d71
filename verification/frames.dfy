/**
  The concrete packets the two programs send. Both write the same power-up
  chip settings; they differ in the SPI transfer settings (which pin is the
  active chip select, how many bytes per transaction) and in the SPI data.
 */
module Frames {
  import opened Bytes
  import opened Packets

  /** 6,000,000 bit/s, 0x005B8D80. */
  const BitRate: U32 := 6_000_000

  /** Pin designation code for "chip select". */
  const ChipSelectFunction: Byte := 0x01

  /** All nine pins as chip selects, GPIO outputs high, bus released between transfers. */
  const PowerUpChipSettings: ChipSettings :=
    ChipSettings(Fill(ChipSelectFunction, PinCount), 0xFFFF, 0xFFFF, 0x01, 0x00)

  /** TC77 on GP7: two bytes per transaction. */
  const Tc77Spi: SpiSettings := SpiSettings(BitRate, 0xFFFF, 0xFF7F, 0, 0, 0, 2, 0)

  /** MCP23S08 on GP4: three bytes per transaction. */
  const Mcp23s08Spi: SpiSettings := SpiSettings(BitRate, 0xFFFF, 0xFFEF, 0, 0, 0, 3, 0)

  /** Two dummy bytes clocked out while the TC77 shifts its word in. */
  const Tc77Payload: seq<Byte> := [0x00, 0x00]

  /** The LED program's first write to the expander: opcode 0x40, register 0x00, value 0x00. */
  const FirstLedPayload: seq<Byte> := [0x40, 0x00, 0x00]

  /** The LED program's second write to the expander: opcode 0x40, register 0x0A, value 0xFF. */
  const SecondLedPayload: seq<Byte> := [0x40, 0x0A, 0xFF]

  function Pow2(n: nat): (p: nat)
    ensures p >= 1
  {
    if n == 0 then 1 else 2 * Pow2(n - 1)
  }

  /** The chip-select mask drives pin `pin` low, selecting the device wired to it. */
  predicate Selects(mask: U16, pin: nat)
  {
    mask / Pow2(pin) % 2 == 0
  }

  lemma PinCases(pin: nat)
    requires pin < PinCount
    ensures pin == 0 || pin == 1 || pin == 2 || pin == 3 || pin == 4
         || pin == 5 || pin == 6 || pin == 7 || pin == 8
  {
  }

  lemma Pow2Values()
    ensures Pow2(0) == 1 && Pow2(1) == 2 && Pow2(2) == 4 && Pow2(3) == 8 && Pow2(4) == 16
    ensures Pow2(5) == 32 && Pow2(6) == 64 && Pow2(7) == 128 && Pow2(8) == 256
  {
    assert Pow2(1) == 2;
    assert Pow2(2) == 4;
    assert Pow2(3) == 8;
    assert Pow2(4) == 16;
    assert Pow2(5) == 32;
    assert Pow2(6) == 64;
    assert Pow2(7) == 128;
  }

  /**
    The active chip-select mask the temperature program's SPI settings packet
    carries in bytes 10..11 selects GP7 and no other pin.
   */
  lemma Tc77SelectsOnlyGp7()
    ensures FromLe16(Tc77SpiFrame()[10..12]) == Tc77Spi.activeCs
    ensures forall pin :: 0 <= pin < PinCount ==>
              (Selects(FromLe16(Tc77SpiFrame()[10..12]), pin) <==> pin == 7)
  {
    var f := Tc77SpiFrame();
    assert f[10..12] == [0x7F, 0xFF];
    Pow2Values();
    forall pin | 0 <= pin < PinCount
      ensures Selects(FromLe16(f[10..12]), pin) <==> pin == 7
    {
      PinCases(pin);
    }
  }

  /**
    The active chip-select mask the LED program's SPI settings packet carries
    in bytes 10..11 selects GP4 and no other pin.
   */
  lemma Mcp23s08SelectsOnlyGp4()
    ensures FromLe16(Mcp23s08SpiFrame()[10..12]) == Mcp23s08Spi.activeCs
    ensures forall pin :: 0 <= pin < PinCount ==>
              (Selects(FromLe16(Mcp23s08SpiFrame()[10..12]), pin) <==> pin == 4)
  {
    var f := Mcp23s08SpiFrame();
    assert f[10..12] == [0xEF, 0xFF];
    Pow2Values();
    forall pin | 0 <= pin < PinCount
      ensures Selects(FromLe16(f[10..12]), pin) <==> pin == 4
    {
      PinCases(pin);
    }
  }

  /** The idle chip-select mask both SPI settings packets carry in bytes 8..9 leaves every pin high. */
  lemma IdleSelectsNothing()
    ensures FromLe16(Tc77SpiFrame()[8..10]) == Tc77Spi.idleCs
    ensures FromLe16(Mcp23s08SpiFrame()[8..10]) == Mcp23s08Spi.idleCs
    ensures forall pin :: 0 <= pin < PinCount ==>
              !Selects(FromLe16(Tc77SpiFrame()[8..10]), pin) && !Selects(FromLe16(Mcp23s08SpiFrame()[8..10]), pin)
  {
    var f, g := Tc77SpiFrame(), Mcp23s08SpiFrame();
    assert f[8..10] == [0xFF, 0xFF];
    assert g[8..10] == [0xFF, 0xFF];
    Pow2Values();
    forall pin | 0 <= pin < PinCount
      ensures !Selects(0xFFFF, pin)
    {
      PinCases(pin);
    }
  }

  /** The Set Chip Settings packet both programs send first. */
  function ChipFrame(): (f: Frame)
    ensures f[0] == 0x60 && f[1] == 0x20 && f[2] == 0x00 && f[3] == 0x00
    ensures forall i :: 4 <= i < 13 ==> f[i] == 0x01
    ensures forall i :: 13 <= i < 17 ==> f[i] == 0xFF
    ensures f[17] == 0x01
    ensures forall i :: 18 <= i < 64 ==> f[i] == 0x00
  {
    var f := ChipSettingsFrame(PowerUpChipSettings);
    assert forall i :: 4 <= i < 13 ==> f[i] == f[4..13][i - 4];
    assert forall i :: 19 <= i < 64 ==> f[i] == f[19..][i - 19];
    f
  }

  /** The bytes every Set SPI Transfer Settings packet of the two programs shares. */
  predicate CommonSpiBytes(f: Frame)
  {
    && f[0] == 0x60 && f[1] == 0x10 && f[2] == 0x00 && f[3] == 0x00
    && f[4..8] == [0x80, 0x8D, 0x5B, 0x00]
    && f[8] == 0xFF && f[9] == 0xFF && f[11] == 0xFF
    && (forall i :: 12 <= i < 18 ==> f[i] == 0x00)
    && f[19] == 0x00
    && (forall i :: 20 <= i < 64 ==> f[i] == 0x00)
  }

  /** The temperature program's SPI settings: 6,000,000 bit/s, GP7 active, two bytes per transaction. */
  function Tc77SpiFrame(): (f: Frame)
    ensures CommonSpiBytes(f) && FromLe32(f[4..8]) == 6_000_000
    ensures f[10] == 0x7F && f[18] == 0x02
  {
    var f := SpiSettingsFrame(Tc77Spi);
    assert forall i :: 21 <= i < 64 ==> f[i] == f[21..][i - 21];
    f
  }

  /** The LED program's SPI settings: 6,000,000 bit/s, GP4 active, three bytes per transaction. */
  function Mcp23s08SpiFrame(): (f: Frame)
    ensures CommonSpiBytes(f) && FromLe32(f[4..8]) == 6_000_000
    ensures f[10] == 0xEF && f[18] == 0x03
  {
    var f := SpiSettingsFrame(Mcp23s08Spi);
    assert forall i :: 21 <= i < 64 ==> f[i] == f[21..][i - 21];
    f
  }

  /** The temperature program's data packet: two zero bytes, the rest 0xFF. */
  function Tc77DataFrame(): (f: Frame)
    ensures f[0] == 0x42 && f[2] == 0x00 && f[3] == 0x00
    ensures f[1] as int == FromLe16(Tc77SpiFrame()[18..20]) == 2
    ensures f[4] == 0x00 && f[5] == 0x00
    ensures forall i :: 6 <= i < 64 ==> f[i] == 0xFF
  {
    var f := SpiDataFrame(Tc77Payload);
    assert forall i :: 6 <= i < 64 ==> f[i] == f[6..][i - 6];
    f
  }

  /** The LED program's first data packet, as initialised before the first loop. */
  function FirstLedFrame(): (f: Frame)
    ensures f[0] == 0x42 && f[2] == 0x00 && f[3] == 0x00
    ensures f[1] as int == FromLe16(Mcp23s08SpiFrame()[18..20]) == 3
    ensures f[4] == 0x40 && f[5] == 0x00 && f[6] == 0x00
    ensures forall i :: 7 <= i < 64 ==> f[i] == 0xFF
  {
    var f := SpiDataFrame(FirstLedPayload);
    assert forall i :: 7 <= i < 64 ==> f[i] == f[7..][i - 7];
    f
  }

  /** Overwrites the three payload bytes 4..6 of a packet in place. */
  function SetPayloadBytes(f: Frame, b4: Byte, b5: Byte, b6: Byte): (g: Frame)
    ensures g[4] == b4 && g[5] == b5 && g[6] == b6
    ensures forall i :: 0 <= i < 64 && !(4 <= i < 7) ==> g[i] == f[i]
  {
    f[4 := b4][5 := b5][6 := b6]
  }

  /** The LED program's second data packet: the first one with bytes 4..6 rewritten. */
  function SecondLedFrame(): (f: Frame)
    ensures f == SpiDataFrame(SecondLedPayload)
  {
    var f := SetPayloadBytes(FirstLedFrame(), 0x40, 0x0A, 0xFF);
    var g := SpiDataFrame(SecondLedPayload);
    assert forall i :: 7 <= i < 64 ==> g[i] == g[7..][i - 7];
    assert forall i :: 0 <= i < 64 ==> f[i] == g[i];
    f
  }

  /** Between the two loops only bytes 5 and 6 of the data packet differ. */
  lemma LedFramesDiffer()
    ensures SecondLedFrame()[4..7] == [0x40, 0x0A, 0xFF]
    ensures FirstLedFrame()[4..7] == [0x40, 0x00, 0x00]
    ensures forall i :: 0 <= i < 64 && !(5 <= i < 7) ==> FirstLedFrame()[i] == SecondLedFrame()[i]
    ensures FirstLedFrame() != SecondLedFrame()
  {
    var f, g := FirstLedFrame(), SecondLedFrame();
    assert g[4..7] == [g[4], g[5], g[6]];
    assert f[4..7] == [f[4], f[5], f[6]];
  }
}
