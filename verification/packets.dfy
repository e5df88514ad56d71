/**
  The three MCP2210 command packets both programs send: Set Chip Settings,
  Set SPI Transfer Settings and Transfer SPI Data. Each is built from a
  structured value by a pure function and read back by a parser. The
  concrete packets of the LED and temperature programs are in `Frames`.
 */
module Packets {
  import opened Bytes
  import opened Wrappers

  const SetNvramParameters: Byte := 0x60
  const ChipSettingsCommand: Byte := 0x20
  const SpiSettingsCommand: Byte := 0x10
  const TransferSpiData: Byte := 0x42

  /** General-purpose pins GP0..GP8. */
  const PinCount: nat := 9

  /** Data bytes a single Transfer SPI Data packet can carry. */
  const MaxPayload: nat := 60

  /** Set Chip Settings parameters (bytes 4..18 of the packet). */
  datatype ChipSettings = ChipSettings(
    pinDesignation: seq<Byte>,  // one function code per pin, GP0 first
    gpioValue: U16,
    gpioDirection: U16,
    flags: Byte,                // wake-up, interrupt counting, SPI bus release
    accessControl: Byte)

  /** Set SPI Transfer Settings parameters (bytes 4..20 of the packet). */
  datatype SpiSettings = SpiSettings(
    bitRate: U32,
    idleCs: U16,
    activeCs: U16,
    csToDataDelay: U16,
    lastByteToCsDelay: U16,
    interByteDelay: U16,
    bytesPerTransaction: U16,
    mode: Byte)

  function ChipSettingsFrame(c: ChipSettings): (f: Frame)
    requires |c.pinDesignation| == PinCount
    ensures f[0] == SetNvramParameters && f[1] == ChipSettingsCommand
    ensures f[2] == 0 && f[3] == 0
    ensures f[4..13] == c.pinDesignation
    ensures FromLe16(f[13..15]) == c.gpioValue && FromLe16(f[15..17]) == c.gpioDirection
    ensures f[17] == c.flags && f[18] == c.accessControl
    ensures AllEqual(f[19..], 0)
  {
    [SetNvramParameters, ChipSettingsCommand, 0, 0] + c.pinDesignation
      + Le16(c.gpioValue) + Le16(c.gpioDirection) + [c.flags, c.accessControl]
      + Fill(0, 45)
  }

  /** Reads a Set Chip Settings packet back; `None` if it is not one. */
  function ParseChipSettings(f: Frame): (r: Option<ChipSettings>)
    ensures r.Some? ==> |r.value.pinDesignation| == PinCount
  {
    if f[0] == SetNvramParameters && f[1] == ChipSettingsCommand && f[2] == 0 && f[3] == 0
       && AllEqual(f[19..], 0)
    then
      Some(ChipSettings(f[4..13], FromLe16(f[13..15]), FromLe16(f[15..17]), f[17], f[18]))
    else
      None
  }

  lemma ChipSettingsRoundTrip(c: ChipSettings)
    requires |c.pinDesignation| == PinCount
    ensures ParseChipSettings(ChipSettingsFrame(c)) == Some(c)
  {
  }

  /** Every packet the parser accepts is the one the builder makes. */
  lemma ChipSettingsParsed(f: Frame)
    requires ParseChipSettings(f).Some?
    ensures ChipSettingsFrame(ParseChipSettings(f).value) == f
  {
    var g := ChipSettingsFrame(ParseChipSettings(f).value);
    Le16OfFromLe16(f[13..15]);
    Le16OfFromLe16(f[15..17]);
    assert forall i :: 0 <= i < 64 ==> g[i] == f[i] by {
      forall i | 0 <= i < 64
        ensures g[i] == f[i]
      {
        if 19 <= i {
          assert g[19..][i - 19] == 0 && f[19..][i - 19] == 0;
        } else if 13 <= i < 15 {
          assert g[13..15][i - 13] == f[13..15][i - 13];
        } else if 15 <= i < 17 {
          assert g[15..17][i - 15] == f[15..17][i - 15];
        } else if 4 <= i < 13 {
          assert g[4..13][i - 4] == f[4..13][i - 4];
        }
      }
    }
  }

  function SpiSettingsFrame(s: SpiSettings): (f: Frame)
    ensures f[0] == SetNvramParameters && f[1] == SpiSettingsCommand
    ensures f[2] == 0 && f[3] == 0
    ensures FromLe32(f[4..8]) == s.bitRate
    ensures FromLe16(f[8..10]) == s.idleCs && FromLe16(f[10..12]) == s.activeCs
    ensures FromLe16(f[12..14]) == s.csToDataDelay
    ensures FromLe16(f[14..16]) == s.lastByteToCsDelay
    ensures FromLe16(f[16..18]) == s.interByteDelay
    ensures FromLe16(f[18..20]) == s.bytesPerTransaction
    ensures f[20] == s.mode
    ensures AllEqual(f[21..], 0)
  {
    [SetNvramParameters, SpiSettingsCommand, 0, 0] + Le32(s.bitRate)
      + Le16(s.idleCs) + Le16(s.activeCs)
      + Le16(s.csToDataDelay) + Le16(s.lastByteToCsDelay) + Le16(s.interByteDelay)
      + Le16(s.bytesPerTransaction) + [s.mode]
      + Fill(0, 43)
  }

  /** Reads a Set SPI Transfer Settings packet back; `None` if it is not one. */
  function ParseSpiSettings(f: Frame): (r: Option<SpiSettings>)
  {
    if f[0] == SetNvramParameters && f[1] == SpiSettingsCommand && f[2] == 0 && f[3] == 0
       && AllEqual(f[21..], 0)
    then
      Some(SpiSettings(FromLe32(f[4..8]), FromLe16(f[8..10]), FromLe16(f[10..12]),
                       FromLe16(f[12..14]), FromLe16(f[14..16]), FromLe16(f[16..18]),
                       FromLe16(f[18..20]), f[20]))
    else
      None
  }

  lemma SpiSettingsRoundTrip(s: SpiSettings)
    ensures ParseSpiSettings(SpiSettingsFrame(s)) == Some(s)
  {
  }

  /** Every packet the parser accepts is the one the builder makes. */
  lemma SpiSettingsParsed(f: Frame)
    requires ParseSpiSettings(f).Some?
    ensures SpiSettingsFrame(ParseSpiSettings(f).value) == f
  {
    var g := SpiSettingsFrame(ParseSpiSettings(f).value);
    Le32OfFromLe32(f[4..8]);
    SameSlice(g, f, 4, 8);
    Le16OfFromLe16(f[8..10]);
    SameSlice(g, f, 8, 10);
    Le16OfFromLe16(f[10..12]);
    SameSlice(g, f, 10, 12);
    Le16OfFromLe16(f[12..14]);
    SameSlice(g, f, 12, 14);
    Le16OfFromLe16(f[14..16]);
    SameSlice(g, f, 14, 16);
    Le16OfFromLe16(f[16..18]);
    SameSlice(g, f, 16, 18);
    Le16OfFromLe16(f[18..20]);
    SameSlice(g, f, 18, 20);
    SameSlice(g, f, 21, 64);
    assert forall i :: 0 <= i < 64 ==> g[i] == f[i];
  }

  /** Equal slices have equal elements. */
  lemma SameSlice(g: Frame, f: Frame, lo: nat, hi: nat)
    requires lo <= hi <= 64 && g[lo..hi] == f[lo..hi]
    ensures forall i :: lo <= i < hi ==> g[i] == f[i]
  {
    assert forall i :: lo <= i < hi ==> g[i] == g[lo..hi][i - lo] && f[i] == f[lo..hi][i - lo];
  }

  /** A Transfer SPI Data packet: command, length, two reserved bytes, payload, 0xFF padding. */
  function SpiDataFrame(payload: seq<Byte>): (f: Frame)
    requires |payload| <= MaxPayload
    ensures f[0] == TransferSpiData && f[1] as int == |payload|
    ensures f[2] == 0 && f[3] == 0
    ensures f[4..4 + |payload|] == payload
    ensures AllEqual(f[4 + |payload|..], 0xFF)
  {
    [TransferSpiData, |payload| as Byte, 0, 0] + payload + Fill(0xFF, MaxPayload - |payload|)
  }

  /** Reads the payload back from a Transfer SPI Data packet; `None` if it is not one. */
  function ParseSpiData(f: Frame): (r: Option<seq<Byte>>)
    ensures r.Some? ==> |r.value| <= MaxPayload
  {
    var n := f[1] as int;
    if f[0] == TransferSpiData && n <= MaxPayload && f[2] == 0 && f[3] == 0
       && AllEqual(f[4 + n..], 0xFF)
    then
      Some(f[4..4 + n])
    else
      None
  }

  lemma SpiDataRoundTrip(payload: seq<Byte>)
    requires |payload| <= MaxPayload
    ensures ParseSpiData(SpiDataFrame(payload)) == Some(payload)
  {
  }

  /** Every packet the parser accepts is the one the builder makes. */
  lemma SpiDataParsed(f: Frame)
    requires ParseSpiData(f).Some?
    ensures SpiDataFrame(ParseSpiData(f).value) == f
  {
    var p := ParseSpiData(f).value;
    var g := SpiDataFrame(p);
    assert forall i :: 0 <= i < 64 ==> g[i] == f[i] by {
      forall i | 0 <= i < 64
        ensures g[i] == f[i]
      {
        if 4 + |p| <= i {
          assert g[4 + |p|..][i - 4 - |p|] == 0xFF == f[4 + |p|..][i - 4 - |p|];
        } else if 4 <= i {
          assert g[4..4 + |p|][i - 4] == f[4..4 + |p|][i - 4];
        }
      }
    }
  }
}
