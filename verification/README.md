# MCP2210 bulk-transfer protocol, modelled in Dafny

Two near-duplicate C programs drive a Microchip MCP2210 USB-to-SPI bridge over
64-byte bulk frames. `bulk_temp_2.0.c` reads a TC77 temperature sensor on GP7.
`bulk_led_2.0.c` writes two registers of an MCP23S08 port expander on GP4.
Both programs do the same things:

1. they build three command packets: Set Chip Settings (`0x60 0x20`), Set SPI
   Transfer Settings (`0x60 0x10`) and Transfer SPI Data (`0x42 len`, padded
   with `0xFF`);
2. `transfer_data` writes one packet, reads the 64-byte response only if the
   write was complete, and returns 0, 1 or 2;
3. `main` sends the chip settings, then the SPI settings, then loops on the
   data packet. The temperature program decodes a TC77 word whenever the
   answer announces one, and loops until a call returns 1. The LED program repeats the first data packet
   until a 2, rewrites bytes 4..6 in place, then repeats the second packet
   until a 2.

The model is functional.

| file | module | what it holds |
|---|---|---|
| `wrappers.dfy` | `Wrappers` | `Option` |
| `bytes.dfy` | `Bytes` | `Byte`, the 64-byte `Frame`, little-endian 16- and 32-bit fields, and their inverses |
| `packets.dfy` | `Packets` | three builders from structured values (`ChipSettings`, `SpiSettings`, a payload), a parser for each, and round trips in both directions |
| `frames.dfy` | `Frames` | the concrete packets of both programs, byte for byte; which pin each chip-select mask selects; the in-place payload rewrite |
| `tc77.dfy` | `Tc77` | the program's bit-level decode, proved equal to the 13-bit two's-complement reading; an inverse encoder; exact Celsius |
| `transfer.dfy` | `Transfer` | both `transfer_data` variants, run over an abstract transport |
| `session.dfy` | `Session` | both `main` loops as recursion over a finite transport trace |

**Transport.** The USB transport is a finite sequence of `Bulk(rslt, count,
buffer)` values, one per `libusb_bulk_transfer` call, taken in order. An OUT
transfer takes one value. The IN transfer that follows a complete write takes
the next one, and `buffer` is the receive buffer after that call. A
`transfer_data` call reports how many values it took, so "no read after a
failed write" is stated as "took one value".

**Session end.** A session ends `Aborted` (`main` returns 1), `Completed` (the
LED program leaves its second loop) or `OutOfTrace` (the trace ran out first).
The loops have no bound, so the trace plays the role of fuel. Two lemmas make
this sound:
- `…StopsForGood`: once a session has stopped, a longer trace changes nothing.
  No packet is written after an abort.
- `…Prefix`: while a session is running, a longer trace only extends its log.

**Response classes.** A Transfer SPI Data response from the MCP2210 carries
0x42 in byte 0, a status in byte 1 (0x00 = accepted) and the SPI engine state in
byte 3 (0x10 = transfer finished). `Transfer.Validate` sorts a response into
three classes: `Complete` (accepted and finished), `Incomplete` (accepted, not
finished yet) and `ProtocolError` (not 0x42, or a non-zero status). Neither
program calls it; the contracts of `LedTransfer` and `TempTransfer` are stated
against it. Neither program treats a non-zero status as fatal, and the model
follows the code:
- the LED program returns 0 and resends;
- the temperature program returns 2 and carries on sampling.

`ProtocolErrorIsNotFatal` states this. The code stores the bit rate
little-endian (`80 8D 5B 00`), and so does the model.

**Readings during configuration.** The temperature program's `transfer_data`
also decodes a reading during the two configuration calls if their response
happens to match `42 00 02 10`. The model keeps this: readings from any call
are collected (`TempConfiguration` states it).

## Model

| member | source | states |
|---|---|---|
| Bytes.Le16 | src/MCP_only/bulk_temp_2.0.c:143-144 | a 16-bit field is two bytes, low byte first, and reading them back gives the value |
| Bytes.Le32 | src/MCP_only/bulk_temp_2.0.c:129-132 | the 32-bit bit rate is four bytes, low byte first, and reading them back gives the value |
| Bytes.Le32OfFromLe32 | src/MCP_only/bulk_temp_2.0.c:129-132 | every four bytes are the encoding of the value they read as (the other direction of the round trip) |
| Packets.ChipSettingsFrame | src/MCP_only/bulk_temp_2.0.c:106-123 | Set Chip Settings layout: `0x60 0x20 0 0`, nine pin designations at 4..12, GPIO value at 13..14 and direction at 15..16 (both LE), flags at 17, access control at 18, zeros at 19..63 |
| Packets.ChipSettingsRoundTrip | src/MCP_only/bulk_temp_2.0.c:106-123 | parsing a built chip-settings packet gives back its settings |
| Packets.ChipSettingsParsed | src/MCP_only/bulk_temp_2.0.c:106-123 | every packet the chip-settings parser accepts is exactly the packet built from what it parsed |
| Packets.SpiSettingsFrame | src/MCP_only/bulk_temp_2.0.c:125-149 | Set SPI Transfer Settings layout: `0x60 0x10 0 0`, bit rate LE32 at 4..7, idle and active CS masks, three delays and bytes-per-transaction as LE16 at 8..19, mode at 20, zeros at 21..63 |
| Packets.SpiSettingsRoundTrip | src/MCP_only/bulk_temp_2.0.c:125-149 | parsing a built SPI-settings packet gives back its settings |
| Packets.SpiSettingsParsed | src/MCP_only/bulk_temp_2.0.c:125-149 | every packet the SPI-settings parser accepts is exactly the packet built from what it parsed |
| Packets.SpiDataFrame | src/MCP_only/bulk_temp_2.0.c:151-161 | Transfer SPI Data layout: `0x42`, payload length, `0 0`, the payload from byte 4, `0xFF` in every byte after it |
| Packets.SpiDataRoundTrip | src/MCP_only/bulk_led_2.0.c:137-147 | parsing a built data packet gives back the payload and its length |
| Packets.SpiDataParsed | src/MCP_only/bulk_led_2.0.c:137-147 | every packet the data parser accepts is exactly the packet built from its payload |
| Frames.ChipFrame | src/MCP_only/bulk_temp_2.0.c:106-123 | the chip-settings packet both programs send (bulk_led_2.0.c:92-109 is identical): `0x60 0x20 0 0`, nine `0x01`, four `0xFF`, `0x01`, then zeros to byte 63 |
| Frames.Tc77SpiFrame | src/MCP_only/bulk_temp_2.0.c:125-149 | the temperature program's SPI settings: bytes 4..7 `80 8D 5B 00` = 6,000,000 LE, idle CS `FF FF`, active CS low byte `0x7F`, zero delays, 2 bytes per transaction, zeros from byte 19 on |
| Frames.Mcp23s08SpiFrame | src/MCP_only/bulk_led_2.0.c:111-135 | the LED program's SPI settings: the same as the temperature program's except active CS low byte `0xEF` and 3 bytes per transaction |
| Frames.Tc77SelectsOnlyGp7 | src/MCP_only/bulk_temp_2.0.c:135-136 | the active chip-select mask in bytes 10..11 of the temperature program's SPI settings packet (`7F FF`) is the configured 0xFF7F and, of GP0..GP8, drives exactly GP7 low |
| Frames.Mcp23s08SelectsOnlyGp4 | src/MCP_only/bulk_led_2.0.c:121-122 | the active chip-select mask in bytes 10..11 of the LED program's SPI settings packet (`EF FF`) is the configured 0xFFEF and, of GP0..GP8, drives exactly GP4 low |
| Frames.IdleSelectsNothing | src/MCP_only/bulk_temp_2.0.c:133-134 | the idle chip-select mask in bytes 8..9 of both SPI settings packets is 0xFFFF and drives none of GP0..GP8 low |
| Frames.Tc77DataFrame | src/MCP_only/bulk_temp_2.0.c:151-161 | the temperature data packet: `0x42`, length 2 (equal to the SPI settings' bytes per transaction), `0 0`, payload `0 0`, `0xFF` from byte 6 on |
| Frames.FirstLedFrame | src/MCP_only/bulk_led_2.0.c:137-147 | the LED program's first data packet: `0x42`, length 3 (equal to the SPI settings' bytes per transaction), `0 0`, payload `40 00 00`, `0xFF` from byte 7 on |
| Frames.SetPayloadBytes | src/MCP_only/bulk_led_2.0.c:263 | the in-place rewrite sets bytes 4, 5 and 6 and leaves every other byte of the packet as it was |
| Frames.SecondLedFrame | src/MCP_only/bulk_led_2.0.c:263 | the first data packet rewritten in place is exactly the data packet built from payload `40 0A FF` |
| Frames.LedFramesDiffer | src/MCP_only/bulk_led_2.0.c:263 | between the two loops (the first packet as set at bulk_led_2.0.c:141-147, rewritten here) only bytes 5 and 6 change (`00 00` to `0A FF`); byte 4 stays `0x40`, bytes 0..3 and 7..63 stay the same |
| Tc77.Decode | src/MCP_only/bulk_temp_2.0.c:66-71 | the decoded reading lies in [-4096, 4095] and is non-negative exactly when bit 7 of byte 4 is clear |
| Tc77.DecodeIsReading | src/MCP_only/bulk_temp_2.0.c:66-71 | the program's mask, shift and subtract compute exactly the 13-bit two's-complement value of `(b4 << 8 | b5) >> 3` |
| Tc77.Encode | src/MCP_only/bulk_temp_2.0.c:66-71 | every reading in range has a sensor word (low three bits zero) whose 13-bit reading is that value |
| Tc77.DecodeEncode | src/MCP_only/bulk_temp_2.0.c:66-71 | decoding the encoded word of a reading gives the reading back |
| Tc77.EncodeDecode | src/MCP_only/bulk_temp_2.0.c:66-71 | encoding a decoded reading gives back bytes 4 and 5 with the low three bits of byte 5 cleared |
| Tc77.LowBitsIgnored | src/MCP_only/bulk_temp_2.0.c:69-71 | two words that differ only in the low three bits of byte 5 decode to the same reading |
| Tc77.Celsius | src/MCP_only/bulk_temp_2.0.c:72-73 | the Celsius value times 16 is the reading exactly (0.0625 degree per bit) |
| Tc77.CelsiusRange | src/MCP_only/bulk_temp_2.0.c:66-73 | every decodable word gives a temperature between -256 and 255.9375 degrees |
| Tc77.DecodeExamples | src/MCP_only/bulk_temp_2.0.c:66-73 | `19 20` decodes to 804 (50.25 degrees) and `E0 00` to -1024 (-64 degrees) |
| Transfer.LedTransfer | src/MCP_only/bulk_led_2.0.c:42-77 | a failed or short write returns 1 and reads nothing; a failed or short read returns 1; a full exchange returns 2 iff `Validate` calls the response Complete (bytes 0, 1, 3 = `42 00 10`; byte 2 unexamined) and 0 otherwise, including a non-zero status byte |
| Transfer.TempTransfer | src/MCP_only/bulk_temp_2.0.c:43-91 | never returns 0; a failed or short write returns 1 and reads nothing; a failed or short read returns 1; any full read returns 2; a reading is decoded iff bytes 0..3 are `42 00 02 10`, and it is the datasheet reading of bytes 4..5 |
| Transfer.ProtocolErrorIsNotFatal | src/MCP_only/bulk_led_2.0.c:60-63 | a complete exchange whose response `Validate` calls a protocol error gives 0 (retry) in the LED program and 2 (no reading) in the temperature program |
| Transfer.TransferIgnoresLater | src/MCP_only/bulk_led_2.0.c:52-60 | a call depends only on the transport results it consumes |
| Session.TempNext | src/MCP_only/bulk_temp_2.0.c:245-271 | after a call that did not return 1, the program never goes back to the chip settings; each configuration step happens once and the sampling step repeats forever |
| Session.TempSession | src/MCP_only/bulk_temp_2.0.c:245-251 | `main` starts with the chip settings, never completes, and a first write that fails aborts at once with one logged call |
| Session.TempSent | src/MCP_only/bulk_temp_2.0.c:245-271 | one packet written per logged call, in order (which packets is `TempSessionOrder`) |
| Session.TempFrom | src/MCP_only/bulk_temp_2.0.c:245-271 | a temperature run never completes; its steps follow chip, SPI, then sampling; every call returns 1 or 2; no call before the last returns 1; it aborts iff the last call returned 1; it holds at most one reading per call |
| Session.TempSessionOrder | src/MCP_only/bulk_temp_2.0.c:245-271 | the packets written are the chip settings, then the SPI settings, then the identical data packet on every pass; the session never completes; it aborts iff the last call returned 1 |
| Session.TempStopsForGood | src/MCP_only/bulk_temp_2.0.c:265-270 | once the temperature program has aborted, further transport results are never used: nothing is written after an abort |
| Session.TempPrefix | src/MCP_only/bulk_temp_2.0.c:261-271 | a longer trace only extends the temperature program's log and readings |
| Session.LedNext | src/MCP_only/bulk_led_2.0.c:234-277 | after a call that did not return 1, the program never goes back to the chip settings; the first data loop repeats exactly when the call did not return 2, and the second loop is entered exactly from a 2 in the first; the second loop's exit on a 2 is `LedFrom`'s |
| Session.LedSession | src/MCP_only/bulk_led_2.0.c:234-240 | `main` starts with the chip settings, decodes nothing, and a first write that fails aborts at once with one logged call |
| Session.LedSent | src/MCP_only/bulk_led_2.0.c:234-277 | one packet written per logged call, in order (which packets is `LedSessionOrder`) |
| Session.LedFrom | src/MCP_only/bulk_led_2.0.c:234-277 | an LED run decodes nothing; each step follows the last by the step relation (configuration proceeds on 0 or 2; a data loop repeats on 0 and advances on 2); no call before the last returns 1; it aborts iff the last call returned 1; it completes iff the last call returned 2 in the second loop |
| Session.LedSessionSteps | src/MCP_only/bulk_led_2.0.c:234-262 | the first three calls are chip settings, SPI settings and the first data loop, whatever the configuration calls returned (unless one returned 1); every later call is in one of the two data loops |
| Session.LedSessionOrder | src/MCP_only/bulk_led_2.0.c:234-277 | the packets written are the chip settings, the SPI settings, the first data packet, then only first or second data packets |
| Session.LedFrameIsSecond | src/MCP_only/bulk_led_2.0.c:263 | of the two data steps, only the second loop writes the rewritten packet: the first data packet is never equal to it |
| Session.LedSessionLoops | src/MCP_only/bulk_led_2.0.c:250-277 | in the data loops a 0 resends the same packet, a 2 moves from the first packet to the second, and the second packet is never followed by the first |
| Session.LedSessionCompleted | src/MCP_only/bulk_led_2.0.c:265-269 | a completed LED session wrote at least four packets and its last was the second data packet |
| Session.LedStopsForGood | src/MCP_only/bulk_led_2.0.c:256-261 | once the LED program has aborted or completed, further transport results are never used |
| Session.LedPrefix | src/MCP_only/bulk_led_2.0.c:250-277 | a longer trace only extends the LED program's log |
| Session.LedExchange | src/MCP_only/bulk_led_2.0.c:250-262 | an exchange whose write and read both move 64 bytes logs 2 when the answer reports "finished" and 0 otherwise; the session ends there only for a 2 in the second loop and otherwise continues after exactly those two transport results |
| Session.TempExchange | src/MCP_only/bulk_temp_2.0.c:261-271 | an exchange whose write and read both move 64 bytes logs 2, keeps the TC77 reading exactly when the answer announces one, and the session continues after those two transport results |
| Session.LedDataScenario | src/MCP_only/bulk_led_2.0.c:250-277 | a "busy" answer resends the first data packet, a "finished" answer moves on to the second, and a "finished" answer to the second completes the session |
| Session.LedConfigExchange | src/MCP_only/bulk_led_2.0.c:234-248 | a complete configuration exchange logs the code its answer earns (2 when it reads as finished, 0 otherwise) and the session moves on whatever that code |
| Session.LedConfiguration | src/MCP_only/bulk_led_2.0.c:234-249 | two configuration calls whose writes and reads all move 64 bytes lead into the first data loop whatever the answers hold, with their codes logged in order |
| Session.LedScenario | src/MCP_only/bulk_led_2.0.c:234-277 | two configuration calls answered with a non-finished status still proceed; the whole session over one busy answer completes with five logged calls |
| Session.LedScenarioSent | src/MCP_only/bulk_led_2.0.c:234-277 | in that session the packets written are chip settings, SPI settings, the first data packet twice and the second data packet once |
| Session.LedScenarioBytes | src/MCP_only/bulk_led_2.0.c:62-63 | with concrete answers whose SPI engine state (byte 3) is 0x20 (busy) or 0x10 (finished), and whose status (byte 1) is 0x00, the session completes after those five packets |
| Session.TempConfiguration | src/MCP_only/bulk_temp_2.0.c:245-259 | two configuration calls whose writes and reads all move 64 bytes log 2 and 2, whatever the answers hold, and hand the rest of the trace to the sampling loop; each answer that announces a reading (`42 00 02 10`) contributes it, in order, ahead of the loop's readings |
| Session.TempExchangeFields | src/MCP_only/bulk_temp_2.0.c:261-271 | the same single exchange as `TempExchange`, stated on the log, the readings and the status separately |
| Session.TempSamplingScenario | src/MCP_only/bulk_temp_2.0.c:261-271 | one reading followed by a failed write gives one sample and an abort |
| Session.TempScenario | src/MCP_only/bulk_temp_2.0.c:245-271 | the whole session over that trace aborts after four calls holding exactly the TC77 reading of the one announced answer |
| Session.TempScenarioSent | src/MCP_only/bulk_temp_2.0.c:245-271 | in that session the packets written are chip settings, SPI settings and the data packet twice |
| Session.TempScenarioBytes | src/MCP_only/bulk_temp_2.0.c:64-73 | with the answer bytes `19 20` the one sample is 804 sixteenths, 50.25 degrees, and the packets written are chip settings, SPI settings and the data packet twice |

## Left out

- libusb setup and teardown is not modelled: init, debug level, device list, VID/PID match, open, kernel-driver detach, claim, release, close and exit (bulk_temp_2.0.c:166-243 and 276-294; bulk_led_2.0.c:152-232 and 279-301). This is foreign library I/O. The abstract `Bulk` trace stands in for it, so endpoint numbers (0x01, 0x81) and the zero timeout do not appear.
- `printf` diagnostics and the `%.2f` formatting of the temperature are output only.
- `sleep(1)` between samples is timing, not logic.
- The loops have no iteration bound. The trace is finite, so a session can end `OutOfTrace`. An exchange cut off by the end of the trace (a complete write with no read result yet) is not recorded.
- `tempC` is a C `double`. The model gives its exact rational value, reading / 16, and does not model IEEE-754 rounding.
- `Byte` is an integer newtype in 0..255 rather than `bv8`. The TC77 decode converts to `bv16` to mirror the C shifts and masks.
- Packets.SpiDataFrame: requires a payload of at most 60 bytes, the capacity of one packet. Both programs only build 2- and 3-byte payloads.
