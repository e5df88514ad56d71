/**
  One `transfer_data` call: write a 64-byte command to the bridge's OUT
  endpoint, and only if that write moved all 64 bytes, read the 64-byte
  response from the IN endpoint. The USB transport is abstract: a finite
  sequence of bulk-transfer results handed out one per call, in order.
  The two programs classify the response differently; both are modelled.
 */
module Transfer {
  import opened Bytes
  import opened Wrappers
  import Tc77

  /**
    What one bulk-transfer call reports: its return code, how many bytes it
    moved, and the receive buffer as it stands afterwards (read only for an
    IN transfer).
   */
  datatype Bulk = Bulk(rslt: int, count: int, buffer: Frame)

  /** The call succeeded and moved a whole frame. */
  predicate Full(b: Bulk)
  {
    b.rslt == 0 && b.count == FrameSize
  }

  /** Return codes of `transfer_data`. */
  const Pending: int := 0
  const Failed: int := 1
  const Finished: int := 2

  /**
    The outcome of one call: its return code, the temperature it decoded (if
    any) and how many bulk-transfer results it consumed (one for the write,
    one more for the read).
   */
  datatype Reply = Reply(code: int, sample: Option<int>, used: nat)

  /** How the MCP2210 describes a Transfer SPI Data response. */
  datatype Verdict = Complete | Incomplete | ProtocolError

  /**
    The device's response classes for Transfer SPI Data: byte 0 echoes 0x42,
    byte 1 is the status (0x00 = accepted), byte 3 is the SPI engine state
    (0x10 = transfer finished).
   */
  function Validate(r: Frame): Verdict
  {
    if r[0] != 0x42 || r[1] != 0x00 then ProtocolError
    else if r[3] == 0x10 then Complete
    else Incomplete
  }

  /** A response that announces a new TC77 reading: 0x42, 0x00, two bytes, 0x10. */
  predicate ReadingResponse(r: Frame)
  {
    r[0] == 0x42 && r[1] == 0x00 && r[2] == 0x02 && r[3] == 0x10
  }

  /**
    The LED program's `transfer_data`. `None` when the trace ends before the
    call has the results it needs.
   */
  function LedTransfer(io: seq<Bulk>): (r: Option<Reply>)
    ensures r.None? <==> |io| == 0 || (|io| == 1 && Full(io[0]))
    ensures r.Some? ==> r.value.used == (if Full(io[0]) then 2 else 1) && r.value.used <= |io|
    ensures r.Some? ==> r.value.sample.None?
    ensures r.Some? ==> (r.value.code == Failed <==> !Full(io[r.value.used - 1]))
    ensures r.Some? ==> (r.value.code == Finished <==>
                          r.value.used == 2 && Full(io[1]) && Validate(io[1].buffer) == Complete)
    ensures r.Some? ==> (r.value.code == Pending <==>
                          r.value.used == 2 && Full(io[1]) && Validate(io[1].buffer) != Complete)
  {
    if |io| == 0 then None
    else if !Full(io[0]) then Some(Reply(Failed, None, 1))
    else if |io| == 1 then None
    else if Full(io[1]) then
      var rx := io[1].buffer;
      if rx[0] == 0x42 && rx[1] == 0x00 && rx[3] == 0x10 then Some(Reply(Finished, None, 2))
      else Some(Reply(Pending, None, 2))
    else Some(Reply(Failed, None, 2))
  }

  /**
    The temperature program's `transfer_data`: any complete read finishes the
    call, and a reading is decoded from bytes 4 and 5 when the response
    announces one. Its final `return 0` cannot be reached.
   */
  function TempTransfer(io: seq<Bulk>): (r: Option<Reply>)
    ensures r.None? <==> |io| == 0 || (|io| == 1 && Full(io[0]))
    ensures r.Some? ==> r.value.used == (if Full(io[0]) then 2 else 1) && r.value.used <= |io|
    ensures r.Some? ==> r.value.code != Pending
    ensures r.Some? ==> (r.value.code == Failed <==> !Full(io[r.value.used - 1]))
    ensures r.Some? ==> (r.value.code == Finished <==> r.value.used == 2 && Full(io[1]))
    ensures r.Some? ==> (r.value.sample.Some? <==>
                          r.value.code == Finished && ReadingResponse(io[1].buffer))
    ensures r.Some? && r.value.sample.Some? ==>
              Validate(io[1].buffer) == Complete
              && r.value.sample.value == Tc77.Reading(io[1].buffer[4], io[1].buffer[5])
  {
    if |io| == 0 then None
    else if !Full(io[0]) then Some(Reply(Failed, None, 1))
    else if |io| == 1 then None
    else if Full(io[1]) then
      var rx := io[1].buffer;
      if rx[0] == 0x42 && rx[1] == 0x00 && rx[2] == 0x02 && rx[3] == 0x10 then
        Tc77.DecodeIsReading(rx[4], rx[5]);
        Some(Reply(Finished, Some(Tc77.Decode(rx[4], rx[5])), 2))
      else
        Some(Reply(Finished, None, 2))
    else Some(Reply(Failed, None, 2))
  }

  /**
    Neither program treats a rejected command (non-zero status byte, or a
    response that is not 0x42) as fatal: the LED program retries it, the
    temperature program counts it as a finished exchange.
   */
  lemma ProtocolErrorIsNotFatal(io: seq<Bulk>)
    requires |io| >= 2 && Full(io[0]) && Full(io[1])
    requires Validate(io[1].buffer) == ProtocolError
    ensures LedTransfer(io) == Some(Reply(Pending, None, 2))
    ensures TempTransfer(io) == Some(Reply(Finished, None, 2))
  {
  }

  /** A call looks only at the results it consumes: later results do not matter. */
  lemma TransferIgnoresLater(io: seq<Bulk>, more: seq<Bulk>)
    ensures LedTransfer(io).Some? ==> LedTransfer(io + more) == LedTransfer(io)
    ensures TempTransfer(io).Some? ==> TempTransfer(io + more) == TempTransfer(io)
  {
    if |io| >= 1 {
      assert (io + more)[0] == io[0];
    }
    if |io| >= 2 {
      assert (io + more)[1] == io[1];
    }
  }
}
