/**
  The `main` control flow of both programs after the interface is claimed:
  send the chip settings, then the SPI settings, then Transfer SPI Data
  packets in a loop. The loops have no bound, so a session is a function of a
  finite trace of bulk-transfer results; it ends when the program would
  return (Aborted, Completed) or when the trace runs out (OutOfTrace).
 */
module Session {
  import opened Bytes
  import opened Wrappers
  import opened Transfer
  import opened Frames

  datatype Status = Aborted | Completed | OutOfTrace

  /** One `transfer_data` call: the step of `main` that made it and its return code. */
  datatype Exchange<P> = Exchange(phase: P, code: int)

  /** Everything a session did: its exchanges in order, the readings it decoded and how it ended. */
  datatype Run<P> = Run(log: seq<Exchange<P>>, samples: seq<int>, status: Status)

  function Samples(s: Option<int>): seq<int>
  {
    if s.Some? then [s.value] else []
  }

  /** An exchange followed by the rest of the session. */
  function Prepend<P>(e: Exchange<P>, s: Option<int>, rest: Run<P>): Run<P>
  {
    Run([e] + rest.log, Samples(s) + rest.samples, rest.status)
  }

  /** Putting the same exchange in front of two runs keeps one a prefix of the other. */
  lemma PrependPrefix<P>(e: Exchange<P>, s: Option<int>, a: Run<P>, b: Run<P>)
    requires a.log <= b.log && a.samples <= b.samples
    ensures Prepend(e, s, a).log <= Prepend(e, s, b).log
    ensures Prepend(e, s, a).samples <= Prepend(e, s, b).samples
  {
  }

  /** Every exchange before the last one returned something other than 1. */
  predicate NoEarlyFailure<P>(log: seq<Exchange<P>>)
  {
    forall i :: 0 <= i < |log| - 1 ==> log[i].code != Failed
  }

  // ---------------------------------------------------------------------
  // Temperature program

  datatype TempStep = TempChip | TempSpi | Sampling

  function TempFrame(p: TempStep): Frame
  {
    match p
    case TempChip => ChipFrame()
    case TempSpi => Tc77SpiFrame()
    case Sampling => Tc77DataFrame()
  }

  /** The step after a call that did not return 1: configuration in order, then sampling forever. */
  function TempNext(p: TempStep): (q: TempStep)
    ensures q != TempChip
    ensures q == p <==> p == Sampling
  {
    match p
    case TempChip => TempSpi
    case TempSpi => Sampling
    case Sampling => Sampling
  }

  /** The temperature program from step `p` on, over the trace `io`. */
  function TempFrom(p: TempStep, io: seq<Bulk>): (r: Run<TempStep>)
    ensures r.status != Completed
    ensures |r.log| > 0 ==> r.log[0].phase == p
    ensures forall i :: 0 <= i < |r.log| - 1 ==> r.log[i + 1].phase == TempNext(r.log[i].phase)
    ensures forall i :: 0 <= i < |r.log| ==> r.log[i].code == Failed || r.log[i].code == Finished
    ensures NoEarlyFailure(r.log)
    ensures r.status == Aborted <==> |r.log| > 0 && r.log[|r.log| - 1].code == Failed
    ensures |r.samples| <= |r.log|
    decreases |io|
  {
    match TempTransfer(io)
    case None => Run([], [], OutOfTrace)
    case Some(reply) =>
      var e := Exchange(p, reply.code);
      if reply.code == Failed then Run([e], Samples(reply.sample), Aborted)
      else Prepend(e, reply.sample, TempFrom(TempNext(p), io[reply.used..]))
  }

  /** The temperature program's `main` from its first packet on. */
  function TempSession(io: seq<Bulk>): (r: Run<TempStep>)
    ensures r.status != Completed
    ensures |r.log| > 0 ==> r.log[0].phase == TempChip
    ensures |io| > 0 && !Full(io[0]) ==> r == Run([Exchange(TempChip, Failed)], [], Aborted)
  {
    TempFrom(TempChip, io)
  }

  /** The packets a temperature session wrote, in order. */
  function TempSent(r: Run<TempStep>): (s: seq<Frame>)
    ensures |s| == |r.log|
  {
    seq(|r.log|, i requires 0 <= i < |r.log| => TempFrame(r.log[i].phase))
  }

  // ---------------------------------------------------------------------
  // LED program

  datatype LedStep = LedChip | LedSpi | FirstWrite | SecondWrite

  function LedFrame(p: LedStep): Frame
  {
    match p
    case LedChip => ChipFrame()
    case LedSpi => Mcp23s08SpiFrame()
    case FirstWrite => FirstLedFrame()
    case SecondWrite => SecondLedFrame()
  }

  /**
    The step after a call that returned `code` (not 1): configuration steps
    proceed whatever the code; each data loop repeats until a 2.
   */
  function LedNext(p: LedStep, code: int): (q: LedStep)
    ensures q != LedChip
    ensures q == p <==> p == SecondWrite || (p == FirstWrite && code != Finished)
    ensures q == SecondWrite <==> p == SecondWrite || (p == FirstWrite && code == Finished)
  {
    match p
    case LedChip => LedSpi
    case LedSpi => FirstWrite
    case FirstWrite => if code == Finished then SecondWrite else FirstWrite
    case SecondWrite => SecondWrite
  }

  /** The LED program from step `p` on, over the trace `io`. */
  function LedFrom(p: LedStep, io: seq<Bulk>): (r: Run<LedStep>)
    ensures r.samples == []
    ensures |r.log| > 0 ==> r.log[0].phase == p
    ensures forall i :: 0 <= i < |r.log| - 1 ==>
              r.log[i + 1].phase == LedNext(r.log[i].phase, r.log[i].code)
    ensures forall i :: 0 <= i < |r.log| - 1 ==>
              !(r.log[i].phase == SecondWrite && r.log[i].code == Finished)
    ensures NoEarlyFailure(r.log)
    ensures r.status == Aborted <==> |r.log| > 0 && r.log[|r.log| - 1].code == Failed
    ensures r.status == Completed <==>
              |r.log| > 0 && r.log[|r.log| - 1].code == Finished && r.log[|r.log| - 1].phase == SecondWrite
    decreases |io|
  {
    match LedTransfer(io)
    case None => Run([], [], OutOfTrace)
    case Some(reply) =>
      var e := Exchange(p, reply.code);
      if reply.code == Failed then Run([e], [], Aborted)
      else if p == SecondWrite && reply.code == Finished then Run([e], [], Completed)
      else
        Prepend(e, None, LedFrom(LedNext(p, reply.code), io[reply.used..]))
  }

  /** The LED program's `main` from its first packet on. */
  function LedSession(io: seq<Bulk>): (r: Run<LedStep>)
    ensures r.samples == []
    ensures |r.log| > 0 ==> r.log[0].phase == LedChip
    ensures |io| > 0 && !Full(io[0]) ==> r == Run([Exchange(LedChip, Failed)], [], Aborted)
  {
    LedFrom(LedChip, io)
  }

  /** The packets an LED session wrote, in order. */
  function LedSent(r: Run<LedStep>): (s: seq<Frame>)
    ensures |s| == |r.log|
  {
    seq(|r.log|, i requires 0 <= i < |r.log| => LedFrame(r.log[i].phase))
  }

  // ---------------------------------------------------------------------
  // Properties of whole sessions

  /** The step of `main` that makes the temperature program's `i`-th call. */
  function TempStepAt(i: nat): TempStep
  {
    if i == 0 then TempChip else if i == 1 then TempSpi else Sampling
  }

  lemma {:induction false} TempStepAtIndex(log: seq<Exchange<TempStep>>, i: nat)
    requires |log| > 0 && log[0].phase == TempChip
    requires forall k :: 0 <= k < |log| - 1 ==> log[k + 1].phase == TempNext(log[k].phase)
    requires i < |log|
    ensures log[i].phase == TempStepAt(i)
    decreases i
  {
    if i > 0 {
      TempStepAtIndex(log, i - 1);
    }
  }

  /**
    The temperature program writes the chip settings, then the SPI settings,
    then the same data packet on every pass of its sampling loop, and ends
    only when a call returns 1 (or the trace runs out); it never completes.
   */
  lemma TempSessionOrder(io: seq<Bulk>)
    ensures var r := TempSession(io); var s := TempSent(r);
      && (|s| > 0 ==> s[0] == ChipFrame())
      && (|s| > 1 ==> s[1] == Tc77SpiFrame())
      && (forall i :: 2 <= i < |s| ==> s[i] == Tc77DataFrame())
      && r.status != Completed
      && (r.status == Aborted <==> |s| > 0 && r.log[|s| - 1].code == Failed)
  {
    var r := TempSession(io);
    forall i | 0 <= i < |r.log|
      ensures r.log[i].phase == TempStepAt(i)
    {
      TempStepAtIndex(r.log, i);
    }
  }

  /** The steps of an LED session: configuration, then the first loop, then the second. */
  lemma LedSessionSteps(io: seq<Bulk>)
    ensures var log := LedSession(io).log;
      && (|log| > 0 ==> log[0].phase == LedChip)
      && (|log| > 1 ==> log[1].phase == LedSpi)
      && (|log| > 2 ==> log[2].phase == FirstWrite)
      && (forall i :: 2 <= i < |log| ==> log[i].phase == FirstWrite || log[i].phase == SecondWrite)
  {
    var log := LedSession(io).log;
    forall i | 0 <= i < |log|
      ensures i == 0 ==> log[i].phase == LedChip
      ensures i == 1 ==> log[i].phase == LedSpi
      ensures i == 2 ==> log[i].phase == FirstWrite
      ensures i >= 2 ==> log[i].phase == FirstWrite || log[i].phase == SecondWrite
    {
      LedDataStep(log, i);
    }
  }

  /**
    The LED program writes the chip settings, the SPI settings, then data
    packets: first the first payload, later possibly the second.
   */
  lemma LedSessionOrder(io: seq<Bulk>)
    ensures var s := LedSent(LedSession(io));
      && (|s| > 0 ==> s[0] == ChipFrame())
      && (|s| > 1 ==> s[1] == Mcp23s08SpiFrame())
      && (|s| > 2 ==> s[2] == FirstLedFrame())
      && (forall i :: 2 <= i < |s| ==> s[i] == FirstLedFrame() || s[i] == SecondLedFrame())
  {
    LedSessionSteps(io);
  }

  /**
    In the data loops a 0 resends the same packet unchanged, a 2 moves from
    the first packet to the second, and the second packet is never followed
    by the first.
   */
  lemma LedSessionLoops(io: seq<Bulk>)
    ensures var r := LedSession(io); var s := LedSent(r);
      && (forall i :: 2 <= i < |s| - 1 ==> r.log[i].code == Pending ==> s[i + 1] == s[i])
      && (forall i :: 2 <= i < |s| - 1 ==> r.log[i].code == Finished ==>
            s[i] == FirstLedFrame() && s[i + 1] == SecondLedFrame())
      && (forall i :: 2 <= i < |s| - 1 ==> s[i] == SecondLedFrame() ==> s[i + 1] == SecondLedFrame())
  {
    var r := LedSession(io);
    var s := LedSent(r);
    LedSessionSteps(io);
    forall i | 2 <= i < |s| - 1
      ensures r.log[i].code == Pending ==> s[i + 1] == s[i]
      ensures r.log[i].code == Finished ==> s[i] == FirstLedFrame() && s[i + 1] == SecondLedFrame()
      ensures s[i] == SecondLedFrame() ==> s[i + 1] == SecondLedFrame()
    {
      LedFrameIsSecond(r.log[i].phase);
      LedFrameIsSecond(r.log[i + 1].phase);
    }
  }

  /** Among the data steps, only the second loop writes the second data packet. */
  lemma LedFrameIsSecond(p: LedStep)
    requires p == FirstWrite || p == SecondWrite
    ensures LedFrame(p) == SecondLedFrame() <==> p == SecondWrite
  {
    Frames.LedFramesDiffer();
  }

  /** A completed LED session sent at least four packets and ended with the second data packet. */
  lemma LedSessionCompleted(io: seq<Bulk>)
    ensures var r := LedSession(io); var s := LedSent(r);
      r.status == Completed ==> |s| >= 4 && s[|s| - 1] == SecondLedFrame()
  {
    var r := LedSession(io);
    LedSessionSteps(io);
    if r.status == Completed {
      assert r.log[|r.log| - 1].phase == SecondWrite;
    }
  }

  lemma {:induction false} LedDataStep(log: seq<Exchange<LedStep>>, i: nat)
    requires |log| > 0 && log[0].phase == LedChip
    requires forall k :: 0 <= k < |log| - 1 ==> log[k + 1].phase == LedNext(log[k].phase, log[k].code)
    requires i < |log|
    ensures i == 0 ==> log[i].phase == LedChip
    ensures i == 1 ==> log[i].phase == LedSpi
    ensures i == 2 ==> log[i].phase == FirstWrite
    ensures i >= 2 ==> log[i].phase == FirstWrite || log[i].phase == SecondWrite
    decreases i
  {
    if i > 0 {
      LedDataStep(log, i - 1);
    }
  }

  /**
    Once the temperature program has stopped, it consumes no further
    transport results: nothing is written after an abort.
   */
  lemma {:induction false} TempStopsForGood(p: TempStep, io: seq<Bulk>, more: seq<Bulk>)
    requires TempFrom(p, io).status != OutOfTrace
    ensures TempFrom(p, io + more) == TempFrom(p, io)
    decreases |io|
  {
    TransferIgnoresLater(io, more);
    match TempTransfer(io)
    case None =>
      assert false;
    case Some(reply) =>
      if reply.code != Failed {
        var rest := io[reply.used..];
        assert (io + more)[reply.used..] == rest + more;
        TempStopsForGood(TempNext(p), rest, more);
      }
  }

  /** While the temperature program is still running, a longer trace only extends what it did. */
  lemma {:induction false} TempPrefix(p: TempStep, io: seq<Bulk>, more: seq<Bulk>)
    ensures TempFrom(p, io).log <= TempFrom(p, io + more).log
    ensures TempFrom(p, io).samples <= TempFrom(p, io + more).samples
    decreases |io|
  {
    TransferIgnoresLater(io, more);
    match TempTransfer(io)
    case None =>
    case Some(reply) =>
      if reply.code != Failed {
        var rest, next := io[reply.used..], TempNext(p);
        assert (io + more)[reply.used..] == rest + more;
        TempPrefix(next, rest, more);
        PrependPrefix(Exchange(p, reply.code), reply.sample, TempFrom(next, rest), TempFrom(next, rest + more));
      }
  }

  /**
    Once the LED program has aborted or completed, it consumes no further
    transport results: nothing is written after an abort or after the
    second loop's 2.
   */
  lemma {:induction false} LedStopsForGood(p: LedStep, io: seq<Bulk>, more: seq<Bulk>)
    requires LedFrom(p, io).status != OutOfTrace
    ensures LedFrom(p, io + more) == LedFrom(p, io)
    decreases |io|
  {
    TransferIgnoresLater(io, more);
    match LedTransfer(io)
    case None =>
      assert false;
    case Some(reply) =>
      if reply.code != Failed && !(p == SecondWrite && reply.code == Finished) {
        var rest, next := io[reply.used..], LedNext(p, reply.code);
        assert (io + more)[reply.used..] == rest + more;
        LedStopsForGood(next, rest, more);
      }
  }

  /** While the LED program is still running, a longer trace only extends what it did. */
  lemma {:induction false} LedPrefix(p: LedStep, io: seq<Bulk>, more: seq<Bulk>)
    ensures LedFrom(p, io).log <= LedFrom(p, io + more).log
    decreases |io|
  {
    TransferIgnoresLater(io, more);
    match LedTransfer(io)
    case None =>
    case Some(reply) =>
      if reply.code != Failed && !(p == SecondWrite && reply.code == Finished) {
        var rest, next := io[reply.used..], LedNext(p, reply.code);
        assert (io + more)[reply.used..] == rest + more;
        LedPrefix(next, rest, more);
        PrependPrefix(Exchange(p, reply.code), None, LedFrom(next, rest), LedFrom(next, rest + more));
      }
  }

  // ---------------------------------------------------------------------
  // Scenarios

  /** A response whose bytes 0..5 are given and whose other bytes are zero. */
  function Response(b0: Byte, b1: Byte, b2: Byte, b3: Byte, b4: Byte, b5: Byte): (f: Frame)
    ensures f[0] == b0 && f[1] == b1 && f[2] == b2 && f[3] == b3 && f[4] == b4 && f[5] == b5
  {
    [b0, b1, b2, b3, b4, b5] + Fill(0, 58)
  }

  /** A complete bulk transfer leaving `f` in the receive buffer. */
  function Ok(f: Frame): Bulk
  {
    Bulk(0, 64, f)
  }

  /** The code the LED program's `transfer_data` returns for a complete exchange answered by `r`. */
  function LedCode(r: Frame): int
  {
    if Validate(r) == Complete then Finished else Pending
  }

  /** One LED exchange whose write and read are both complete. */
  lemma LedExchange(p: LedStep, w: Bulk, rx: Bulk, rest: seq<Bulk>)
    requires Full(w) && Full(rx)
    ensures var code := LedCode(rx.buffer);
      LedFrom(p, [w, rx] + rest) ==
        if p == SecondWrite && code == Finished then Run([Exchange(p, code)], [], Completed)
        else Prepend(Exchange(p, code), None, LedFrom(LedNext(p, code), rest))
  {
    assert ([w, rx] + rest)[2..] == rest;
  }

  /** `LedExchange` for a configuration step, field by field. */
  lemma LedConfigExchange(p: LedStep, w: Bulk, a: Bulk, rest: seq<Bulk>)
    requires Full(w) && Full(a) && (p == LedChip || p == LedSpi)
    ensures var r, s := LedFrom(p, [w, a] + rest), LedFrom(LedNext(p, LedCode(a.buffer)), rest);
      && r.log == [Exchange(p, LedCode(a.buffer))] + s.log
      && r.status == s.status
  {
    LedExchange(p, w, a, rest);
  }

  /**
    Two LED configuration exchanges whose writes and reads all move 64 bytes
    proceed to the first data loop whatever the answers hold, logging 2 for
    an answer that reads as finished and 0 otherwise.
   */
  lemma LedConfiguration(w1: Bulk, a1: Bulk, w2: Bulk, a2: Bulk, rest: seq<Bulk>)
    requires Full(w1) && Full(a1) && Full(w2) && Full(a2)
    ensures var r := LedSession([w1, a1] + ([w2, a2] + rest));
      var s := LedFrom(FirstWrite, rest);
      && r.log == [Exchange(LedChip, LedCode(a1.buffer)), Exchange(LedSpi, LedCode(a2.buffer))] + s.log
      && r.status == s.status
  {
    var s := LedFrom(FirstWrite, rest);
    LedConfigExchange(LedSpi, w2, a2, rest);
    LedConfigExchange(LedChip, w1, a1, [w2, a2] + rest);
    var e1, e2 := Exchange(LedChip, LedCode(a1.buffer)), Exchange(LedSpi, LedCode(a2.buffer));
    ConcatAssoc([e1], [e2], s.log);
    assert [e1] + [e2] == [e1, e2];
  }

  /** The TC77 reading a response announces, if it announces one. */
  function Announced(r: Frame): Option<int>
  {
    if ReadingResponse(r) then Some(Tc77.Reading(r[4], r[5])) else None
  }

  /** One temperature exchange whose write and read are both complete. */
  lemma TempExchange(p: TempStep, w: Bulk, rx: Bulk, rest: seq<Bulk>)
    requires Full(w) && Full(rx)
    ensures TempFrom(p, [w, rx] + rest) == Prepend(Exchange(p, Finished), Announced(rx.buffer), TempFrom(TempNext(p), rest))
  {
    assert ([w, rx] + rest)[2..] == rest;
  }

  /**
    The LED program's data loops from the first data packet on, over: one
    "busy" answer, then "finished" to each of the two data packets.
   */
  lemma LedDataScenario(config: Frame, busy: Frame, done: Frame)
    requires Validate(busy) == Incomplete && Validate(done) == Complete
    ensures LedFrom(FirstWrite, [Ok(config), Ok(busy), Ok(config), Ok(done), Ok(config), Ok(done)]) ==
              Run([Exchange(FirstWrite, Pending), Exchange(FirstWrite, Finished), Exchange(SecondWrite, Finished)],
                  [], Completed)
  {
    var c, b, d := Ok(config), Ok(busy), Ok(done);
    var io2: seq<Bulk> := [c, d] + [];
    var io1 := [c, d] + io2;
    var io0 := [c, b] + io1;
    assert io0 == [c, b, c, d, c, d];
    LedExchange(SecondWrite, c, d, []);
    var r2 := LedFrom(SecondWrite, io2);
    assert r2 == Run([Exchange(SecondWrite, Finished)], [], Completed);
    LedExchange(FirstWrite, c, d, io2);
    var r1 := LedFrom(FirstWrite, io1);
    assert r1 == Prepend(Exchange(FirstWrite, Finished), None, r2);
    LedExchange(FirstWrite, c, b, io1);
    var r0 := LedFrom(FirstWrite, io0);
    assert r0 == Prepend(Exchange(FirstWrite, Pending), None, r1);
    assert r0.log == [Exchange(FirstWrite, Pending)] + ([Exchange(FirstWrite, Finished)] + r2.log);
  }

  /**
    The LED program over: two configuration exchanges, a first data packet
    answered "busy" and then "finished", and a second data packet answered
    "finished". It completes after five packets.
   */
  lemma LedScenario(config: Frame, busy: Frame, done: Frame)
    requires Validate(config) == ProtocolError && Validate(busy) == Incomplete && Validate(done) == Complete
    ensures var io := [Ok(config), Ok(config), Ok(config), Ok(config), Ok(config), Ok(busy),
                       Ok(config), Ok(done), Ok(config), Ok(done)];
      LedSession(io) ==
        Run([Exchange(LedChip, Pending), Exchange(LedSpi, Pending), Exchange(FirstWrite, Pending),
             Exchange(FirstWrite, Finished), Exchange(SecondWrite, Finished)],
            [], Completed)
  {
    var c := Ok(config);
    var rest: seq<Bulk> := [Ok(config), Ok(busy), Ok(config), Ok(done), Ok(config), Ok(done)];
    assert [c, c] + ([c, c] + rest) ==
           [Ok(config), Ok(config), Ok(config), Ok(config), Ok(config), Ok(busy),
            Ok(config), Ok(done), Ok(config), Ok(done)];
    LedDataScenario(config, busy, done);
    LedConfiguration(c, c, c, c, rest);
  }


  /** The packets of that LED session: configuration, the first data packet twice, the second once. */
  lemma LedScenarioSent(config: Frame, busy: Frame, done: Frame)
    requires Validate(config) == ProtocolError && Validate(busy) == Incomplete && Validate(done) == Complete
    ensures var io := [Ok(config), Ok(config), Ok(config), Ok(config), Ok(config), Ok(busy),
                       Ok(config), Ok(done), Ok(config), Ok(done)];
      LedSent(LedSession(io)) ==
        [ChipFrame(), Mcp23s08SpiFrame(), FirstLedFrame(), FirstLedFrame(), SecondLedFrame()]
  {
    LedScenario(config, busy, done);
  }

  /**
    The temperature program over: two configuration exchanges, one reading,
    then a write that fails. It aborts after four packets with the one
    reading as its only sample.
   */
  lemma TempScenario(config: Frame, reading: Frame, failed: Bulk)
    requires !ReadingResponse(config) && ReadingResponse(reading) && failed.rslt != 0
    ensures TempSession([Ok(config), Ok(config), Ok(config), Ok(config), Ok(config), Ok(reading), failed]) ==
              Run([Exchange(TempChip, Finished), Exchange(TempSpi, Finished),
                   Exchange(Sampling, Finished), Exchange(Sampling, Failed)],
                  [Tc77.Reading(reading[4], reading[5])], Aborted)
  {
    var rest := [Ok(config), Ok(reading), failed];
    assert [Ok(config), Ok(config), Ok(config), Ok(config)] + rest ==
           [Ok(config), Ok(config), Ok(config), Ok(config), Ok(config), Ok(reading), failed];
    assert [Ok(config), Ok(config)] + ([Ok(config), Ok(config)] + rest) ==
           [Ok(config), Ok(config), Ok(config), Ok(config)] + rest;
    TempConfiguration(Ok(config), Ok(config), Ok(config), Ok(config), rest);
    TempSamplingScenario(config, reading, failed);
  }

  /**
    Two configuration exchanges whose writes and reads all move 64 bytes
    log 2 and 2, whatever the answers hold, and hand the rest of the trace
    to the sampling loop. An answer that happens to announce a reading
    contributes that reading.
   */
  lemma TempConfiguration(w1: Bulk, a1: Bulk, w2: Bulk, a2: Bulk, rest: seq<Bulk>)
    requires Full(w1) && Full(a1) && Full(w2) && Full(a2)
    ensures var r := TempSession([w1, a1] + ([w2, a2] + rest));
      var s := TempFrom(Sampling, rest);
      && r.log == [Exchange(TempChip, Finished), Exchange(TempSpi, Finished)] + s.log
      && r.samples == Samples(Announced(a1.buffer)) + Samples(Announced(a2.buffer)) + s.samples
      && r.status == s.status
  {
    var r2 := TempFrom(Sampling, rest);
    TempExchangeFields(TempSpi, w2, a2, rest);
    TempExchangeFields(TempChip, w1, a1, [w2, a2] + rest);
    var e1, e2 := Exchange(TempChip, Finished), Exchange(TempSpi, Finished);
    ConcatAssoc([e1], [e2], r2.log);
    assert [e1] + [e2] == [e1, e2];
    ConcatAssoc(Samples(Announced(a1.buffer)), Samples(Announced(a2.buffer)), r2.samples);
  }

  lemma ConcatAssoc<T>(a: seq<T>, b: seq<T>, c: seq<T>)
    ensures a + (b + c) == a + b + c
  {
  }

  /** `TempExchange`, field by field. */
  lemma TempExchangeFields(p: TempStep, w: Bulk, a: Bulk, rest: seq<Bulk>)
    requires Full(w) && Full(a)
    ensures var r, s := TempFrom(p, [w, a] + rest), TempFrom(TempNext(p), rest);
      && r.log == [Exchange(p, Finished)] + s.log
      && r.samples == Samples(Announced(a.buffer)) + s.samples
      && r.status == s.status
  {
    TempExchange(p, w, a, rest);
  }

  /** The sampling loop over one reading and then a failed write. */
  lemma TempSamplingScenario(config: Frame, reading: Frame, failed: Bulk)
    requires ReadingResponse(reading) && failed.rslt != 0
    ensures TempFrom(Sampling, [Ok(config), Ok(reading), failed]) ==
              Run([Exchange(Sampling, Finished), Exchange(Sampling, Failed)],
                  [Tc77.Reading(reading[4], reading[5])], Aborted)
  {
    var c, d := Ok(config), Ok(reading);
    var io1: seq<Bulk> := [failed];
    var io0 := [c, d] + io1;
    assert io0 == [c, d, failed];
    var r1 := TempFrom(Sampling, io1);
    assert r1 == Run([Exchange(Sampling, Failed)], [], Aborted);
    TempExchange(Sampling, c, d, io1);
    var r0 := TempFrom(Sampling, io0);
    assert r0 == Prepend(Exchange(Sampling, Finished), Some(Tc77.Reading(reading[4], reading[5])), r1);
  }

  /**
    The same session with the bytes the TC77 returns at 50.25 degrees
    (`19 20`): the one sample is 804 sixteenths of a degree.
   */
  lemma TempScenarioBytes()
    ensures var config := Response(0x60, 0x00, 0x00, 0x00, 0, 0);
      var reading := Response(0x42, 0x00, 0x02, 0x10, 0x19, 0x20);
      var r := TempSession([Ok(config), Ok(config), Ok(config), Ok(config), Ok(config), Ok(reading),
                            Bulk(-7, 0, config)]);
      && r.status == Aborted
      && r.samples == [804]
      && Tc77.Celsius(r.samples[0]) == 50.25
      && TempSent(r) == [ChipFrame(), Tc77SpiFrame(), Tc77DataFrame(), Tc77DataFrame()]
  {
    var config := Response(0x60, 0x00, 0x00, 0x00, 0, 0);
    var reading := Response(0x42, 0x00, 0x02, 0x10, 0x19, 0x20);
    assert Tc77.Reading(reading[4], reading[5]) == 804 by {
      Tc77.DecodeExamples();
      Tc77.DecodeIsReading(0x19, 0x20);
    }
    TempScenario(config, reading, Bulk(-7, 0, config));
    TempScenarioSent(config, reading, Bulk(-7, 0, config));
  }

  /** The packets of that temperature session: configuration, then the data packet twice. */
  lemma TempScenarioSent(config: Frame, reading: Frame, failed: Bulk)
    requires !ReadingResponse(config) && ReadingResponse(reading) && failed.rslt != 0
    ensures TempSent(TempSession([Ok(config), Ok(config), Ok(config), Ok(config), Ok(config), Ok(reading), failed])) ==
              [ChipFrame(), Tc77SpiFrame(), Tc77DataFrame(), Tc77DataFrame()]
  {
    TempScenario(config, reading, failed);
  }

  /**
    The LED session with concrete answers: a configuration echo, and data
    answers with status (byte 1) 0x00 whose SPI engine state (byte 3) is
    0x20 (busy) or 0x10 (finished).
   */
  lemma LedScenarioBytes()
    ensures var config := Response(0x60, 0x00, 0x00, 0x00, 0, 0);
      var busy := Response(0x42, 0x00, 0x03, 0x20, 0, 0);
      var done := Response(0x42, 0x00, 0x03, 0x10, 0, 0);
      var r := LedSession([Ok(config), Ok(config), Ok(config), Ok(config), Ok(config), Ok(busy),
                           Ok(config), Ok(done), Ok(config), Ok(done)]);
      && r.status == Completed
      && LedSent(r) == [ChipFrame(), Mcp23s08SpiFrame(), FirstLedFrame(), FirstLedFrame(), SecondLedFrame()]
  {
    var config := Response(0x60, 0x00, 0x00, 0x00, 0, 0);
    var busy := Response(0x42, 0x00, 0x03, 0x20, 0, 0);
    var done := Response(0x42, 0x00, 0x03, 0x10, 0, 0);
    LedScenario(config, busy, done);
    LedScenarioSent(config, busy, done);
  }
}
