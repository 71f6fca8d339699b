/** The timing of a running controller in the numbers it was configured with: send clock factor `scf`,
    reduction ratio `rr` and watchdog factor `wd`, as `build_iocr_configs` takes them (src/rt.rs). The send
    clock is 31.25 us, so a cycle is `rr * scf * 125 / 4` microseconds. */
module Timing {
  import opened Bytes
  import opened Wrappers
  import opened Ethernet
  import opened Rt
  import opened DataBuilder
  import opened Cyclic
  import opened CyclicRuns
  import opened Watchdog
  import opened RxStatistics

  /** The cycle of a configuration, in whole microseconds. */
  function CycleOf(scf: u16, rr: u16): nat {
    (rr as nat) * (scf as nat) * 125 / 4
  }

  /** The controller receives as configured. */
  predicate ReceivesAs(setup: Setup, slots: seq<IoSlot>, frameId: u16, scf: u16, rr: u16, wd: u16) {
    setup.input == InputConfig(slots, frameId, scf, rr, wd)
  }

  predicate SendsAs(setup: Setup, slots: seq<IoSlot>, frameId: u16, scf: u16, rr: u16, wd: u16) {
    setup.output == OutputConfig(slots, frameId, scf, rr, wd)
  }

  lemma ReceiveTiming(setup: Setup, slots: seq<IoSlot>, frameId: u16, scf: u16, rr: u16, wd: u16)
    requires ReceivesAs(setup, slots, frameId, scf, rr, wd)
    ensures setup.input.frameId == frameId && setup.input.CycleTimeUs() == CycleOf(scf, rr)
    ensures setup.Watchdog() == wd * CycleOf(scf, rr) && setup.RxStep() == (scf as nat) * (rr as nat)
    ensures setup.input.phase == 0
  {
    hide DataObjects, LayoutLength;
  }

  lemma SendTiming(setup: Setup, slots: seq<IoSlot>, frameId: u16, scf: u16, rr: u16, wd: u16)
    requires SendsAs(setup, slots, frameId, scf, rr, wd)
    ensures setup.output.frameId == frameId && setup.output.CycleTimeUs() == CycleOf(scf, rr)
    ensures setup.TxStep() == (scf as nat) * (rr as nat)
    ensures setup.output.phase == 0
  {
    hide DataObjects, IocsObjects, LayoutLength;
  }

  // -------------------------------------------------------------------------
  // The watchdog
  // -------------------------------------------------------------------------

  /** The watchdog elapses exactly when more than `wd` cycles have passed since it was last armed. */
  lemma WatchdogElapsesExactly(setup: Setup, slots: seq<IoSlot>, frameId: u16, scf: u16, rr: u16, wd: u16, c: Shared, now: int)
    requires ReceivesAs(setup, slots, frameId, scf, rr, wd)
    ensures TimesOut(setup, c, now) <==> now - c.stats.lastReceiveTime > wd * CycleOf(scf, rr)
    ensures CheckReceiveWatchdog(setup, c, now) == c <==> now - c.stats.lastReceiveTime <= wd * CycleOf(scf, rr)
  {
    hide Setup.Watchdog, AllIocsSet, ReceivesAs, CycleOf;
    ReceiveTiming(setup, slots, frameId, scf, rr, wd);
  }

  /** A running link without usable frames is in Fault within N times `wd` cycles and one distance between
      passes, N being the timeouts still missing. */
  lemma FaultByConfiguredDeadline(setup: Setup, slots: seq<IoSlot>, frameId: u16, scf: u16, rr: u16, wd: u16,
                                  start: Run, acts: seq<Act>, d: nat)
    requires ReceivesAs(setup, slots, frameId, scf, rr, wd)
    requires Ready(setup, start) && Silent(setup, acts, d)
    requires start.c.state == Running && start.c.stats.consecutiveTimeouts < setup.maxTimeouts && !TimesOut(setup, start.c, start.clock)
    ensures var n := setup.maxTimeouts - start.c.stats.consecutiveTimeouts;
            var deadline := start.c.stats.lastReceiveTime + n * (wd * CycleOf(scf, rr) + d);
            After(setup, start, acts).clock > deadline - d ==>
              && After(setup, start, acts).c.state == Fault
              && exists j :: 0 <= j <= |acts| && FaultsBy(setup, start, acts[..j], deadline)
  {
    hide Setup.Watchdog, After, Silent, ReceivesAs, CycleOf, TimesOut;
    ReceiveTiming(setup, slots, frameId, scf, rr, wd);
    if After(setup, start, acts).clock > Deadline(setup, start.c, d) - d {
      FaultByDeadline(setup, start, acts, d);
    }
  }

  /** And from a fresh start it is never in Fault before N times `wd` cycles have passed since the last
      usable frame. */
  lemma NoFaultBeforeConfigured(setup: Setup, slots: seq<IoSlot>, frameId: u16, scf: u16, rr: u16, wd: u16,
                                start: Run, acts: seq<Act>, reception: Reception, wait: nat)
    requires ReceivesAs(setup, slots, frameId, scf, rr, wd)
    requires Ready(setup, start) && start.c.stats == FreshStats(start.clock) && start.c.state == Running
    requires After(setup, start, acts).c.state != Fault && After(setup, start, acts + [Rx(reception, wait)]).c.state == Fault
    ensures var now := After(setup, start, acts).clock + wait;
            && setup.maxTimeouts > 0
            && now - LastAlive(start.clock, After(setup, start, acts).c.stats) > setup.maxTimeouts * (wd * CycleOf(scf, rr))
  {
    hide Setup.Watchdog, After, ReceivesAs, CycleOf;
    ReceiveTiming(setup, slots, frameId, scf, rr, wd);
    NoEarlyFault(setup, start, acts, reception, wait);
  }

  // -------------------------------------------------------------------------
  // The cycle counter
  // -------------------------------------------------------------------------

  /** What the next transmission puts on the wire after a run of `k` transmissions: addressed, with the
      agreed frame ID, `k + 1` steps of `scf * rr` counted modulo 65536 from where the run began, the status
      of a running primary with valid data, and the application's image. Receivers of this kind take it for
      a sign of life. */
  lemma OutputOnTheWire(setup: Setup, slots: seq<IoSlot>, frameId: u16, scf: u16, rr: u16, wd: u16, start: Run, acts: seq<Act>)
    requires SendsAs(setup, slots, frameId, scf, rr, wd) && Ready(setup, start) && Coherent(start.c.buffers)
    ensures var c, k := After(setup, start, acts).c, Transmissions(acts);
            var (c', frame) := TxFrame(setup, c);
            var counter := (start.c.cycleCounter + (k + 1) * ((scf as nat) * (rr as nat))) % 0x1_0000;
            && |frame| > 18 && frame[..6] == setup.dstMac && frame[6..12] == setup.srcMac && frame[12..18] == [0x81, 0x00, 0xC0, 0x00, 0x88, 0x92]
            && ParseEthernetFrame(frame) == Some(RtFrame(frameId, counter, 0x35, 0, c.buffers.write))
            && FrameIsAlive(ParseEthernetFrame(frame).value)
            && c'.cycleCounter == counter && c'.buffers == Buffers(c.buffers.write, c.buffers.write, false)
  {
    hide After, TxFrame, Setup.TxStep, ParseEthernetFrame, FrameIsAlive, SendsAs, Coherent;
    SendTiming(setup, slots, frameId, scf, rr, wd);
    TransmitCounterCounts(setup, start, acts);
    EveryFrameCarriesTheImage(setup, start, acts, RUN_STATUS);
    OneMoreStep(start.c.cycleCounter, Transmissions(acts), (scf as nat) * (rr as nat));
    NextOnTheWire(setup, After(setup, start, acts).c);
  }

  lemma NextOnTheWire(setup: Setup, c: Shared)
    requires Coherent(c.buffers)
    ensures var (c', frame) := TxFrame(setup, c);
            var counter := (c.cycleCounter + setup.TxStep()) % 0x1_0000;
            && |frame| > 18 && frame[..6] == setup.dstMac && frame[6..12] == setup.srcMac && frame[12..18] == [0x81, 0x00, 0xC0, 0x00, 0x88, 0x92]
            && ParseEthernetFrame(frame) == Some(RtFrame(setup.output.frameId, counter, 0x35, 0, c.buffers.write))
            && FrameIsAlive(ParseEthernetFrame(frame).value)
            && c'.cycleCounter == counter && c'.buffers == Buffers(c.buffers.write, c.buffers.write, false)
  {
    hide Setup.TxStep, BuildEthernetFrame, ParseEthernetFrame;
    var f := RtFrame(setup.output.frameId, (c.cycleCounter + setup.TxStep()) % 0x1_0000, RUN_STATUS, 0, c.buffers.write);
    BuiltFrameRoundTrip(setup.dstMac, setup.srcMac, f);
    Addresses(setup.dstMac, setup.srcMac, f);
  }

  lemma Addresses(dst: Mac, src: Mac, f: RtFrame)
    ensures var frame := BuildEthernetFrame(dst, src, f);
            |frame| > 18 && frame[..6] == dst && frame[6..12] == src && frame[12..18] == [0x81, 0x00, 0xC0, 0x00, 0x88, 0x92]
  {
    var frame := BuildEthernetFrame(dst, src, f);
    assert frame[12..16] == [0x81, 0x00, 0xC0, 0x00] && frame[16..18] == Be16(ETHERTYPE_PROFINET) == [0x88, 0x92];
    assert frame[12..18] == frame[12..16] + frame[16..18];
  }

  /** A STOP frame differs in its status alone: valid data of a primary that does not run. */
  lemma StopOnTheWire(setup: Setup, slots: seq<IoSlot>, frameId: u16, scf: u16, rr: u16, wd: u16, c: Shared)
    requires SendsAs(setup, slots, frameId, scf, rr, wd) && Coherent(c.buffers)
    ensures var frame := NextOutputFrame(setup, c, STOP_STATUS).1;
            && ParseEthernetFrame(frame)
               == Some(RtFrame(frameId, (c.cycleCounter + (scf as nat) * (rr as nat)) % 0x1_0000, 0x25, 0, c.buffers.write))
            && !FrameIsAlive(ParseEthernetFrame(frame).value)
  {
    hide Setup.TxStep, BuildEthernetFrame, ParseEthernetFrame, SendsAs;
    SendTiming(setup, slots, frameId, scf, rr, wd);
    var f := RtFrame(frameId, (c.cycleCounter + (scf as nat) * (rr as nat)) % 0x1_0000, STOP_STATUS, 0, c.buffers.write);
    BuiltFrameRoundTrip(setup.dstMac, setup.srcMac, f);
  }

  /** Received: against a device that counts in steps of `scf * rr`, what the statistics of a run count as
      missed, less the timeouts, is exactly what was sent and not seen. */
  lemma FramesAreConservedAsConfigured(setup: Setup, slots: seq<IoSlot>, frameId: u16, scf: u16, rr: u16, wd: u16,
                                       start: Run, acts: seq<Act>, indices: seq<nat>, base: u16)
    requires ReceivesAs(setup, slots, frameId, scf, rr, wd) && scf > 0 && rr > 0
    requires Ready(setup, start) && start.c.stats == FreshStats(start.clock) && start.c.lastRxCounter == None && indices != []
    requires FromSender(Counters(Trace(setup, start, acts)), indices, base, (scf as nat) * (rr as nat))
    ensures var st := After(setup, start, acts).c.stats;
            && st.framesOutOfOrder == 0 && st.framesDuplicate == Repeats(indices)
            && st.framesReceived + st.framesMissed + indices[0]
               == indices[|indices| - 1] + 1 + st.framesDuplicate + Timeouts(Trace(setup, start, acts))
  {
    hide After, Trace, FromSender, Setup.RxStep, ReceivesAs;
    ReceiveTiming(setup, slots, frameId, scf, rr, wd);
    assert setup.RxStep() > 0 by { hide *; Positive(setup, scf, rr); }
    FramesAreConserved(setup, start, acts, indices, base);
  }

  lemma Positive(setup: Setup, scf: u16, rr: u16)
    requires scf > 0 && rr > 0 && setup.RxStep() == (scf as nat) * (rr as nat)
    ensures setup.RxStep() > 0
  {
    hide Setup.RxStep;
    ProductGrows(1, scf, rr);
  }

  /** Jitter is measured against the configured cycle. */
  lemma IntervalsAgainstConfiguredCycle(setup: Setup, slots: seq<IoSlot>, frameId: u16, scf: u16, rr: u16, wd: u16, start: Run, acts: seq<Act>)
    requires ReceivesAs(setup, slots, frameId, scf, rr, wd)
    requires Ready(setup, start) && start.c.stats == FreshStats(start.clock) && start.c.lastRxCounter == None
    ensures TellsIntervals(After(setup, start, acts).c.stats, CycleOf(scf, rr), Trace(setup, start, acts))
  {
    hide After, Trace, ReceivesAs, CycleOf, TellsIntervals, TellsLast, TellsCounters;
    ReceiveTiming(setup, slots, frameId, scf, rr, wd);
    StatisticsTellTheTrace(setup, start, acts);
  }
}
