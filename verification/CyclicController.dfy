/** The cyclic controller in place: every method of the source that changes the shared state, proved
    to do what the steps of `Cyclic` say (src/cyclic.rs). */
module CyclicControllers {
  import opened Bytes
  import opened Wrappers
  import opened Ethernet
  import opened Rt
  import opened DataBuilder
  import opened Cyclic

  const STOP_FRAME_COUNT := 3

  /** The next STOP frame. */
  function StopBuilt(setup: Setup, c: Shared): (Shared, bytes) {
    NextOutputFrame(setup, c.(buffers := Swapped(c.buffers)), STOP_STATUS)
  }

  function CountSent(c: Shared): Shared {
    c.(stats := c.stats.(framesSent := c.stats.framesSent + 1))
  }

  /** STOP transmissions, one per entry of `ok` until the first that fails: the state after them and the
      frames that went out. */
  function StopFrames(setup: Setup, c: Shared, ok: seq<bool>): (Shared, seq<bytes>)
    decreases |ok|
  {
    if ok == [] then (c, [])
    else
      var (c1, frame) := StopBuilt(setup, c);
      if !ok[0] then (c1, [])
      else
        var (c2, sent) := StopFrames(setup, CountSent(c1), ok[1..]);
        (c2, [frame] + sent)
  }

  /** One turn of the loop, with `done` sent before. */
  lemma StopFramesStep(setup: Setup, c: Shared, ok: seq<bool>, done: seq<bytes>)
    ensures var (c', sent) := StopFrames(setup, c, ok);
            if ok == [] then c' == c && done + sent == done
            else
              var (c1, frame) := StopBuilt(setup, c);
              if !ok[0] then c' == c1 && done + sent == done
              else
                var (c2, rest) := StopFrames(setup, CountSent(c1), ok[1..]);
                c' == c2 && done + sent == (done + [frame]) + rest
  {
    hide StopBuilt, CountSent;
  }

  /** `stop` with no other thread at work. Without a transmit thread to take a socket back from, `ok`
      is empty. */
  function StopAlone(setup: Setup, c: Shared, ok: seq<bool>): (Shared, seq<bytes>)
    requires InBounds(setup.output) && Sized(c.buffers, setup.output)
  {
    var c1 := ApplySafeOutput(setup, c);
    if !c1.running then (c1, [])
    else
      var (c2, sent) := StopFrames(setup, Transition(c1, Stopping).(running := false), ok);
      (Transition(c2, Stopped), sent)
  }

  /** A start whose sockets do not open leaves the controller in Starting with the run flag set: it can
      not be started again until it is stopped, and then it can. */
  lemma FailedStartNeedsStop(setup: Setup, c: Shared, now: int, later: int, opening: Opening)
    requires InBounds(setup.output) && Sized(c.buffers, setup.output)
    requires c.state.Idle? || c.state.Stopped? || c.state.Fault?
    ensures var c1 := Cyclic.Start(c, now, NoSockets).0;
            && !Cyclic.Start(c, now, NoSockets).1 && c1.state == Starting && c1.running
            && Cyclic.Start(c1, later, opening) == (c1, false)
            && Sized(c1.buffers, setup.output)
            && var c2 := StopAlone(setup, c1, []).0;
               c2.state == Stopped && !c2.running && Cyclic.Start(c2, later, Works).1
  {
    hide DataSet, IopsSet, StopFrames;
    NoStopFrames(setup, Transition(ApplySafeOutput(setup, Cyclic.Start(c, now, NoSockets).0), Stopping).(running := false));
  }

  class Controller {
    const setup: Setup
    const builder: CyclicDataBuilder
    var state: CyclicState
    var running: bool
    var everFaulted: bool
    var cycleCounter: u16
    var inputs: map<Key, InputEntry>
    var lastRxCounter: Option<u16>
    var stats: Stats
    var safeOutput: Option<(u16, u16, bytes)>
    var statusLog: seq<(Key, u8)>
    var dataLog: seq<(Key, bytes)>
    var stateLog: seq<(CyclicState, CyclicState)>

    ghost predicate Valid()
      reads this, builder
    {
      builder.Valid() && builder.config == setup.output
    }

    ghost function View(): Shared
      reads this, builder, builder.writeBuffer, builder.sendBuffer
    {
      Shared(state, running, everFaulted, cycleCounter, builder.View(), inputs, lastRxCounter, stats, safeOutput,
             statusLog, dataLog, stateLog)
    }

    constructor (s: Setup, now: int)
      requires InBounds(s.output)
      ensures Valid() && setup == s && View() == NewShared(s, now)
      ensures fresh(builder) && fresh(builder.writeBuffer) && fresh(builder.sendBuffer)
    {
      setup := s;
      state, running, everFaulted, cycleCounter := Idle, false, false, 0;
      inputs, lastRxCounter, stats, safeOutput := map[], None, FreshStats(now), None;
      statusLog, dataLog, stateLog := [], [], [];
      builder := new CyclicDataBuilder(s.output);
      new;
      builder.SetAllIops(IOXS_GOOD);
    }

    /** Cycles under a millisecond are refused: the pacing of the transmit loop cannot keep them. */
    static method New(s: Setup, now: int) returns (r: Option<Controller>)
      requires InBounds(s.output)
      ensures r.Some? <==> s.output.CycleTimeUs() >= 1000
      ensures r.Some? ==> fresh(r.value) && r.value.Valid() && r.value.setup == s && r.value.View() == NewShared(s, now)
    {
      if s.output.CycleTimeUs() < 1000 {
        return None;
      }
      var c := new Controller(s, now);
      return Some(c);
    }

    /** No-op if unchanged; a fault is remembered. */
    method Transition(newState: CyclicState)
      requires Valid()
      modifies this
      ensures Valid() && View() == Cyclic.Transition(old(View()), newState)
    {
      var before := state;
      if before == newState {
        return;
      }
      state := newState;
      if newState == Fault {
        everFaulted := true;
      }
      stateLog := stateLog + [(before, newState)];
    }

    method NextOutputFrame(status: u8) returns (frame: bytes)
      requires Valid()
      modifies this, builder, builder.sendBuffer
      ensures Valid() && (View(), frame) == Cyclic.NextOutputFrame(setup, old(View()), status)
    {
      cycleCounter := (cycleCounter + setup.TxStep()) % 0x1_0000;
      builder.Swap();
      var payload := builder.Build();
      frame := BuildEthernetFrame(setup.dstMac, setup.srcMac, RtFrame(setup.output.frameId, cycleCounter, status, 0, payload));
    }

    method TrackCycleCounter(rx: u16)
      requires Valid()
      modifies this
      ensures Valid() && View() == Cyclic.TrackCycleCounter(old(View()), setup.RxStep(), rx)
    {
      if lastRxCounter.None? {
        lastRxCounter := Some(rx);
        return;
      }
      hide GapFrames, Setup.RxStep;
      var prev := lastRxCounter.value;
      var step := setup.RxStep();
      var expected := (prev + step) % 0x1_0000;
      if rx == prev {
        stats := stats.(framesDuplicate := stats.framesDuplicate + 1);
      } else if rx != expected {
        var forward := (rx - prev) % 0x1_0000;
        if forward > 0x8000 {
          stats := stats.(framesOutOfOrder := stats.framesOutOfOrder + 1);
        } else {
          stats := stats.(framesMissed := stats.framesMissed + GapFrames(forward, step));
        }
        lastRxCounter := Some(rx);
      } else {
        lastRxCounter := Some(rx);
      }
    }

    method ProcessInputFrame(data: bytes, now: int)
      requires Valid() && NotBefore(View(), now)
      modifies this, builder, builder.writeBuffer
      ensures Valid() && View() == Cyclic.ProcessInputFrame(setup, old(View()), data, now)
    {
      hide Accepted, Disowned, FrameIsAlive, ParseEthernetFrame;
      if |data| < 18 || data[6..12] != setup.dstMac {
        return;
      }
      var parsed := ParseEthernetFrame(data);
      if parsed.None? || parsed.value.frameId != setup.input.frameId {
        return;
      }
      if FrameIsAlive(parsed.value) {
        AcceptFrame(parsed.value, now);
      } else {
        DisownFrame(parsed.value);
      }
    }

    /** A frame that is not alive is counted and otherwise changes nothing. */
    method DisownFrame(f: RtFrame)
      requires Valid()
      modifies this
      ensures Valid() && View() == Disowned(setup, old(View()), f)
    {
      hide Cyclic.TrackCycleCounter;
      stats := stats.(framesReceived := stats.framesReceived + 1, intervalDisturbed := true);
      TrackCycleCounter(f.cycleCounter);
      stats := stats.(framesInvalid := stats.framesInvalid + 1);
    }

    method AcceptFrame(f: RtFrame, now: int)
      requires Valid() && NotBefore(View(), now)
      modifies this, builder, builder.writeBuffer
      ensures Valid() && View() == Accepted(setup, old(View()), f, now)
    {
      hide Cyclic.TrackCycleCounter, AllIocsSet, Extract, StatsAccepted;
      stats := stats.(framesReceived := stats.framesReceived + 1);
      RecordAccepted(now);
      if state == Fault {
        Transition(Running);
      }
      TrackCycleCounter(f.cycleCounter);
      builder.SetAllIocs(IOXS_GOOD);
      ExtractInputs(f.payload);
    }

    method RecordAccepted(now: int)
      requires Valid() && NotBefore(View(), now)
      modifies this
      ensures Valid() && View() == old(View()).(stats := StatsAccepted(old(stats), setup.input.CycleTimeUs(), now))
    {
      var target := setup.input.CycleTimeUs();
      if stats.lastAcceptedTime.Some? {
        var interval := now - stats.lastAcceptedTime.value;
        stats := stats.(lastRxInterval := interval, maxRxInterval := Max(stats.maxRxInterval, interval));
        if !stats.intervalDisturbed {
          stats := stats.(maxRxJitter := Max(stats.maxRxJitter, AbsDiff(interval, target)),
                          minRxInterval := Min(stats.minRxInterval, interval),
                          rxIntervalSum := stats.rxIntervalSum + interval, rxIntervalCount := stats.rxIntervalCount + 1);
        }
      }
      stats := stats.(lastAcceptedTime := Some(now), lastReceiveTime := now, consecutiveTimeouts := 0, intervalDisturbed := false);
    }

    ghost function Inputs(): Extraction
      reads this
    {
      Extraction(inputs, statusLog, dataLog)
    }

    method ExtractInputs(payload: bytes)
      requires Valid()
      modifies this
      ensures Valid()
      ensures var e := Extract(old(Inputs()), setup.input.objects, payload);
              View() == old(View()).(inputs := e.inputs, statusLog := e.statusLog, dataLog := e.dataLog)
    {
      hide ExtractObject;
      var objects := setup.input.objects;
      for k := 0 to |objects|
        invariant Valid() && Inputs() == Extract(old(Inputs()), objects[..k], payload)
        invariant View() == old(View()).(inputs := inputs, statusLog := statusLog, dataLog := dataLog)
      {
        assert objects[..k + 1][..k] == objects[..k];
        ExtractInput(objects[k], payload);
      }
      assert objects[..|objects|] == objects;
    }

    /** The body of the loop. */
    method ExtractInput(obj: IoDataObject, payload: bytes)
      requires Valid()
      modifies this
      ensures Valid() && Inputs() == ExtractObject(old(Inputs()), obj, payload)
      ensures View() == old(View()).(inputs := inputs, statusLog := statusLog, dataLog := dataLog)
    {
      if obj.iopsOffset >= |payload| || obj.frameOffset + obj.dataLength > |payload| {
        return;
      }
      var iops := payload[obj.iopsOffset];
      var key := (obj.slot, obj.subslot);
      var wasGood := WasGood(inputs, key);
      var isGood := IsGoodStatus(iops);
      var objData := payload[obj.frameOffset..obj.frameOffset + obj.dataLength];
      if isGood != wasGood {
        statusLog := statusLog + [(key, iops)];
      }
      if isGood {
        dataLog := dataLog + [(key, objData)];
      }
      inputs := inputs[key := InputEntry(objData, iops)];
    }

    method HandleWatchdogTimeout()
      requires Valid()
      modifies this, builder, builder.writeBuffer
      ensures Valid() && View() == Cyclic.HandleWatchdogTimeout(setup, old(View()))
    {
      hide AllIocsSet;
      stats := stats.(framesMissed := stats.framesMissed + 1, consecutiveTimeouts := stats.consecutiveTimeouts + 1,
                      intervalDisturbed := true);
      if setup.maxTimeouts > 0 {
        builder.SetAllIocs(IOXS_BAD);
      }
      if setup.maxTimeouts > 0 && stats.consecutiveTimeouts >= setup.maxTimeouts && state == Running {
        Transition(Fault);
      }
    }

    method CheckReceiveWatchdog(now: int)
      requires Valid()
      modifies this, builder, builder.writeBuffer
      ensures Valid() && View() == Cyclic.CheckReceiveWatchdog(setup, old(View()), now)
    {
      if now - stats.lastReceiveTime > setup.Watchdog() {
        HandleWatchdogTimeout();
        stats := stats.(lastReceiveTime := now);
      }
    }

    /** One pass of the receive loop with a working socket. */
    method RxPass(r: Reception, now: int)
      requires Valid() && NotBefore(View(), now)
      modifies this, builder, builder.writeBuffer
      ensures Valid() && View() == Cyclic.RxPass(setup, old(View()), r, now)
    {
      if r.Frame? {
        ProcessInputFrame(r.data, now);
      }
      CheckReceiveWatchdog(now);
    }

    /** The receive socket failed: the loop ends, and a link that was up is declared dead. */
    method ReceiveFailed()
      requires Valid()
      modifies this
      ensures Valid() && View() == RxError(old(View()))
    {
      if running {
        if state == Running {
          Transition(Fault);
        }
      }
    }

    method SetOutputData(slot: u16, subslot: u16, data: bytes) returns (ok: bool)
      requires Valid()
      modifies builder, builder.writeBuffer
      ensures Valid() && ok == Cyclic.SetOutputData(setup, old(View()), slot, subslot, data).Ok?
      ensures View() == if ok then Cyclic.SetOutputData(setup, old(View()), slot, subslot, data).value else old(View())
    {
      if OutputWritesLocked(state) {
        return false;
      }
      ok := builder.SetData(slot, subslot, data);
      if ok {
        builder.SetIops(slot, subslot, IOXS_GOOD);
      }
    }

    method SetSafeOutput(slot: u16, subslot: u16, data: bytes)
      requires Valid()
      modifies this
      ensures Valid() && View() == old(View()).(safeOutput := Some((slot, subslot, data)))
    {
      safeOutput := Some((slot, subslot, data));
    }

    method ApplySafeOutput()
      requires Valid()
      modifies builder, builder.writeBuffer, builder.sendBuffer
      ensures Valid() && View() == Cyclic.ApplySafeOutput(setup, old(View()))
    {
      if safeOutput.None? {
        return;
      }
      var (slot, subslot, data) := safeOutput.value;
      var ok := builder.SetData(slot, subslot, data);
      if !ok {
        return;
      }
      builder.SetIops(slot, subslot, IOXS_GOOD);
      builder.Swap();
    }

    method BuildStopFrame() returns (frame: bytes)
      requires Valid()
      modifies this, builder, builder.sendBuffer
      ensures Valid() && (View(), frame) == StopBuilt(setup, old(View()))
    {
      builder.Swap();
      frame := NextOutputFrame(STOP_STATUS);
    }

    /** `ok` says which sends succeed. */
    method SendStopFrames(ok: seq<bool>) returns (sent: seq<bytes>)
      requires Valid() && |ok| == STOP_FRAME_COUNT
      modifies this, builder, builder.sendBuffer
      ensures Valid() && (View(), sent) == StopFrames(setup, old(View()), ok)
    {
      hide StopBuilt, StopFrames;
      sent := [];
      ghost var all := StopFrames(setup, View(), ok);
      assert ok[0..] == ok && [] + all.1 == all.1;
      for i := 0 to STOP_FRAME_COUNT
        invariant Valid()
        invariant all == (StopFrames(setup, View(), ok[i..]).0, sent + StopFrames(setup, View(), ok[i..]).1)
      {
        assert ok[i..][1..] == ok[i + 1..];
        StopFramesStep(setup, View(), ok[i..], sent);
        var frame := BuildStopFrame();
        if !ok[i] {
          return;
        }
        sent := sent + [frame];
        stats := stats.(framesSent := stats.framesSent + 1);
      }
      StopFramesStep(setup, View(), ok[STOP_FRAME_COUNT..], sent);
    }

    method Start(now: int, opening: Opening) returns (ok: bool)
      requires Valid()
      modifies this, builder, builder.sendBuffer
      ensures Valid() && (View(), ok) == Cyclic.Start(old(View()), now, opening)
    {
      hide Swapped, Begun;
      if !(state.Idle? || state.Stopped? || state.Fault?) {
        return false;
      }
      BeginStart(now);
      if opening == NoSockets {
        return false;
      }
      builder.Swap();
      if opening == NoThreads {
        return false;
      }
      Transition(Running);
      return true;
    }

    /** Everything `start` does before it opens the sockets. */
    method BeginStart(now: int)
      requires Valid()
      modifies this
      ensures Valid() && View() == Begun(old(View()), now)
    {
      hide FreshStats;
      Transition(Starting);
      running := true;
      stats := FreshStats(now);
      everFaulted := false;
      lastRxCounter := None;
    }

    /** `stop` when the threads have nothing left to do; see `SafeStop` for those that have. */
    method Stop(ok: seq<bool>) returns (sent: seq<bytes>)
      requires Valid() && (|ok| == STOP_FRAME_COUNT || ok == [])
      modifies this, builder, builder.writeBuffer, builder.sendBuffer
      ensures Valid() && (View(), sent) == StopAlone(setup, old(View()), ok)
    {
      hide StopFrames, Cyclic.ApplySafeOutput;
      ApplySafeOutput();
      if !running {
        return [];
      }
      Transition(Stopping);
      running := false;
      sent := [];
      if ok != [] {
        sent := SendStopFrames(ok);
      } else {
        NoStopFrames(setup, View());
      }
      Transition(Stopped);
    }
  }

  lemma NoStopFrames(setup: Setup, c: Shared)
    ensures StopFrames(setup, c, []) == (c, [])
  {}
}
