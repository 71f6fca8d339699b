/** Runs of the running controller: transmissions, receive passes and user calls in any order. */
module CyclicRuns {
  import opened Bytes
  import opened Wrappers
  import opened Ethernet
  import opened Rt
  import opened DataBuilder
  import opened Cyclic

  /** `Rx` is a receive pass `wait` microseconds after the previous one. */
  datatype Act =
    | Tx
    | Rx(r: Reception, wait: nat)
    | RxFails
    | SetOutput(slot: u16, subslot: u16, data: bytes)
    | SetSafe(slot: u16, subslot: u16, data: bytes)

  datatype Run = Run(c: Shared, clock: int)

  predicate Ready(setup: Setup, r: Run) {
    InBounds(setup.output) && Sized(r.c.buffers, setup.output) && NotBefore(r.c, r.clock)
  }

  /** One act. */
  function Do(setup: Setup, r: Run, a: Act): (r': Run)
    requires Ready(setup, r)
  {
    match a
    case Tx => r.(c := TxFrame(setup, r.c).0)
    case Rx(reception, wait) => Run(RxPass(setup, r.c, reception, r.clock + wait), r.clock + wait)
    case RxFails => r.(c := RxError(r.c))
    case SetOutput(slot, subslot, data) =>
      var written := SetOutputData(setup, r.c, slot, subslot, data);
      if written.Ok? then r.(c := written.value) else r
    case SetSafe(slot, subslot, data) => r.(c := r.c.(safeOutput := Some((slot, subslot, data))))
  }

  /** What no step of the receive loop touches: the run flag, the transmit counter, the registered safe
      image, the frames sent, and the buffer the transmitter copies from. */
  predicate SameForSender(c: Shared, c': Shared) {
    && c'.running == c.running && c'.cycleCounter == c.cycleCounter && c'.safeOutput == c.safeOutput
    && c'.buffers.send == c.buffers.send && c'.stats.framesSent == c.stats.framesSent
  }

  lemma ProcessTouches(setup: Setup, c: Shared, data: bytes, now: int)
    requires NotBefore(c, now)
    ensures var c' := ProcessInputFrame(setup, c, data, now); NotBefore(c', now) && SameForSender(c, c')
  {
    hide Accepted, Disowned, FrameIsAlive, Relevant, StatsAccepted;
    if Relevant(setup, data).Some? {
      AcceptedTouches(setup, c, Relevant(setup, data).value, now);
      DisownedTouchesOnlyCounters(setup, c, Relevant(setup, data).value);
    }
  }

  lemma CheckTouches(setup: Setup, c: Shared, now: int)
    requires NotBefore(c, now)
    ensures var c' := CheckReceiveWatchdog(setup, c, now); NotBefore(c', now) && SameForSender(c, c')
  {
    hide Setup.Watchdog;
  }

  lemma RxTouches(setup: Setup, c: Shared, reception: Reception, now: int)
    requires NotBefore(c, now)
    ensures var c' := RxPass(setup, c, reception, now); NotBefore(c', now) && SameForSender(c, c')
  {
    hide ProcessInputFrame, CheckReceiveWatchdog;
    if reception.Frame? {
      ProcessTouches(setup, c, reception.data, now);
      CheckTouches(setup, ProcessInputFrame(setup, c, reception.data, now), now);
    } else {
      CheckTouches(setup, c, now);
    }
  }

  /** Which signal, if any, a receive pass gives the consumer status: a timeout or an accepted frame. */
  datatype Signal = Quiet | Alive | TimedOut

  predicate Accepts(setup: Setup, reception: Reception) {
    && reception.Frame? && Relevant(setup, reception.data).Some? && FrameIsAlive(Relevant(setup, reception.data).value)
  }

  function SignalOf(setup: Setup, c: Shared, reception: Reception, now: int): Signal {
    if Accepts(setup, reception) then Alive else if TimesOut(setup, c, now) then TimedOut else Quiet
  }

  /** A pass that accepts a frame does not time out; one that does not leaves the timer as it was. */
  lemma RxBuffers(setup: Setup, c: Shared, reception: Reception, now: int)
    requires NotBefore(c, now)
    ensures RxPass(setup, c, reception, now).buffers ==
            match SignalOf(setup, c, reception, now)
            case Alive => AllIocsSet(c.buffers, setup.output, IOXS_GOOD)
            case TimedOut => if setup.maxTimeouts > 0 then AllIocsSet(c.buffers, setup.output, IOXS_BAD) else c.buffers
            case Quiet => c.buffers
  {
    hide Accepted, Disowned, FrameIsAlive, Relevant, AllIocsSet;
    if reception.Frame? && Relevant(setup, reception.data).Some? {
      var f := Relevant(setup, reception.data).value;
      if FrameIsAlive(f) {
        AcceptedTouches(setup, c, f, now);
      } else {
        DisownedTouchesOnlyCounters(setup, c, f);
      }
    }
  }

  lemma DoKeepsReady(setup: Setup, r: Run, a: Act)
    requires Ready(setup, r)
    ensures Ready(setup, Do(setup, r, a))
  {
    hide RxPass, BuildEthernetFrame;
    if a.Rx? {
      RxTouches(setup, r.c, a.r, r.clock + a.wait);
      RxBuffers(setup, r.c, a.r, r.clock + a.wait);
    }
  }

  /** The run after a list of acts. */
  function After(setup: Setup, start: Run, acts: seq<Act>): (r: Run)
    requires Ready(setup, start)
    ensures Ready(setup, r)
  {
    if acts == [] then start
    else
      var before := After(setup, start, acts[..|acts| - 1]);
      DoKeepsReady(setup, before, acts[|acts| - 1]);
      Do(setup, before, acts[|acts| - 1])
  }

  lemma RxIsPass(setup: Setup, r: Run, a: Act)
    requires Ready(setup, r) && a.Rx?
    ensures Do(setup, r, a).c == RxPass(setup, r.c, a.r, r.clock + a.wait)
  {
    hide RxPass;
  }

  lemma OneMoreAct(setup: Setup, start: Run, acts: seq<Act>, a: Act)
    requires Ready(setup, start)
    ensures After(setup, start, acts + [a]) == Do(setup, After(setup, start, acts), a)
  {
    hide Do;
    assert (acts + [a])[..|acts|] == acts;
  }

  /** Where runs begin: a controller that was created and started, or stopped and started again, meets
      what the theorems about runs ask of their start. */
  lemma StartIsReady(setup: Setup, c: Shared, now: int)
    requires InBounds(setup.output) && Sized(c.buffers, setup.output) && Coherent(c.buffers)
    ensures Cyclic.Start(c, now, Works).1 <==> c.state.Idle? || c.state.Stopped? || c.state.Fault?
    ensures Cyclic.Start(c, now, Works).1 ==>
              var r := Run(Cyclic.Start(c, now, Works).0, now);
              && Ready(setup, r) && Coherent(r.c.buffers) && r.c.state == Running && r.c.running && !r.c.everFaulted
              && r.c.stats == FreshStats(now) && r.c.lastRxCounter == None && !TimesOut(setup, r.c, now)
              && r.c.buffers.write == c.buffers.write && r.c.buffers.send == c.buffers.write
              && r.c.stats.framesSent == r.c.stats.framesReceived == r.c.stats.framesMissed == r.c.stats.consecutiveTimeouts == 0
              && r.c.cycleCounter == c.cycleCounter
  {}

  lemma NewIsIdle(setup: Setup, now: int)
    requires InBounds(setup.output)
    ensures var c := NewShared(setup, now);
            && Sized(c.buffers, setup.output) && Coherent(c.buffers) && c.state == Idle && c.statusLog == [] && c.inputs == map[]
            && !c.running && !c.everFaulted && c.cycleCounter == 0 && c.safeOutput == None && c.lastRxCounter == None
            && Chained(Idle, c.stateLog, c.state)
            && forall p :: 0 <= p < setup.output.dataLength ==>
                 c.buffers.write[p] == if HasIopsAt(setup.output.objects, p) then 0x80 else 0
  {}

  // -------------------------------------------------------------------------
  // The double buffer
  // -------------------------------------------------------------------------

  lemma DoKeepsCoherent(setup: Setup, r: Run, a: Act)
    requires Ready(setup, r) && Coherent(r.c.buffers)
    ensures Coherent(Do(setup, r, a).c.buffers)
  {
    hide RxPass, BuildEthernetFrame;
    if a.Rx? {
      RxBuffers(setup, r.c, a.r, r.clock + a.wait);
    }
  }

  /** The frame a controller would send that copied the whole image every cycle. */
  function FrameOfImage(setup: Setup, c: Shared, status: u8): bytes {
    BuildEthernetFrame(setup.dstMac, setup.srcMac,
                       RtFrame(setup.output.frameId, (c.cycleCounter + setup.TxStep()) % 0x1_0000, status, 0, c.buffers.write))
  }

  /** Skipping the copy of an unchanged image is invisible: in every run from a new controller, each
      frame carries the image as the application has written it at that instant. */
  lemma {:induction false} EveryFrameCarriesTheImage(setup: Setup, start: Run, acts: seq<Act>, status: u8)
    requires Ready(setup, start) && Coherent(start.c.buffers)
    ensures var c := After(setup, start, acts).c;
            && Coherent(c.buffers)
            && NextOutputFrame(setup, c, status).1 == FrameOfImage(setup, c, status)
            && Swapped(c.buffers).send == c.buffers.write
  {
    hide BuildEthernetFrame, Do;
    if acts != [] {
      EveryFrameCarriesTheImage(setup, start, acts[..|acts| - 1], status);
      DoKeepsCoherent(setup, After(setup, start, acts[..|acts| - 1]), acts[|acts| - 1]);
    }
  }

  /** The buffer holds the image, cut to the object's length, and reports it GOOD. */
  predicate Holds(buffer: bytes, o: IoDataObject, image: bytes) {
    var m := Min(|image|, o.dataLength);
    && o.frameOffset + m <= |buffer| && buffer[o.frameOffset..o.frameOffset + m] == image[..m]
    && (o.dataLength > 0 ==> o.iopsOffset < |buffer| && buffer[o.iopsOffset] == IOXS_GOOD)
  }

  predicate FrameHolds(frame: bytes, frameId: u16, o: IoDataObject, image: bytes) {
    && ParseEthernetFrame(frame).Some?
    && ParseEthernetFrame(frame).value.frameId == frameId
    && Holds(ParseEthernetFrame(frame).value.payload, o, image)
  }

  // -------------------------------------------------------------------------
  // Consumer status
  // -------------------------------------------------------------------------

  /** The last signal of a list of acts. */
  function LastSignal(setup: Setup, start: Run, acts: seq<Act>): Signal
    requires Ready(setup, start)
  {
    if acts == [] then Quiet
    else
      var before, a := acts[..|acts| - 1], acts[|acts| - 1];
      var r := After(setup, start, before);
      var signal := if a.Rx? then SignalOf(setup, r.c, a.r, r.clock + a.wait) else Quiet;
      if signal == Quiet then LastSignal(setup, start, before) else signal
  }

  /** Every consumer status byte of a buffer has one value. */
  predicate AllIocs(buffer: bytes, objects: seq<IoDataObject>, status: u8) {
    forall p :: 0 <= p < |buffer| && HasIocsAt(objects, p) ==> buffer[p] == status
  }

  /** The bytes an application write touches belong to process data. */
  lemma WritesAreProcessBytes(setup: Setup, c: Shared, slot: u16, subslot: u16, data: bytes, p: nat)
    requires InBounds(setup.output) && Sized(c.buffers, setup.output) && p < setup.output.dataLength
    requires SetOutputData(setup, c, slot, subslot, data).Ok? && !IsProcessByte(setup.output.objects, p)
    ensures SetOutputData(setup, c, slot, subslot, data).value.buffers.write[p] == c.buffers.write[p]
  {
    var objects := setup.output.objects;
    var k := Find(objects, slot, subslot);
    var o := objects[k];
    assert o in objects;
    assert o.dataLength > 0 && (o.frameOffset <= p < o.frameOffset + o.dataLength || o.iopsOffset == p) ==> IsProcessByte(objects, p);
  }

  lemma DoKeepsIocs(setup: Setup, r: Run, a: Act, status: u8)
    requires Ready(setup, r) && Separated(setup.output) && setup.maxTimeouts > 0
    requires var signal := if a.Rx? then SignalOf(setup, r.c, a.r, r.clock + a.wait) else Quiet;
             match signal
             case Alive => status == IOXS_GOOD
             case TimedOut => status == IOXS_BAD
             case Quiet => AllIocs(r.c.buffers.write, setup.output.objects, status)
    ensures AllIocs(Do(setup, r, a).c.buffers.write, setup.output.objects, status)
  {
    hide RxPass, BuildEthernetFrame, SignalOf;
    if a.Rx? {
      RxBuffers(setup, r.c, a.r, r.clock + a.wait);
    } else if a.SetOutput? && SetOutputData(setup, r.c, a.slot, a.subslot, a.data).Ok? {
      var write := SetOutputData(setup, r.c, a.slot, a.subslot, a.data).value.buffers.write;
      forall p | 0 <= p < |write| && HasIocsAt(setup.output.objects, p)
        ensures write[p] == status
      {
        WritesAreProcessBytes(setup, r.c, a.slot, a.subslot, a.data, p);
      }
    }
  }

  /** While the watchdog can fault: from a timeout until the next accepted frame every frame sent has
      all consumer status bytes BAD, and from an accepted frame until the next timeout all GOOD. */
  lemma {:induction false} ConsumerStatusFollowsLastSignal(setup: Setup, start: Run, acts: seq<Act>)
    requires Ready(setup, start) && Coherent(start.c.buffers) && Separated(setup.output) && setup.maxTimeouts > 0
    ensures var r := After(setup, start, acts);
            && Swapped(r.c.buffers).send == r.c.buffers.write
            && (LastSignal(setup, start, acts) == Alive ==> AllIocs(r.c.buffers.write, setup.output.objects, 0x80))
            && (LastSignal(setup, start, acts) == TimedOut ==> AllIocs(r.c.buffers.write, setup.output.objects, 0x00))
  {
    hide Do, SignalOf, AllIocs;
    EveryFrameCarriesTheImage(setup, start, acts, RUN_STATUS);
    if acts != [] {
      var before, a := acts[..|acts| - 1], acts[|acts| - 1];
      ConsumerStatusFollowsLastSignal(setup, start, before);
      var r := After(setup, start, before);
      var last := LastSignal(setup, start, acts);
      if last != Quiet {
        DoKeepsIocs(setup, r, a, if last == Alive then 0x80 else 0x00);
      }
    }
  }

  /** A receive pass never changes process data in the output image. */
  lemma RxLeavesProcessData(setup: Setup, c: Shared, reception: Reception, now: int, p: nat)
    requires NotBefore(c, now) && Separated(setup.output) && p < |c.buffers.write| && IsProcessByte(setup.output.objects, p)
    ensures var write := RxPass(setup, c, reception, now).buffers.write; p < |write| && write[p] == c.buffers.write[p]
  {
    hide RxPass;
    RxBuffers(setup, c, reception, now);
  }

  // -------------------------------------------------------------------------
  // Status callbacks
  // -------------------------------------------------------------------------

  /** The statuses reported for one submodule, GOOD as true. */
  function Reports(log: seq<(Key, u8)>, key: Key): seq<bool> {
    if log == [] then []
    else
      var (k, iops) := log[|log| - 1];
      Reports(log[..|log| - 1], key) + if k == key then [IsGoodStatus(iops)] else []
  }

  /** GOOD, BAD, GOOD, ... and the last report is what the stored status says. */
  predicate Alternates(log: seq<(Key, u8)>, inputs: map<Key, InputEntry>, key: Key) {
    && (forall k :: 0 <= k < |Reports(log, key)| ==> Reports(log, key)[k] == (k % 2 == 0))
    && WasGood(inputs, key) == (|Reports(log, key)| % 2 == 1)
  }

  lemma ReportsAppend(log: seq<(Key, u8)>, entry: (Key, u8), key: Key)
    ensures Reports(log + [entry], key) == Reports(log, key) + if entry.0 == key then [IsGoodStatus(entry.1)] else []
  {
    assert (log + [entry])[..|log|] == log;
  }

  lemma {:induction false} ExtractKeepsAlternation(e: Extraction, objects: seq<IoDataObject>, payload: bytes, key: Key)
    requires Alternates(e.statusLog, e.inputs, key)
    ensures var e' := Extract(e, objects, payload); Alternates(e'.statusLog, e'.inputs, key)
  {
    hide Alternates, ExtractObject;
    if objects != [] {
      ExtractKeepsAlternation(e, objects[..|objects| - 1], payload, key);
      ObjectKeepsAlternation(Extract(e, objects[..|objects| - 1], payload), objects[|objects| - 1], payload, key);
    }
  }

  lemma ObjectKeepsAlternation(e: Extraction, o: IoDataObject, payload: bytes, key: Key)
    requires Alternates(e.statusLog, e.inputs, key)
    ensures var e' := ExtractObject(e, o, payload); Alternates(e'.statusLog, e'.inputs, key)
  {
    hide Reports;
    if Carried(o, payload) {
      ReportsAppend(e.statusLog, ((o.slot, o.subslot), payload[o.iopsOffset]), key);
    }
  }

  lemma RxKeepsAlternation(setup: Setup, c: Shared, reception: Reception, now: int, key: Key)
    requires NotBefore(c, now) && Alternates(c.statusLog, c.inputs, key)
    ensures var c' := RxPass(setup, c, reception, now); Alternates(c'.statusLog, c'.inputs, key)
  {
    hide Alternates, Extract, Accepted, Disowned, Relevant, FrameIsAlive, AllIocsSet;
    if reception.Frame? && Relevant(setup, reception.data).Some? {
      var f := Relevant(setup, reception.data).value;
      if FrameIsAlive(f) {
        ExtractKeepsAlternation(Extraction(c.inputs, c.statusLog, c.dataLog), setup.input.objects, f.payload, key);
        AcceptedExtracts(setup, c, f, now);
      } else {
        DisownedTouchesOnlyCounters(setup, c, f);
      }
    }
  }

  lemma NothingReported(key: Key)
    ensures Alternates([], map[], key)
  {}

  lemma DoKeepsAlternation(setup: Setup, r: Run, a: Act, key: Key)
    requires Ready(setup, r) && Alternates(r.c.statusLog, r.c.inputs, key)
    ensures var c := Do(setup, r, a).c; Alternates(c.statusLog, c.inputs, key)
  {
    hide RxPass, BuildEthernetFrame, Alternates, DataSet, IopsSet;
    if a.Rx? {
      RxKeepsAlternation(setup, r.c, a.r, r.clock + a.wait, key);
    }
  }

  /** Per submodule the status callback reports GOOD, BAD, GOOD, ... strictly alternating from GOOD. */
  lemma {:induction false} StatusCallbacksAlternate(setup: Setup, start: Run, acts: seq<Act>, key: Key)
    requires Ready(setup, start) && start.c.statusLog == [] && start.c.inputs == map[]
    ensures var c := After(setup, start, acts).c; Alternates(c.statusLog, c.inputs, key)
  {
    hide Do, Alternates;
    if acts == [] {
      assert Alternates([], map[], key) by { hide *; NothingReported(key); }
    } else {
      var before := acts[..|acts| - 1];
      StatusCallbacksAlternate(setup, start, before, key);
      DoKeepsAlternation(setup, After(setup, start, before), acts[|acts| - 1], key);
    }
  }

  // -------------------------------------------------------------------------
  // State callbacks
  // -------------------------------------------------------------------------

  /** The state callback is told of every change and of nothing else: each report starts from the state of
      the one before and ends in another, the first starts from `first`, and the last ends in `state`. */
  predicate Chained(first: CyclicState, log: seq<(CyclicState, CyclicState)>, state: CyclicState) {
    && (forall k :: 0 <= k < |log| ==> log[k].0 != log[k].1)
    && (forall k :: 0 < k < |log| ==> log[k].0 == log[k - 1].1)
    && (if log == [] then state == first else log[0].0 == first && log[|log| - 1].1 == state)
  }

  lemma TransitionChains(first: CyclicState, c: Shared, s: CyclicState)
    requires Chained(first, c.stateLog, c.state)
    ensures var c' := Transition(c, s); Chained(first, c'.stateLog, c'.state)
  {}

  lemma DoKeepsChain(setup: Setup, r: Run, a: Act, first: CyclicState)
    requires Ready(setup, r) && Chained(first, r.c.stateLog, r.c.state)
    ensures var c := Do(setup, r, a).c; Chained(first, c.stateLog, c.state)
  {
    hide Chained, RxPass, BuildEthernetFrame, DataSet, IopsSet, Transition;
    match a
    case Rx(reception, wait) => RxKeepsChain(setup, r.c, reception, r.clock + wait, first);
    case RxFails => TransitionChains(first, r.c, Fault);
    case _ =>
  }

  lemma RxKeepsChain(setup: Setup, c: Shared, reception: Reception, now: int, first: CyclicState)
    requires NotBefore(c, now) && Chained(first, c.stateLog, c.state)
    ensures var c' := RxPass(setup, c, reception, now); Chained(first, c'.stateLog, c'.state)
  {
    hide Chained, Accepted, Disowned, Relevant, FrameIsAlive, HandleWatchdogTimeout, TimesOut;
    var c1 := c;
    if reception.Frame? {
      c1 := ProcessInputFrame(setup, c, reception.data, now);
      if Relevant(setup, reception.data).Some? {
        AcceptedChains(setup, c, Relevant(setup, reception.data).value, now, first);
        DisownedTouchesOnlyCounters(setup, c, Relevant(setup, reception.data).value);
      }
    }
    TimeoutChains(setup, c1, first);
  }

  lemma AcceptedChains(setup: Setup, c: Shared, f: RtFrame, now: int, first: CyclicState)
    requires NotBefore(c, now) && Chained(first, c.stateLog, c.state)
    ensures var c' := Accepted(setup, c, f, now); Chained(first, c'.stateLog, c'.state)
  {
    hide Chained, Transition, Extract, AllIocsSet, TrackCycleCounter, StatsAccepted;
    var st := c.stats.(framesReceived := c.stats.framesReceived + 1);
    var c1 := c.(stats := StatsAccepted(st, setup.input.CycleTimeUs(), now));
    TransitionChains(first, c1, Running);
    TrackTouchesLittle(if c1.state == Fault then Transition(c1, Running) else c1, setup.RxStep(), f.cycleCounter);
  }

  lemma TimeoutChains(setup: Setup, c: Shared, first: CyclicState)
    requires Chained(first, c.stateLog, c.state)
    ensures var c' := HandleWatchdogTimeout(setup, c); Chained(first, c'.stateLog, c'.state)
  {
    hide AllIocsSet;
  }

  lemma StartKeepsChain(c: Shared, now: int, opening: Opening, first: CyclicState)
    requires Chained(first, c.stateLog, c.state)
    ensures var c' := Cyclic.Start(c, now, opening).0; Chained(first, c'.stateLog, c'.state)
  {
    hide Chained, Transition, Swapped;
    TransitionChains(first, c, Starting);
    var c1 := Begun(c, now);
    TransitionChains(first, c1.(buffers := Swapped(c1.buffers)), Running);
  }

  /** Over every run the reports of the state callback form one chain from the first state to the present. */
  lemma {:induction false} StateCallbacksChain(setup: Setup, start: Run, acts: seq<Act>, first: CyclicState)
    requires Ready(setup, start) && Chained(first, start.c.stateLog, start.c.state)
    ensures var c := After(setup, start, acts).c; Chained(first, c.stateLog, c.state)
  {
    hide Do, Chained;
    if acts != [] {
      var before := acts[..|acts| - 1];
      StateCallbacksChain(setup, start, before, first);
      DoKeepsChain(setup, After(setup, start, before), acts[|acts| - 1], first);
    }
  }

  // -------------------------------------------------------------------------
  // Transmit counter
  // -------------------------------------------------------------------------

  function Transmissions(acts: seq<Act>): nat {
    if acts == [] then 0 else Transmissions(acts[..|acts| - 1]) + if acts[|acts| - 1].Tx? then 1 else 0
  }

  lemma DoCounts(setup: Setup, r: Run, a: Act)
    requires Ready(setup, r)
    ensures var c := Do(setup, r, a).c;
            if a.Tx? then c.cycleCounter == (r.c.cycleCounter + setup.TxStep()) % 0x1_0000 && c.stats.framesSent == r.c.stats.framesSent + 1
            else c.cycleCounter == r.c.cycleCounter && c.stats.framesSent == r.c.stats.framesSent
  {
    hide RxPass, BuildEthernetFrame, Setup.TxStep, DataSet, IopsSet;
    if a.Rx? {
      RxTouches(setup, r.c, a.r, r.clock + a.wait);
    }
  }

  /** After `k` frames the counter stands at `k` steps modulo 65536, and the u32 sum it is computed
      from never overflows, whatever the factors. */
  lemma {:induction false} TransmitCounterCounts(setup: Setup, start: Run, acts: seq<Act>)
    requires Ready(setup, start)
    ensures var c, k := After(setup, start, acts).c, Transmissions(acts);
            && c.cycleCounter == (start.c.cycleCounter + k * setup.TxStep()) % 0x1_0000
            && c.stats.framesSent == start.c.stats.framesSent + k
            && c.cycleCounter + setup.TxStep() < 0x1_0000_0000
  {
    hide Do, Setup.TxStep;
    StepFits(setup);
    if acts != [] {
      var before, a := acts[..|acts| - 1], acts[|acts| - 1];
      TransmitCounterCounts(setup, start, before);
      DoCounts(setup, After(setup, start, before), a);
      OneMoreStep(start.c.cycleCounter, Transmissions(before), setup.TxStep());
    }
  }

  lemma StepFits(setup: Setup)
    ensures setup.TxStep() <= 0xFFFE_0001
  {
    StepBounded(setup.output.sendClockFactor, setup.output.reductionRatio);
  }

  lemma StepBounded(a: u16, b: u16)
    ensures (a as nat) * (b as nat) <= 0xFFFE_0001
  {
    ProductGrows(a, 0xFFFF, b);
  }

  lemma ProductGrows(a: nat, a': nat, b: nat)
    requires a <= a'
    ensures a * b <= a' * b
  {}

  lemma OneMoreStep(start: nat, k: nat, step: nat)
    ensures ((start + k * step) % 0x1_0000 + step) % 0x1_0000 == (start + (k + 1) * step) % 0x1_0000
  {
    assert (k + 1) * step == k * step + step;
  }
}
