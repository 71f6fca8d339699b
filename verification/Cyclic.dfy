/** The cyclic controller (src/cyclic.rs): the state its threads share, what each receive pass,
    transmission and user call does to it, and the class that does it in place. Time is in whole
    microseconds. A receive pass is one step. */
module Cyclic {
  import opened Bytes
  import opened Wrappers
  import opened Ethernet
  import opened Rt
  import opened DataBuilder

  datatype CyclicState = Idle | Starting | Running | Stopping | Stopped | Fault

  /** States in which the output image must not be written any more. */
  predicate OutputWritesLocked(s: CyclicState) {
    s.Stopping? || s.Fault? || s.Stopped?
  }

  const RX_INTERVAL_FLOOR := 0x8000_0000

  /** The receive half of the statistics, and the frames sent. */
  datatype Stats = Stats(
    framesSent: nat, framesReceived: nat, framesMissed: nat, framesInvalid: nat, framesDuplicate: nat, framesOutOfOrder: nat,
    lastRxInterval: nat, maxRxJitter: nat, minRxInterval: nat, maxRxInterval: nat, rxIntervalSum: nat, rxIntervalCount: nat,
    lastReceiveTime: int, intervalDisturbed: bool, lastAcceptedTime: Option<int>, consecutiveTimeouts: nat)

  function FreshStats(now: int): Stats {
    Stats(0, 0, 0, 0, 0, 0, 0, 0, RX_INTERVAL_FLOOR, 0, 0, 0, now, false, None, 0)
  }

  datatype InputEntry = InputEntry(data: bytes, iops: u8) {
    predicate IsGood() { IsGoodStatus(iops) }
  }

  /** DataState is bit 7 of a status byte. */
  predicate IsGoodStatus(iops: u8) {
    iops >= 0x80
  }

  type Key = (u16, u16)

  /** What the controller was created with. */
  datatype Setup = Setup(srcMac: Mac, dstMac: Mac, input: IocrConfig, output: IocrConfig, maxTimeouts: nat) {
    function RxStep(): nat { (input.sendClockFactor as nat) * (input.reductionRatio as nat) }
    function TxStep(): nat { (output.sendClockFactor as nat) * (output.reductionRatio as nat) }
    function Watchdog(): nat { input.WatchdogTimeUs() }
  }

  /** The shared state, with everything the status, data and state callbacks were told. */
  datatype Shared = Shared(
    state: CyclicState, running: bool, everFaulted: bool, cycleCounter: u16, buffers: Buffers,
    inputs: map<Key, InputEntry>, lastRxCounter: Option<u16>, stats: Stats, safeOutput: Option<(u16, u16, bytes)>,
    statusLog: seq<(Key, u8)>, dataLog: seq<(Key, bytes)>, stateLog: seq<(CyclicState, CyclicState)>)

  // -------------------------------------------------------------------------
  // Steps
  // -------------------------------------------------------------------------

  function Transition(c: Shared, s: CyclicState): Shared {
    if c.state == s then c
    else c.(state := s, everFaulted := c.everFaulted || s == Fault, stateLog := c.stateLog + [(c.state, s)])
  }

  const STOP_STATUS: u8 := DATA_STATUS_VALID + DATA_STATUS_STATION_OK + DATA_STATUS_STATE
  const RUN_STATUS: u8 := STOP_STATUS + DATA_STATUS_PROVIDER_RUN

  /** Advance the counter, commit the double buffer, build the frame. */
  function NextOutputFrame(setup: Setup, c: Shared, status: u8): (Shared, bytes) {
    var counter: u16 := (c.cycleCounter + setup.TxStep()) % 0x1_0000;
    var buffers := Swapped(c.buffers);
    (c.(cycleCounter := counter, buffers := buffers),
     BuildEthernetFrame(setup.dstMac, setup.srcMac, RtFrame(setup.output.frameId, counter, status, 0, buffers.send)))
  }

  /** Whether a frame is evidence that the link delivers usable data. */
  predicate FrameIsAlive(f: RtFrame) {
    f.IsValid() && f.IsRunning() && !f.IsIgnored() && f.transferStatus == 0
  }

  function AbsDiff(a: nat, b: nat): nat {
    if a < b then b - a else a - b
  }

  /** The statistics after an accepted frame. */
  function StatsAccepted(st: Stats, target: nat, now: int): Stats
    requires st.lastAcceptedTime.Some? ==> st.lastAcceptedTime.value <= now
  {
    var st1 :=
      if st.lastAcceptedTime.None? then st
      else
        var interval := now - st.lastAcceptedTime.value;
        var st0 := st.(lastRxInterval := interval, maxRxInterval := Max(st.maxRxInterval, interval));
        if st.intervalDisturbed then st0
        else st0.(maxRxJitter := Max(st.maxRxJitter, AbsDiff(interval, target)), minRxInterval := Min(st.minRxInterval, interval),
                  rxIntervalSum := st.rxIntervalSum + interval, rxIntervalCount := st.rxIntervalCount + 1);
    st1.(lastAcceptedTime := Some(now), lastReceiveTime := now, consecutiveTimeouts := 0, intervalDisturbed := false)
  }

  /** Gap, duplicate and out-of-order detection, aware of the 16-bit wrap. */
  function TrackCycleCounter(c: Shared, step: nat, rx: u16): Shared {
    if c.lastRxCounter.None? then c.(lastRxCounter := Some(rx))
    else
      var prev := c.lastRxCounter.value;
      if rx == prev then c.(stats := c.stats.(framesDuplicate := c.stats.framesDuplicate + 1))
      else
        var c' := c.(lastRxCounter := Some(rx));
        if rx == (prev + step) % 0x1_0000 then c'
        else
          var forward := (rx - prev) % 0x1_0000;
          if forward > 0x8000 then c'.(stats := c.stats.(framesOutOfOrder := c.stats.framesOutOfOrder + 1))
          else c'.(stats := c.stats.(framesMissed := c.stats.framesMissed + GapFrames(forward, step)))
  }

  /** How many frames a forward distance skips; none when the step is zero. */
  function GapFrames(forward: nat, step: nat): nat {
    if step == 0 then 0 else Max(forward / step - 1, 0)
  }

  /** The objects whose data and status a payload carries. */
  predicate Carried(o: IoDataObject, payload: bytes) {
    o.iopsOffset < |payload| && o.frameOffset + o.dataLength <= |payload|
  }

  predicate WasGood(inputs: map<Key, InputEntry>, key: Key) {
    key in inputs && inputs[key].IsGood()
  }

  datatype Extraction = Extraction(inputs: map<Key, InputEntry>, statusLog: seq<(Key, u8)>, dataLog: seq<(Key, bytes)>)

  function ExtractObject(e: Extraction, o: IoDataObject, payload: bytes): Extraction {
    if !Carried(o, payload) then e
    else
      var iops, key := payload[o.iopsOffset], (o.slot, o.subslot);
      var data := payload[o.frameOffset..o.frameOffset + o.dataLength];
      Extraction(
        e.inputs[key := InputEntry(data, iops)],
        if IsGoodStatus(iops) != WasGood(e.inputs, key) then e.statusLog + [(key, iops)] else e.statusLog,
        if IsGoodStatus(iops) then e.dataLog + [(key, data)] else e.dataLog)
  }

  function Extract(e: Extraction, objects: seq<IoDataObject>, payload: bytes): Extraction {
    if objects == [] then e
    else ExtractObject(Extract(e, objects[..|objects| - 1], payload), objects[|objects| - 1], payload)
  }

  /** The frame, if it comes from the device on the input IOCR. */
  function Relevant(setup: Setup, data: bytes): Option<RtFrame> {
    if |data| < 18 || data[6..12] != setup.dstMac then None
    else
      match ParseEthernetFrame(data)
      case None => None
      case Some(f) => if f.frameId == setup.input.frameId then Some(f) else None
  }

  /** Time does not run backwards: no frame was accepted after `now`. */
  predicate NotBefore(c: Shared, now: int) {
    (c.stats.lastAcceptedTime.Some? ==> c.stats.lastAcceptedTime.value <= now) && c.stats.lastReceiveTime <= now
  }

  function Disowned(setup: Setup, c: Shared, f: RtFrame): Shared {
    var st := c.stats.(framesReceived := c.stats.framesReceived + 1, intervalDisturbed := true);
    var c' := TrackCycleCounter(c.(stats := st), setup.RxStep(), f.cycleCounter);
    c'.(stats := c'.stats.(framesInvalid := c'.stats.framesInvalid + 1))
  }

  function Accepted(setup: Setup, c: Shared, f: RtFrame, now: int): Shared
    requires NotBefore(c, now)
  {
    var st := c.stats.(framesReceived := c.stats.framesReceived + 1);
    var c1 := c.(stats := StatsAccepted(st, setup.input.CycleTimeUs(), now));
    var c2 := if c1.state == Fault then Transition(c1, Running) else c1;
    var c3 := TrackCycleCounter(c2, setup.RxStep(), f.cycleCounter);
    var e := Extract(Extraction(c3.inputs, c3.statusLog, c3.dataLog), setup.input.objects, f.payload);
    c3.(buffers := AllIocsSet(c3.buffers, setup.output, IOXS_GOOD), inputs := e.inputs, statusLog := e.statusLog, dataLog := e.dataLog)
  }

  function ProcessInputFrame(setup: Setup, c: Shared, data: bytes, now: int): Shared
    requires NotBefore(c, now)
  {
    match Relevant(setup, data)
    case None => c
    case Some(f) => if FrameIsAlive(f) then Accepted(setup, c, f, now) else Disowned(setup, c, f)
  }

  function HandleWatchdogTimeout(setup: Setup, c: Shared): Shared {
    var st := c.stats.(framesMissed := c.stats.framesMissed + 1, consecutiveTimeouts := c.stats.consecutiveTimeouts + 1,
                       intervalDisturbed := true);
    if setup.maxTimeouts == 0 then c.(stats := st)
    else
      var c' := c.(stats := st, buffers := AllIocsSet(c.buffers, setup.output, IOXS_BAD));
      if st.consecutiveTimeouts >= setup.maxTimeouts && c.state == Running then Transition(c', Fault) else c'
  }

  predicate TimesOut(setup: Setup, c: Shared, now: int) {
    now - c.stats.lastReceiveTime > setup.Watchdog()
  }

  function CheckReceiveWatchdog(setup: Setup, c: Shared, now: int): Shared {
    if TimesOut(setup, c, now) then
      var c' := HandleWatchdogTimeout(setup, c);
      c'.(stats := c'.stats.(lastReceiveTime := now))
    else c
  }

  /** What the receive socket delivers in one pass. */
  datatype Reception = Frame(data: bytes) | Nothing

  /** One pass of the receive loop. */
  function RxPass(setup: Setup, c: Shared, r: Reception, now: int): Shared
    requires NotBefore(c, now)
  {
    CheckReceiveWatchdog(setup, if r.Frame? then ProcessInputFrame(setup, c, r.data, now) else c, now)
  }

  /** The socket failed: the loop ends, and only a link that was up is declared dead. */
  function RxError(c: Shared): Shared {
    if c.running && c.state == Running then Transition(c, Fault) else c
  }

  /** One transmission of the TX loop. */
  function TxFrame(setup: Setup, c: Shared): (Shared, bytes) {
    var (c', frame) := NextOutputFrame(setup, c, RUN_STATUS);
    (c'.(stats := c'.stats.(framesSent := c'.stats.framesSent + 1)), frame)
  }

  /** Write the registered safe image, if any, and commit it. */
  function ApplySafeOutput(setup: Setup, c: Shared): Shared
    requires InBounds(setup.output) && Sized(c.buffers, setup.output)
  {
    if c.safeOutput.None? then c
    else
      var (slot, subslot, data) := c.safeOutput.value;
      match DataSet(c.buffers, setup.output, slot, subslot, data)
      case Err => c
      case Ok(b) => c.(buffers := Swapped(IopsSet(b, setup.output, slot, subslot, IOXS_GOOD)))
  }

  function SetOutputData(setup: Setup, c: Shared, slot: u16, subslot: u16, data: bytes): Result<Shared>
    requires InBounds(setup.output) && Sized(c.buffers, setup.output)
  {
    if OutputWritesLocked(c.state) then Err
    else
      match DataSet(c.buffers, setup.output, slot, subslot, data)
      case Err => Err
      case Ok(b) => Ok(c.(buffers := IopsSet(b, setup.output, slot, subslot, IOXS_GOOD)))
  }

  /** The state of a new controller: zero data, every provider status GOOD. */
  function NewShared(setup: Setup, now: int): Shared {
    var zero := Zeros(setup.output.dataLength);
    Shared(Idle, false, false, 0, AllIopsSet(Buffers(zero, zero, false), setup.output, IOXS_GOOD),
           map[], None, FreshStats(now), None, [], [], [])
  }

  /** How far `start` gets: the sockets may not open, the threads may not start. */
  datatype Opening = Works | NoSockets | NoThreads

  /** What `start` resets. */
  function Begun(c: Shared, now: int): Shared {
    Transition(c, Starting).(running := true, stats := FreshStats(now), everFaulted := false, lastRxCounter := None)
  }

  /** `start`, and whether it succeeds. */
  function Start(c: Shared, now: int, opening: Opening): (Shared, bool) {
    if !(c.state.Idle? || c.state.Stopped? || c.state.Fault?) then (c, false)
    else
      var c1 := Begun(c, now);
      var c2 := c1.(buffers := Swapped(c1.buffers));
      match opening
      case NoSockets => (c1, false)
      case NoThreads => (c2, false)
      case Works => (Transition(c2, Running), true)
  }

  // -------------------------------------------------------------------------
  // What a frame can change
  // -------------------------------------------------------------------------

  /** A frame the device sent, under any VLAN tags, is for this controller exactly if it comes from the
      device's address and carries the frame ID of the input IOCR. */
  lemma HeardExactlyIfAddressed(setup: Setup, dst: Mac, src: Mac, tags: bytes, f: RtFrame)
    requires IsTags(tags)
    ensures Relevant(setup, dst + src + tags + Be16(ETHERTYPE_PROFINET) + f.ToBytes())
            == if src == setup.dstMac && f.frameId == setup.input.frameId then Some(f) else None
  {
    hide ParseEthernetFrame, RtFrame.ToBytes, Be16, IsTags;
    var data := dst + src + tags + Be16(ETHERTYPE_PROFINET) + f.ToBytes();
    FrameRoundTrip(dst, src, tags, f);
    LongEnough(f);
    assert data[6..12] == src;
  }

  lemma LongEnough(f: RtFrame)
    ensures |f.ToBytes()| >= 6
  {}

  /** The status bytes end the frame. */
  lemma StatusEndsTheFrame(setup: Setup, data: bytes)
    requires Relevant(setup, data).Some?
    ensures |data| >= 18
    ensures var f := Relevant(setup, data).value; f.dataStatus == data[|data| - 2] && f.transferStatus == data[|data| - 1]
  {
    hide U16At, SkipFrom;
  }

  /** On the wire: a frame for this controller counts as usable exactly if its DataStatus, the last byte but
      one, has bits 2 and 4 set and bit 7 clear and its TransferStatus, the last byte, is zero. Usable, it
      re-arms the watchdog and turns the consumer status GOOD; if not, it is counted invalid and nothing else:
      no input, callback, timer, streak, state or output byte changes. */
  lemma UsableExactlyByItsStatus(setup: Setup, c: Shared, data: bytes, now: int)
    requires NotBefore(c, now) && Relevant(setup, data).Some?
    ensures |data| >= 18
    ensures var s, c' := data[|data| - 2], ProcessInputFrame(setup, c, data, now);
            if s / 4 % 2 == 1 && s / 16 % 2 == 1 && s < 0x80 && data[|data| - 1] == 0 then
              && c'.stats.framesInvalid == c.stats.framesInvalid
              && c'.stats.lastReceiveTime == now && c'.stats.lastAcceptedTime == Some(now) && c'.stats.consecutiveTimeouts == 0
              && c'.buffers == AllIocsSet(c.buffers, setup.output, IOXS_GOOD)
            else
              && c'.stats.framesInvalid == c.stats.framesInvalid + 1
              && c'.stats.lastReceiveTime == c.stats.lastReceiveTime && c'.stats.lastAcceptedTime == c.stats.lastAcceptedTime
              && c'.stats.consecutiveTimeouts == c.stats.consecutiveTimeouts
              && c'.inputs == c.inputs && c'.statusLog == c.statusLog && c'.dataLog == c.dataLog
              && c'.buffers == c.buffers && c'.state == c.state && c'.stateLog == c.stateLog
  {
    hide Relevant, Accepted, Disowned, StatsAccepted, AllIocsSet;
    StatusEndsTheFrame(setup, data);
    var f := Relevant(setup, data).value;
    AliveByItsBits(f);
    AcceptedTouches(setup, c, f, now);
    AcceptedTimes(c.stats, setup.input.CycleTimeUs(), now);
    DisownedTouchesOnlyCounters(setup, c, f);
  }

  lemma AliveByItsBits(f: RtFrame)
    ensures FrameIsAlive(f) <==> f.dataStatus / 4 % 2 == 1 && f.dataStatus / 16 % 2 == 1 && f.dataStatus < 0x80 && f.transferStatus == 0
  {}

  lemma AcceptedTimes(st: Stats, target: nat, now: int)
    requires st.lastAcceptedTime.Some? ==> st.lastAcceptedTime.value <= now
    ensures var st' := StatsAccepted(st, target, now);
            && st'.lastReceiveTime == now && st'.lastAcceptedTime == Some(now) && st'.consecutiveTimeouts == 0
            && st'.framesInvalid == st.framesInvalid
  {}

  lemma TrackTouchesLittle(c: Shared, step: nat, rx: u16)
    ensures var c' := TrackCycleCounter(c, step, rx);
            c' == c.(lastRxCounter := c'.lastRxCounter, stats := WithCounts(c.stats, c'.stats))
  {}

  /** `st` with the three counts that cycle-counter tracking keeps. */
  function WithCounts(st: Stats, counts: Stats): Stats {
    st.(framesDuplicate := counts.framesDuplicate, framesOutOfOrder := counts.framesOutOfOrder, framesMissed := counts.framesMissed)
  }

  lemma AcceptedTouches(setup: Setup, c: Shared, f: RtFrame, now: int)
    requires NotBefore(c, now)
    ensures var c' := Accepted(setup, c, f, now);
            && NotBefore(c', now)
            && c'.state == (if c.state == Fault then Running else c.state) && c'.everFaulted == c.everFaulted
            && c'.running == c.running && c'.cycleCounter == c.cycleCounter && c'.safeOutput == c.safeOutput
            && c'.buffers == AllIocsSet(c.buffers, setup.output, IOXS_GOOD)
            && c'.stats.framesSent == c.stats.framesSent
            && c'.stats == WithCounts(StatsAccepted(c.stats, setup.input.CycleTimeUs(), now).(framesReceived := c.stats.framesReceived + 1), c'.stats)
  {
    hide Extract, AllIocsSet, TrackCycleCounter;
    var st := c.stats.(framesReceived := c.stats.framesReceived + 1);
    var c1 := c.(stats := StatsAccepted(st, setup.input.CycleTimeUs(), now));
    TrackTouchesLittle(if c1.state == Fault then Transition(c1, Running) else c1, setup.RxStep(), f.cycleCounter);
  }

  /** A frame that is not alive feeds the counters and nothing else: no input, no watchdog timer, no
      timeout streak, no state, no output byte. */
  lemma DisownedTouchesOnlyCounters(setup: Setup, c: Shared, f: RtFrame)
    ensures var c' := Disowned(setup, c, f);
            c' == c.(lastRxCounter := c'.lastRxCounter,
                     stats := WithCounts(c.stats.(framesReceived := c.stats.framesReceived + 1, intervalDisturbed := true,
                                                  framesInvalid := c.stats.framesInvalid + 1), c'.stats))
  {
    hide TrackCycleCounter;
    var st := c.stats.(framesReceived := c.stats.framesReceived + 1, intervalDisturbed := true);
    TrackTouchesLittle(c.(stats := st), setup.RxStep(), f.cycleCounter);
  }

  /** A timeout leaves every trace of received frames alone. */
  lemma TimeoutTouches(setup: Setup, c: Shared, now: int)
    requires TimesOut(setup, c, now)
    ensures var c' := CheckReceiveWatchdog(setup, c, now);
            && c'.lastRxCounter == c.lastRxCounter
            && c'.stats == c.stats.(framesMissed := c.stats.framesMissed + 1, consecutiveTimeouts := c.stats.consecutiveTimeouts + 1,
                                    intervalDisturbed := true, lastReceiveTime := now)
  {
    hide AllIocsSet;
  }

  /** What an accepted frame does to the inputs and what the callbacks are told. */
  lemma AcceptedExtracts(setup: Setup, c: Shared, f: RtFrame, now: int)
    requires NotBefore(c, now)
    ensures var c', e := Accepted(setup, c, f, now), Extract(Extraction(c.inputs, c.statusLog, c.dataLog), setup.input.objects, f.payload);
            c'.inputs == e.inputs && c'.statusLog == e.statusLog && c'.dataLog == e.dataLog
  {
    hide Extract, AllIocsSet, TrackCycleCounter;
    var st := c.stats.(framesReceived := c.stats.framesReceived + 1);
    var c1 := c.(stats := StatsAccepted(st, setup.input.CycleTimeUs(), now));
    TrackTouchesLittle(if c1.state == Fault then Transition(c1, Running) else c1, setup.RxStep(), f.cycleCounter);
  }
}
