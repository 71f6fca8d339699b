/** Stopping a running controller while its transmit and receive threads are still at work
    (src/cyclic.rs, `stop`, `send_stop_frames`, `apply_safe_output`). The transmit thread builds a frame
    and sends it in two steps, and any send can fail. */
module SafeStop {
  import opened Bytes
  import opened Wrappers
  import opened Ethernet
  import opened Rt
  import opened DataBuilder
  import opened Cyclic
  import opened CyclicRuns
  import opened CyclicControllers

  /** Where the stopping thread is: safe image applied; returned, because nothing runs; state Stopping;
      run flag cleared; transmit thread joined and `n` STOP frames behind it; receive thread joined. */
  datatype Phase = Applied | Returned | Signalled | Joining | Stops(n: nat) | Done

  /** A frame was built before the safe image was applied, by the transmit thread after it, or by the
      stopping thread. */
  datatype Origin = Stale | Cyclical | Final

  datatype Sending = Sending(data: bytes, origin: Origin)

  /** `inHand` is the frame the transmit thread has built and not sent yet, `wire` everything that went
      out since the safe image was applied, `txSent` the successful sends of frames the transmit thread
      built since, `stopSends` how each attempt to send a STOP frame went. After a start that failed there
      may be no transmit thread at all, and so no socket for STOP frames. */
  datatype Stop = Stop(
    c: Shared, clock: int, transmitter: bool, phase: Phase, inHand: Option<Sending>, wire: seq<Sending>, txSent: nat, stopSends: seq<bool>)

  /** What happens next: the stopping thread moves on (a send it makes succeeds or not), or one of the
      threads it has not joined yet takes a step. */
  datatype StopAct =
    | Advance(ok: bool)
    | Build
    | Send(ok: bool)
    | Receive(r: Reception, wait: nat)
    | ReceiveFails

  /** The safe image is applied; the transmit thread, if there is one, may hold a frame it built before. */
  function Begin(setup: Setup, c: Shared, clock: int, transmitter: bool, built: Option<bytes>): Stop
    requires InBounds(setup.output) && Sized(c.buffers, setup.output)
  {
    Stop(ApplySafeOutput(setup, c), clock, transmitter, Applied,
         if built.None? then None else Some(Sending(built.value, Stale)), [], 0, [])
  }

  /** One STOP frame; a failed send ends the loop. */
  function StopFrame(setup: Setup, s: Stop, ok: bool): Stop
    requires s.phase.Stops?
  {
    var (c1, frame) := StopBuilt(setup, s.c);
    if ok then s.(c := CountSent(c1), phase := Stops(s.phase.n + 1), wire := s.wire + [Sending(frame, Final)], stopSends := s.stopSends + [true])
    else s.(c := c1, phase := Stops(STOP_FRAME_COUNT), stopSends := s.stopSends + [false])
  }

  /** Joining waits for the transmit thread to finish its iteration; only the socket it hands back carries
      STOP frames. */
  function Advanced(setup: Setup, s: Stop, ok: bool): Stop {
    match s.phase
    case Applied => if s.c.running then s.(c := Transition(s.c, Stopping), phase := Signalled) else s.(phase := Returned)
    case Returned => s
    case Signalled => s.(c := s.c.(running := false), phase := Joining)
    case Joining => if s.inHand.Some? then s else s.(phase := Stops(if s.transmitter then 0 else STOP_FRAME_COUNT))
    case Stops(n) =>
      if n < STOP_FRAME_COUNT then StopFrame(setup, s, ok)
      else s.(c := Transition(s.c, Stopped), phase := Done)
    case Done => s
  }

  predicate TransmitterAlive(s: Stop) {
    s.transmitter && (s.phase.Applied? || s.phase.Signalled? || s.phase.Joining?)
  }

  function FrameBuilt(setup: Setup, s: Stop): Stop {
    var (c, frame) := NextOutputFrame(setup, s.c, RUN_STATUS);
    s.(c := c, inHand := Some(Sending(frame, Cyclical)))
  }

  /** A send is counted whether it succeeds or not. */
  function FrameSent(s: Stop, ok: bool): Stop
    requires s.inHand.Some?
  {
    var f := s.inHand.value;
    var s1 := s.(c := CountSent(s.c), inHand := None);
    if ok then s1.(wire := s.wire + [f], txSent := if f.origin == Stale then s.txSent else s.txSent + 1) else s1
  }

  function Step(setup: Setup, s: Stop, a: StopAct): Stop
    requires NotBefore(s.c, s.clock)
  {
    match a
    case Advance(ok) => Advanced(setup, s, ok)
    case Build => if TransmitterAlive(s) && s.inHand.None? then FrameBuilt(setup, s) else s
    case Send(ok) => if TransmitterAlive(s) && s.inHand.Some? then FrameSent(s, ok) else s
    case Receive(r, wait) =>
      if s.phase.Done? || s.phase.Returned? then s else s.(c := RxPass(setup, s.c, r, s.clock + wait), clock := s.clock + wait)
    case ReceiveFails => if s.phase.Done? || s.phase.Returned? then s else s.(c := RxError(s.c))
  }

  // -------------------------------------------------------------------------
  // Safety
  // -------------------------------------------------------------------------

  /** Layouts in which nothing but its own process data writes a submodule's bytes. */
  predicate Sound(output: IocrConfig) {
    && InBounds(output) && Separated(output)
    && forall k :: 0 <= k < |output.objects| ==> Shaped(output.objects[k])
  }

  /** The layouts of `build_iocr_configs` are of this kind. */
  lemma BuiltOutputIsSound(slots: seq<IoSlot>, frameId: u16, scf: u16, rr: u16, wd: u16)
    ensures Sound(OutputConfig(slots, frameId, scf, rr, wd))
  {
    BuiltLayoutIsSound(slots, frameId, scf, rr, wd);
    LayoutTiles(IOCR_TYPE_OUTPUT, slots);
  }

  /** A receiver with this controller's own policy takes the frame for a disowned one. */
  predicate NotAlive(frame: bytes) {
    ParseEthernetFrame(frame).Some? && !FrameIsAlive(ParseEthernetFrame(frame).value)
  }

  /** The image registered in the shared state and the object it is for. */
  predicate Registered(setup: Setup, c: Shared, o: IoDataObject, image: bytes) {
    && c.safeOutput.Some? && c.safeOutput.value.2 == image
    && var k := Find(setup.output.objects, c.safeOutput.value.0, c.safeOutput.value.1);
       k < |setup.output.objects| && setup.output.objects[k] == o
  }

  predicate BuffersHold(setup: Setup, b: Buffers, o: IoDataObject, image: bytes) {
    Sized(b, setup.output) && Holds(b.write, o, image) && Holds(b.send, o, image)
  }

  /** A frame built since carries the image; a STOP frame is no sign of life. */
  predicate FrameSafe(f: Sending, frameId: u16, o: IoDataObject, image: bytes) {
    && (f.origin != Stale ==> FrameHolds(f.data, frameId, o, image))
    && (f.origin == Final ==> NotAlive(f.data))
  }

  predicate Fresh(wire: seq<Sending>) {
    wire != [] && wire[|wire| - 1].origin != Stale
  }

  /** Everything on the wire is safe but at most the first frame; STOP frames come last. */
  predicate WireSafe(frameId: u16, wire: seq<Sending>, o: IoDataObject, image: bytes) {
    && (forall k :: 0 <= k < |wire| ==> FrameSafe(wire[k], frameId, o, image))
    && (forall k :: 0 < k < |wire| ==> wire[k].origin != Stale)
    && (forall k :: 0 < k < |wire| ==> wire[k - 1].origin == Final ==> wire[k].origin == Final)
  }

  predicate InHandSafe(frameId: u16, s: Stop, o: IoDataObject, image: bytes) {
    s.inHand.Some? ==>
      && FrameSafe(s.inHand.value, frameId, o, image) && s.inHand.value.origin != Final
      && (s.inHand.value.origin == Stale ==> s.wire == [])
  }

  /** A STOP loop goes on only after successful sends. */
  predicate PhaseAndState(s: Stop, wasRunning: bool) {
    && (s.phase.Applied? || s.phase.Returned? || s.phase.Signalled? || s.phase.Joining? ==>
          s.stopSends == [] && forall k :: 0 <= k < |s.wire| ==> s.wire[k].origin != Final)
    && match s.phase
       case Applied => s.c.running == wasRunning
       case Returned => !wasRunning
       case Signalled => wasRunning && s.c.state == Stopping
       case Joining => wasRunning && s.c.state == Stopping && !s.c.running
       case Stops(n) =>
         && wasRunning && s.c.state == Stopping && !s.c.running && s.inHand == None
         && n <= STOP_FRAME_COUNT && |s.stopSends| <= n && (n > 0 && s.transmitter ==> s.stopSends != [])
         && (!s.transmitter ==> n == STOP_FRAME_COUNT && s.stopSends == [])
         && (n < STOP_FRAME_COUNT ==> forall k :: 0 <= k < |s.stopSends| ==> s.stopSends[k])
       case Done =>
         && wasRunning && s.c.state == Stopped && !s.c.running && s.inHand == None
         && (if s.transmitter then 1 <= |s.stopSends| <= 3 else s.stopSends == [])
  }

  /** Nothing goes out without a transmit thread. */
  predicate Silenced(s: Stop) {
    !s.transmitter ==> s.wire == [] && s.inHand == None && s.stopSends == [] && s.txSent == 0
  }

  /** What went out since the image was applied, told by the outcomes of the sends. */
  predicate Counted(s: Stop) {
    && (Fresh(s.wire) <==> s.txSent > 0 || (s.stopSends != [] && s.stopSends[0]))
    && (s.stopSends != [] && s.stopSends[0] ==> s.wire != [] && s.wire[|s.wire| - 1].origin == Final)
  }

  predicate Safe(setup: Setup, s: Stop, wasRunning: bool, o: IoDataObject, image: bytes) {
    && NotBefore(s.c, s.clock) && BuffersHold(setup, s.c.buffers, o, image)
    && WireSafe(setup.output.frameId, s.wire, o, image) && InHandSafe(setup.output.frameId, s, o, image)
    && PhaseAndState(s, wasRunning) && Counted(s) && Silenced(s)
  }

  /** The registered image is applied exactly if its submodule exists; otherwise nothing changes, and the
      STOP frames carry what was there. */
  lemma AppliedExactlyIfObjectExists(setup: Setup, c: Shared)
    requires Sound(setup.output) && Sized(c.buffers, setup.output) && c.safeOutput.Some?
    ensures var (slot, subslot, image) := c.safeOutput.value;
            var k := Find(setup.output.objects, slot, subslot);
            && (k < |setup.output.objects| <==> exists o :: o in setup.output.objects && o.slot == slot && o.subslot == subslot)
            && (if k < |setup.output.objects| then
                  && Registered(setup, c, setup.output.objects[k], image)
                  && BuffersHold(setup, ApplySafeOutput(setup, c).buffers, setup.output.objects[k], image)
                else ApplySafeOutput(setup, c) == c)
  {
    hide BuffersHold, Sound;
    var (slot, subslot, image) := c.safeOutput.value;
    var k := Find(setup.output.objects, slot, subslot);
    assert InBounds(setup.output) by { hide *; SoundInBounds(setup.output); }
    if k < |setup.output.objects| {
      ApplyingHolds(setup, c, setup.output.objects[k], image);
    }
  }

  lemma SoundInBounds(output: IocrConfig)
    requires Sound(output)
    ensures InBounds(output)
  {}

  lemma ApplyingHolds(setup: Setup, c: Shared, o: IoDataObject, image: bytes)
    requires Sound(setup.output) && Sized(c.buffers, setup.output) && Registered(setup, c, o, image)
    ensures BuffersHold(setup, ApplySafeOutput(setup, c).buffers, o, image)
  {
    var k := Find(setup.output.objects, c.safeOutput.value.0, c.safeOutput.value.1);
    assert setup.output.objects[k] in setup.output.objects && Shaped(o);
  }

  /** Consumer status never lands in a submodule's own bytes. */
  lemma IocsKeepHolds(setup: Setup, buffer: bytes, status: u8, o: IoDataObject, image: bytes)
    requires Sound(setup.output) && o in setup.output.objects && |buffer| == setup.output.dataLength && Holds(buffer, o, image)
    ensures Holds(WithIocs(buffer, setup.output.objects, status), o, image)
  {
    hide WithIocs, IsProcessByte, Separated, InBounds;
    var objects, m := setup.output.objects, Min(|image|, o.dataLength);
    WithIocsLength(buffer, objects, status);
    var updated := WithIocs(buffer, objects, status);
    forall p | o.frameOffset <= p < o.frameOffset + m
      ensures updated[p] == buffer[p]
    {
      OwnByte(objects, o, p);
      IocsLeaveProcessData(buffer, setup.output, status, p);
    }
    assert updated[o.frameOffset..o.frameOffset + m] == buffer[o.frameOffset..o.frameOffset + m];
    if o.dataLength > 0 {
      OwnByte(objects, o, o.iopsOffset);
      IocsLeaveProcessData(buffer, setup.output, status, o.iopsOffset);
    }
  }

  lemma OwnByte(objects: seq<IoDataObject>, o: IoDataObject, p: nat)
    requires o in objects && o.dataLength > 0 && (o.frameOffset <= p < o.frameOffset + o.dataLength || o.iopsOffset == p)
    ensures IsProcessByte(objects, p)
  {
    var j :| 0 <= j < |objects| && objects[j] == o;
    assert objects[j].dataLength > 0 && (objects[j].frameOffset <= p < objects[j].frameOffset + objects[j].dataLength || objects[j].iopsOffset == p);
  }

  lemma BuiltFrameHolds(setup: Setup, c: Shared, status: u8, o: IoDataObject, image: bytes)
    requires BuffersHold(setup, c.buffers, o, image)
    ensures var (c', frame) := NextOutputFrame(setup, c, status);
            && c' == c.(cycleCounter := c'.cycleCounter, buffers := c'.buffers)
            && BuffersHold(setup, c'.buffers, o, image) && FrameHolds(frame, setup.output.frameId, o, image)
            && (status / 0x10 % 2 == 0 ==> NotAlive(frame))
  {
    hide BuildEthernetFrame, ParseEthernetFrame, Holds;
    var counter: u16 := (c.cycleCounter + setup.TxStep()) % 0x1_0000;
    BuiltFrameRoundTrip(setup.dstMac, setup.srcMac, RtFrame(setup.output.frameId, counter, status, 0, Swapped(c.buffers).send));
  }

  lemma ReceiveKeepsBuffers(setup: Setup, c: Shared, reception: Reception, now: int, o: IoDataObject, image: bytes)
    requires Sound(setup.output) && o in setup.output.objects && NotBefore(c, now) && BuffersHold(setup, c.buffers, o, image)
    ensures BuffersHold(setup, RxPass(setup, c, reception, now).buffers, o, image)
  {
    hide RxPass, Holds, SignalOf, WithIocs;
    RxBuffers(setup, c, reception, now);
    RxTouches(setup, c, reception, now);
    IocsKeepHolds(setup, c.buffers.write, IOXS_GOOD, o, image);
    IocsKeepHolds(setup, c.buffers.write, IOXS_BAD, o, image);
    assert |WithIocs(c.buffers.write, setup.output.objects, IOXS_GOOD)| == |c.buffers.write| by { hide *; WithIocsLength(c.buffers.write, setup.output.objects, IOXS_GOOD); }
    assert |WithIocs(c.buffers.write, setup.output.objects, IOXS_BAD)| == |c.buffers.write| by { hide *; WithIocsLength(c.buffers.write, setup.output.objects, IOXS_BAD); }
  }

  lemma WithIocsLength(buffer: bytes, objects: seq<IoDataObject>, status: u8)
    ensures |WithIocs(buffer, objects, status)| == |buffer|
  {}

  /** A pass in a locked state leaves the state alone. */
  lemma ReceiveKeepsState(setup: Setup, c: Shared, reception: Reception, now: int)
    requires NotBefore(c, now)
    ensures var c' := RxPass(setup, c, reception, now);
            c.state != Running && c.state != Fault ==> c'.state == c.state
  {
    hide Accepted, Disowned, FrameIsAlive, Relevant, AllIocsSet;
    if reception.Frame? && Relevant(setup, reception.data).Some? {
      var f := Relevant(setup, reception.data).value;
      if FrameIsAlive(f) {
        AcceptedTouches(setup, c, f, now);
      } else {
        DisownedTouchesOnlyCounters(setup, c, f);
      }
    }
  }

  lemma WireAppend(frameId: u16, wire: seq<Sending>, f: Sending, o: IoDataObject, image: bytes)
    requires WireSafe(frameId, wire, o, image) && FrameSafe(f, frameId, o, image)
    requires f.origin == Stale ==> wire == []
    requires wire != [] && wire[|wire| - 1].origin == Final ==> f.origin == Final
    ensures WireSafe(frameId, wire + [f], o, image)
    ensures Fresh(wire + [f]) <==> f.origin != Stale
  {
    hide FrameSafe;
    var longer := wire + [f];
    assert longer[|wire|] == f && forall k :: 0 <= k < |wire| ==> longer[k] == wire[k];
  }

  lemma StopFrameIsSafe(setup: Setup, s: Stop, ok: bool, wasRunning: bool, o: IoDataObject, image: bytes)
    requires Safe(setup, s, wasRunning, o, image) && s.phase.Stops? && s.phase.n < STOP_FRAME_COUNT
    ensures Safe(setup, StopFrame(setup, s, ok), wasRunning, o, image)
  {
    hide NextOutputFrame, FrameHolds, NotAlive, Holds, WireSafe;
    var c := s.c.(buffers := Swapped(s.c.buffers));
    BuiltFrameHolds(setup, c, STOP_STATUS, o, image);
    WireAppend(setup.output.frameId, s.wire, Sending(StopBuilt(setup, s.c).1, Final), o, image);
  }

  lemma AdvanceIsSafe(setup: Setup, s: Stop, ok: bool, wasRunning: bool, o: IoDataObject, image: bytes)
    requires Safe(setup, s, wasRunning, o, image)
    ensures Safe(setup, Advanced(setup, s, ok), wasRunning, o, image)
  {
    hide StopFrame, BuffersHold, WireSafe, FrameSafe, Counted;
    if s.phase.Stops? && s.phase.n < STOP_FRAME_COUNT {
      StopFrameIsSafe(setup, s, ok, wasRunning, o, image);
    } else {
      OnlySendsCount(setup, s, ok);
      SameCounts(s, Advanced(setup, s, ok));
    }
  }

  lemma OnlySendsCount(setup: Setup, s: Stop, ok: bool)
    requires !(s.phase.Stops? && s.phase.n < STOP_FRAME_COUNT)
    ensures var s' := Advanced(setup, s, ok); s'.wire == s.wire && s'.txSent == s.txSent && s'.stopSends == s.stopSends
  {}

  lemma SameCounts(s: Stop, s': Stop)
    requires s'.wire == s.wire && s'.txSent == s.txSent && s'.stopSends == s.stopSends
    ensures Counted(s) ==> Counted(s')
  {}

  lemma BuildIsSafe(setup: Setup, s: Stop, wasRunning: bool, o: IoDataObject, image: bytes)
    requires Safe(setup, s, wasRunning, o, image) && TransmitterAlive(s) && s.inHand.None?
    ensures Safe(setup, FrameBuilt(setup, s), wasRunning, o, image)
  {
    hide NextOutputFrame, FrameHolds, NotAlive, Holds, WireSafe;
    BuiltFrameHolds(setup, s.c, RUN_STATUS, o, image);
  }

  lemma SendIsSafe(setup: Setup, s: Stop, ok: bool, wasRunning: bool, o: IoDataObject, image: bytes)
    requires Safe(setup, s, wasRunning, o, image) && TransmitterAlive(s) && s.inHand.Some?
    ensures Safe(setup, FrameSent(s, ok), wasRunning, o, image)
  {
    hide BuffersHold, WireSafe, FrameSafe;
    if ok {
      WireAppend(setup.output.frameId, s.wire, s.inHand.value, o, image);
    }
  }

  lemma StepIsSafe(setup: Setup, s: Stop, a: StopAct, wasRunning: bool, o: IoDataObject, image: bytes)
    requires Sound(setup.output) && o in setup.output.objects && Safe(setup, s, wasRunning, o, image)
    ensures Safe(setup, Step(setup, s, a), wasRunning, o, image)
  {
    hide FrameBuilt, FrameSent, BuffersHold, WireSafe, FrameSafe, RxPass, Advanced, Separated, InBounds;
    match a
    case Advance(ok) => AdvanceIsSafe(setup, s, ok, wasRunning, o, image);
    case Build =>
      if TransmitterAlive(s) && s.inHand.None? {
        BuildIsSafe(setup, s, wasRunning, o, image);
      }
    case Send(ok) =>
      if TransmitterAlive(s) && s.inHand.Some? {
        SendIsSafe(setup, s, ok, wasRunning, o, image);
      }
    case Receive(r, wait) =>
      if !s.phase.Done? && !s.phase.Returned? {
        RxTouches(setup, s.c, r, s.clock + wait);
        ReceiveKeepsBuffers(setup, s.c, r, s.clock + wait, o, image);
        ReceiveKeepsState(setup, s.c, r, s.clock + wait);
      }
    case ReceiveFails =>
      ErrorKeepsBuffers(setup, s.c, o, image);
  }

  lemma ErrorKeepsBuffers(setup: Setup, c: Shared, o: IoDataObject, image: bytes)
    ensures BuffersHold(setup, c.buffers, o, image) ==> BuffersHold(setup, RxError(c).buffers, o, image)
  {}

  lemma LaterIsNotBefore(c: Shared, clock: int, wait: nat)
    requires NotBefore(c, clock)
    ensures NotBefore(c, clock + wait)
  {}

  lemma SendingKeepsTimes(setup: Setup, c: Shared, now: int)
    requires NotBefore(c, now)
    ensures NotBefore(StopBuilt(setup, c).0, now) && NotBefore(NextOutputFrame(setup, c, RUN_STATUS).0, now) && NotBefore(CountSent(c), now)
  {
    hide BuildEthernetFrame, Swapped, Setup.TxStep;
  }

  lemma StatesKeepTimes(c: Shared, now: int)
    requires NotBefore(c, now)
    ensures NotBefore(Transition(c, Stopping), now) && NotBefore(Transition(c, Stopped), now) && NotBefore(RxError(c), now)
    ensures NotBefore(c.(running := false), now)
  {}

  lemma OthersStayWithin(setup: Setup, s: Stop, a: StopAct)
    requires NotBefore(s.c, s.clock) && !a.Receive?
    ensures var s' := Step(setup, s, a); NotBefore(s'.c, s'.clock)
  {
    hide RxPass, StopBuilt, NextOutputFrame, Transition, CountSent, NotBefore, RxError;
    SendingKeepsTimes(setup, s.c, s.clock);
    SendingKeepsTimes(setup, StopBuilt(setup, s.c).0, s.clock);
    StatesKeepTimes(s.c, s.clock);
  }

  lemma StepStaysWithin(setup: Setup, s: Stop, a: StopAct)
    requires NotBefore(s.c, s.clock)
    ensures var s' := Step(setup, s, a); NotBefore(s'.c, s'.clock)
  {
    hide RxPass, BuildEthernetFrame, Swapped, NotBefore;
    match a
    case Receive(r, wait) => RxTouches(setup, s.c, r, s.clock + wait) by { hide *; LaterIsNotBefore(s.c, s.clock, wait); }
    case _ => OthersStayWithin(setup, s, a);
  }

  /** The stop after a list of acts. */
  function Interleaved(setup: Setup, s: Stop, acts: seq<StopAct>): (r: Stop)
    requires NotBefore(s.c, s.clock)
    ensures NotBefore(r.c, r.clock)
  {
    if acts == [] then s
    else
      var before := Interleaved(setup, s, acts[..|acts| - 1]);
      StepStaysWithin(setup, before, acts[|acts| - 1]);
      Step(setup, before, acts[|acts| - 1])
  }

  lemma {:induction false} InterleavingsAreSafe(setup: Setup, s: Stop, acts: seq<StopAct>, wasRunning: bool, o: IoDataObject, image: bytes)
    requires Sound(setup.output) && o in setup.output.objects && Safe(setup, s, wasRunning, o, image)
    ensures Safe(setup, Interleaved(setup, s, acts), wasRunning, o, image)
  {
    hide Step, Sound, RxPass, BuffersHold, WireSafe, InHandSafe, PhaseAndState, Counted;
    if acts != [] {
      InterleavingsAreSafe(setup, s, acts[..|acts| - 1], wasRunning, o, image);
      StepIsSafe(setup, Interleaved(setup, s, acts[..|acts| - 1]), acts[|acts| - 1], wasRunning, o, image);
    }
  }

  lemma BeginIsSafe(setup: Setup, c: Shared, clock: int, transmitter: bool, built: Option<bytes>, o: IoDataObject, image: bytes)
    requires Sound(setup.output) && Sized(c.buffers, setup.output) && NotBefore(c, clock) && Registered(setup, c, o, image)
    requires built.Some? ==> transmitter
    ensures o in setup.output.objects && Safe(setup, Begin(setup, c, clock, transmitter, built), c.running, o, image)
  {
    hide Sound, FrameHolds, NotAlive, Holds;
    ApplyingHolds(setup, c, o, image);
  }

  /** The last frame the device has received, when `last` was the last one before the image was applied. */
  function Latched(s: Stop, last: bytes): bytes {
    if s.wire == [] then last else s.wire[|s.wire| - 1].data
  }

  /** The last frame out of those built before the image was applied. */
  function LastStale(s: Stop, last: bytes): bytes {
    if s.wire != [] && s.wire[0].origin == Stale then s.wire[0].data else last
  }

  /** In every interleaving of stop, building, sending, receptions and timeouts: everything that goes out
      after the image was applied carries it at its object's offset with status GOOD, save at most the
      first frame, which was built before; STOP frames come last and are no sign of life; a stop that goes
      through belongs to a controller that was running and ends Stopped, refusing output data, after one to
      three attempts at a STOP frame, or none and nothing sent at all if there is no transmit thread. */
  lemma StoppingIsSafe(setup: Setup, c: Shared, clock: int, transmitter: bool, built: Option<bytes>, acts: seq<StopAct>,
                       o: IoDataObject, image: bytes)
    requires Sound(setup.output) && Sized(c.buffers, setup.output) && NotBefore(c, clock) && Registered(setup, c, o, image)
    requires built.Some? ==> transmitter
    ensures NotBefore(Begin(setup, c, clock, transmitter, built).c, clock)
    ensures var s := Interleaved(setup, Begin(setup, c, clock, transmitter, built), acts);
            && WireSafe(setup.output.frameId, s.wire, o, image)
            && Sized(s.c.buffers, setup.output)
            && (s.phase.Returned? ==> !c.running)
            && (s.phase.Done? ==>
                  && c.running && s.c.state == Stopped && !s.c.running
                  && (if transmitter then 1 <= |s.stopSends| <= 3 else s.stopSends == [] && s.wire == [])
                  && forall slot, subslot, data :: SetOutputData(setup, s.c, slot, subslot, data) == Err)
  {
    hide FrameHolds, NotAlive, Holds, Interleaved, WireSafe;
    BeginIsSafe(setup, c, clock, transmitter, built, o, image);
    SameThread(setup, Begin(setup, c, clock, transmitter, built), acts);
    InterleavingsAreSafe(setup, Begin(setup, c, clock, transmitter, built), acts, c.running, o, image);
  }

  lemma StepKeepsThread(setup: Setup, s: Stop, a: StopAct)
    requires NotBefore(s.c, s.clock)
    ensures Step(setup, s, a).transmitter == s.transmitter
  {
    hide RxPass, RxError, NextOutputFrame, StopBuilt, CountSent, Transition;
  }

  lemma {:induction false} SameThread(setup: Setup, s: Stop, acts: seq<StopAct>)
    requires NotBefore(s.c, s.clock)
    ensures Interleaved(setup, s, acts).transmitter == s.transmitter
  {
    hide Step;
    if acts != [] {
      SameThread(setup, s, acts[..|acts| - 1]);
      StepKeepsThread(setup, Interleaved(setup, s, acts[..|acts| - 1]), acts[|acts| - 1]);
    }
  }

  /** A device holds the last output it received. When the stop is through, that output carries the safe
      image exactly if a frame built after the image was applied went out, that is the first STOP frame or
      some cyclic one, or if the last frame built before already carried it. */
  lemma LatchesSafeImageExactlyIf(setup: Setup, c: Shared, clock: int, transmitter: bool, built: Option<bytes>, acts: seq<StopAct>,
                                  last: bytes, o: IoDataObject, image: bytes)
    requires Sound(setup.output) && Sized(c.buffers, setup.output) && NotBefore(c, clock) && Registered(setup, c, o, image)
    requires built.Some? ==> transmitter
    ensures NotBefore(Begin(setup, c, clock, transmitter, built).c, clock)
    ensures var s := Interleaved(setup, Begin(setup, c, clock, transmitter, built), acts);
            var stopSent := s.stopSends != [] && s.stopSends[0];
            s.phase.Done? ==>
              && (FrameHolds(Latched(s, last), setup.output.frameId, o, image) <==>
                    s.txSent > 0 || stopSent || FrameHolds(LastStale(s, last), setup.output.frameId, o, image))
              && (stopSent ==> s.wire != [] && s.wire[|s.wire| - 1].origin == Final)
  {
    hide FrameHolds, NotAlive, Holds, Interleaved;
    BeginIsSafe(setup, c, clock, transmitter, built, o, image);
    InterleavingsAreSafe(setup, Begin(setup, c, clock, transmitter, built), acts, c.running, o, image);
  }

  // -------------------------------------------------------------------------
  // What can be known beforehand
  // -------------------------------------------------------------------------

  /** The only stale frame is the one that was in hand. */
  predicate StaleIs(s: Stop, built: Option<bytes>) {
    && (s.inHand.Some? && s.inHand.value.origin == Stale ==> built == Some(s.inHand.value.data))
    && forall k :: 0 <= k < |s.wire| && s.wire[k].origin == Stale ==> built == Some(s.wire[k].data)
  }

  lemma {:induction false} StaleWasInHand(setup: Setup, s: Stop, acts: seq<StopAct>, built: Option<bytes>)
    requires NotBefore(s.c, s.clock) && StaleIs(s, built)
    ensures StaleIs(Interleaved(setup, s, acts), built)
  {
    hide Step, StaleIs;
    if acts != [] {
      StaleWasInHand(setup, s, acts[..|acts| - 1], built);
      StepKeepsStale(setup, Interleaved(setup, s, acts[..|acts| - 1]), acts[|acts| - 1], built);
    }
  }

  lemma StepKeepsStale(setup: Setup, s: Stop, a: StopAct, built: Option<bytes>)
    requires NotBefore(s.c, s.clock) && StaleIs(s, built)
    ensures StaleIs(Step(setup, s, a), built)
  {
    hide RxPass, RxError, NextOutputFrame, StopBuilt, CountSent, Transition;
    var s' := Step(setup, s, a);
    assert forall k :: 0 <= k < |s'.wire| - 1 ==> s'.wire[k] == s.wire[k];
  }

  /** In every interleaving that ends, the device is left with the image. */
  ghost predicate AlwaysLatches(setup: Setup, s: Stop, last: bytes, o: IoDataObject, image: bytes)
    requires NotBefore(s.c, s.clock)
  {
    forall acts :: Interleaved(setup, s, acts).phase.Done? ==>
      FrameHolds(Latched(Interleaved(setup, s, acts), last), setup.output.frameId, o, image)
  }

  /** A caller can rely on the device being left with the safe image exactly if it already has it: the last
      frame out carries it, and so does the frame the transmit thread has in hand, if any. */
  lemma AlwaysLatchesExactlyIf(setup: Setup, c: Shared, clock: int, transmitter: bool, built: Option<bytes>, last: bytes,
                               o: IoDataObject, image: bytes)
    requires Sound(setup.output) && Sized(c.buffers, setup.output) && NotBefore(c, clock) && Registered(setup, c, o, image)
    requires c.running && (built.Some? ==> transmitter)
    ensures NotBefore(Begin(setup, c, clock, transmitter, built).c, clock)
    ensures AlwaysLatches(setup, Begin(setup, c, clock, transmitter, built), last, o, image) <==>
            && FrameHolds(last, setup.output.frameId, o, image)
            && (built.Some? ==> FrameHolds(built.value, setup.output.frameId, o, image))
  {
    hide FrameHolds, NotAlive, Holds, Interleaved, Sound, ApplySafeOutput;
    assert InBounds(setup.output) by { hide *; SoundInBounds(setup.output); }
    BeginIsSafe(setup, c, clock, transmitter, built, o, image);
    var s := Begin(setup, c, clock, transmitter, built);
    UnluckyRun(setup, c, clock, transmitter, built, false);
    UnluckyRun(setup, c, clock, transmitter, built, true);
    assert Latched(Interleaved(setup, s, Unlucky(false)), last) == last;
    if FrameHolds(last, setup.output.frameId, o, image) && (built.Some? ==> FrameHolds(built.value, setup.output.frameId, o, image)) {
      forall acts | Interleaved(setup, s, acts).phase.Done?
        ensures FrameHolds(Latched(Interleaved(setup, s, acts), last), setup.output.frameId, o, image)
      {
        LatchesSafeImageExactlyIf(setup, c, clock, transmitter, built, acts, last, o, image);
        StaleWasInHand(setup, s, acts, built);
      }
    }
  }

  lemma OneMoreStep(setup: Setup, s: Stop, acts: seq<StopAct>, a: StopAct)
    requires NotBefore(s.c, s.clock)
    ensures Interleaved(setup, s, acts + [a]) == Step(setup, Interleaved(setup, s, acts), a)
  {
    hide Step;
    assert (acts + [a])[..|acts|] == acts;
  }

  const ON := [Advance(true)]

  /** The acts of a stop whose first STOP frame is not sent, after the transmit thread got rid of the frame
      it had in hand, if any. */
  function Unlucky(ok: bool): seq<StopAct> {
    [Send(ok)] + (ON + (ON + (ON + ([Advance(false)] + ON))))
  }

  lemma UnluckyRun(setup: Setup, c: Shared, clock: int, transmitter: bool, built: Option<bytes>, ok: bool)
    requires InBounds(setup.output) && Sized(c.buffers, setup.output) && NotBefore(c, clock) && c.running
    requires built.Some? ==> transmitter
    ensures NotBefore(Begin(setup, c, clock, transmitter, built).c, clock)
    ensures var s := Interleaved(setup, Begin(setup, c, clock, transmitter, built), Unlucky(ok));
            s.phase.Done? && s.wire == if built.Some? && ok then [Sending(built.value, Stale)] else []
  {
    hide Interleaved, StopBuilt, Transition, DataSet, IopsSet, Swapped, RxPass;
    var s := Begin(setup, c, clock, transmitter, built);
    var s1 := Step(setup, s, Send(ok));
    FirstStep(setup, s, Send(ok), ON + (ON + (ON + ([Advance(false)] + ON))));
    assert s1.c.running && s1.phase == Applied && s1.inHand == None;
    UnluckyTail(setup, s1);
  }

  lemma UnluckyTail(setup: Setup, s: Stop)
    requires NotBefore(s.c, s.clock) && s.c.running && s.phase == Applied && s.inHand == None
    ensures var r := Interleaved(setup, s, ON + (ON + (ON + ([Advance(false)] + ON)))); r.phase.Done? && r.wire == s.wire
  {
    hide Interleaved, StopBuilt, CountSent, Transition, RxPass;
    FirstStep(setup, s, Advance(true), ON + (ON + ([Advance(false)] + ON)));
    var s1 := Step(setup, s, Advance(true));
    FirstStep(setup, s1, Advance(true), ON + ([Advance(false)] + ON));
    var s2 := Step(setup, s1, Advance(true));
    FirstStep(setup, s2, Advance(true), [Advance(false)] + ON);
    var s3 := Step(setup, s2, Advance(true));
    FirstStep(setup, s3, Advance(false), ON);
    Completes(setup, Step(setup, s3, Advance(false)), ON);
  }

  /** So a stop can leave an unsafe output behind: the transmit thread builds a frame, the safe image is
      applied, the frame goes out, and the first STOP frame does not. */
  lemma UnsafeOutputCanStay(setup: Setup, c: Shared, clock: int, last: bytes, o: IoDataObject, image: bytes)
    requires Sound(setup.output) && Sized(c.buffers, setup.output) && NotBefore(c, clock) && Registered(setup, c, o, image) && c.running
    requires !Holds(Swapped(c.buffers).send, o, image)
    ensures var (c1, frame) := NextOutputFrame(setup, c, RUN_STATUS);
            && NotBefore(c1, clock) && Sized(c1.buffers, setup.output)
            && NotBefore(Begin(setup, c1, clock, true, Some(frame)).c, clock)
            && var s := Interleaved(setup, Begin(setup, c1, clock, true, Some(frame)), Unlucky(true));
               s.phase.Done? && s.wire == [Sending(frame, Stale)] && !FrameHolds(Latched(s, last), setup.output.frameId, o, image)
  {
    hide Interleaved, Unlucky, FrameHolds, Holds, BuildEthernetFrame;
    var (c1, frame) := NextOutputFrame(setup, c, RUN_STATUS);
    UnsafeFrame(setup, c, o, image);
    UnluckyRun(setup, c1, clock, true, Some(frame), true);
  }

  /** Or, with nothing in hand, the first STOP frame does not go out and the device keeps what it had. */
  lemma LastOutputCanStay(setup: Setup, c: Shared, clock: int, transmitter: bool, last: bytes)
    requires InBounds(setup.output) && Sized(c.buffers, setup.output) && NotBefore(c, clock) && c.running
    ensures NotBefore(Begin(setup, c, clock, transmitter, None).c, clock)
    ensures var s := Interleaved(setup, Begin(setup, c, clock, transmitter, None), Unlucky(false));
            s.phase.Done? && s.wire == [] && Latched(s, last) == last
  {
    hide Interleaved, Unlucky;
    UnluckyRun(setup, c, clock, transmitter, None, false);
  }

  lemma UnsafeFrame(setup: Setup, c: Shared, o: IoDataObject, image: bytes)
    requires !Holds(Swapped(c.buffers).send, o, image)
    ensures !FrameHolds(NextOutputFrame(setup, c, RUN_STATUS).1, setup.output.frameId, o, image)
  {
    hide BuildEthernetFrame, ParseEthernetFrame, Holds;
    var counter: u16 := (c.cycleCounter + setup.TxStep()) % 0x1_0000;
    BuiltFrameRoundTrip(setup.dstMac, setup.srcMac, RtFrame(setup.output.frameId, counter, RUN_STATUS, 0, Swapped(c.buffers).send));
  }

  lemma NoActs(setup: Setup, s: Stop)
    requires NotBefore(s.c, s.clock)
    ensures Interleaved(setup, s, []) == s
  {}

  // -------------------------------------------------------------------------
  // The stop nobody interferes with
  // -------------------------------------------------------------------------

  /** The stopping thread alone, its STOP frames sent as `ok` says. */
  function Attempts(ok: seq<bool>): (r: seq<StopAct>)
    ensures |r| == |ok| && forall k :: 0 <= k < |r| ==> r[k] == Advance(ok[k])
  {
    seq(|ok|, k requires 0 <= k < |ok| => Advance(ok[k]))
  }

  function Datas(wire: seq<Sending>): (r: seq<bytes>)
    ensures |r| == |wire| && forall k :: 0 <= k < |r| ==> r[k] == wire[k].data
  {
    seq(|wire|, k requires 0 <= k < |wire| => wire[k].data)
  }

  lemma {:induction false} FirstStep(setup: Setup, s: Stop, a: StopAct, rest: seq<StopAct>)
    requires NotBefore(s.c, s.clock)
    ensures NotBefore(Step(setup, s, a).c, Step(setup, s, a).clock)
    ensures Interleaved(setup, s, [a] + rest) == Interleaved(setup, Step(setup, s, a), rest)
    decreases |rest|
  {
    hide Step, RxPass;
    StepStaysWithin(setup, s, a);
    if rest == [] {
      assert [a] + rest == [] + [a];
      OneMoreStep(setup, s, [], a);
      NoActs(setup, s);
    } else {
      var init, last := rest[..|rest| - 1], rest[|rest| - 1];
      FirstStep(setup, s, a, init);
      assert [a] + rest == ([a] + init) + [last] && rest == init + [last];
      OneMoreStep(setup, s, [a] + init, last);
      OneMoreStep(setup, Step(setup, s, a), init, last);
    }
  }

  /** Behind the STOP frames the stop completes, and stays complete. */
  lemma {:induction false} Completes(setup: Setup, s: Stop, acts: seq<StopAct>)
    requires NotBefore(s.c, s.clock) && (s.phase == Stops(STOP_FRAME_COUNT) || s.phase == Done)
    requires forall k :: 0 <= k < |acts| ==> acts[k].Advance?
    ensures Interleaved(setup, s, acts) == if s.phase == Done || acts == [] then s else s.(c := Transition(s.c, Stopped), phase := Done)
  {
    if acts != [] {
      Completes(setup, s, acts[..|acts| - 1]);
    }
  }

  lemma {:induction false} StopLoop(setup: Setup, s: Stop, ok: seq<bool>)
    requires NotBefore(s.c, s.clock) && s.phase.Stops? && s.phase.n + |ok| == STOP_FRAME_COUNT
    ensures var r, (c, sent) := Interleaved(setup, s, Attempts(ok) + ON), StopFrames(setup, s.c, ok);
            r.phase == Done && r.c == Transition(c, Stopped) && Datas(r.wire) == Datas(s.wire) + sent
    decreases |ok|
  {
    hide Interleaved, StopBuilt, CountSent, Transition;
    if ok == [] {
      Completes(setup, s, Attempts(ok) + ON);
      assert Datas(s.wire) + [] == Datas(s.wire);
    } else {
      var rest := Attempts(ok[1..]) + ON;
      assert Attempts(ok) + ON == [Advance(ok[0])] + rest;
      FirstStep(setup, s, Advance(ok[0]), rest);
      var s1 := Step(setup, s, Advance(ok[0]));
      if ok[0] {
        StopLoop(setup, s1, ok[1..]);
        var frame := StopBuilt(setup, s.c).1;
        assert Datas(s1.wire) == Datas(s.wire) + [frame];
      } else {
        Completes(setup, s1, rest);
        assert Datas(s.wire) + [] == Datas(s.wire);
      }
    }
  }

  /** With both threads idle the interleaved stop is the method `Stop`, whichever sends fail, with a
      transmit thread or without. */
  lemma StopIsTheQuietInterleaving(setup: Setup, c: Shared, clock: int, ok: seq<bool>)
    requires InBounds(setup.output) && Sized(c.buffers, setup.output) && NotBefore(c, clock) && c.running
    requires |ok| == STOP_FRAME_COUNT || ok == []
    ensures var s := Begin(setup, c, clock, ok != [], None);
            && NotBefore(s.c, clock)
            && var r := Interleaved(setup, s, ON + (ON + (ON + (Attempts(ok) + ON))));
               r.phase == Done && (r.c, Datas(r.wire)) == StopAlone(setup, c, ok)
  {
    hide Interleaved, NextOutputFrame, StopFrames, DataSet, IopsSet, Swapped;
    var s, rest := Begin(setup, c, clock, ok != [], None), Attempts(ok) + ON;
    var s1 := Step(setup, s, Advance(true));
    var s2 := Step(setup, s1, Advance(true));
    FirstStep(setup, s, Advance(true), ON + (ON + rest));
    FirstStep(setup, s1, Advance(true), ON + rest);
    FirstStep(setup, s2, Advance(true), rest);
    var s3 := Step(setup, s2, Advance(true));
    StopLoop(setup, s3, ok);
    var sent := StopFrames(setup, s3.c, ok).1;
    assert Datas([]) + sent == sent;
  }

  // -------------------------------------------------------------------------
  // What the threads do meanwhile
  // -------------------------------------------------------------------------

  /** Until it is joined an idle transmit thread that builds and sends does what it does in a running
      controller: one `TxFrame`, on the wire unless the send failed. */
  lemma TransmittingGoesOn(setup: Setup, s: Stop, ok: bool)
    requires NotBefore(s.c, s.clock) && TransmitterAlive(s) && s.inHand.None?
    ensures var s1, (c, frame) := Step(setup, s, Build), TxFrame(setup, s.c);
            && NotBefore(s1.c, s1.clock)
            && var s2 := Step(setup, s1, Send(ok));
               && s2.c == c && s2.inHand.None? && s2.phase == s.phase && s2.clock == s.clock && s2.stopSends == s.stopSends
               && s2.wire == (if ok then s.wire + [Sending(frame, Cyclical)] else s.wire)
               && s2.txSent == (if ok then s.txSent + 1 else s.txSent)
  {
    hide BuildEthernetFrame, Swapped, Setup.TxStep;
  }

  /** The receive thread goes on with its passes until the stop is through; its socket may fail. */
  lemma ReceivingGoesOn(setup: Setup, s: Stop, r: Reception, wait: nat)
    requires NotBefore(s.c, s.clock) && !s.phase.Done? && !s.phase.Returned?
    ensures NotBefore(s.c, s.clock + wait)
    ensures Step(setup, s, Receive(r, wait)) == s.(c := RxPass(setup, s.c, r, s.clock + wait), clock := s.clock + wait)
    ensures Step(setup, s, ReceiveFails) == s.(c := RxError(s.c))
  {
    hide RxPass, RxError;
  }

  /** Once the stop is through, or has returned because nothing ran, nothing moves any more. */
  lemma NothingMovesAfterwards(setup: Setup, s: Stop, a: StopAct)
    requires NotBefore(s.c, s.clock) && (s.phase.Done? || s.phase.Returned?)
    ensures Step(setup, s, a) == s
  {}

  /** Stopping what does not run applies the safe image and returns, whatever the state. */
  lemma StoppingTheIdle(setup: Setup, c: Shared, clock: int, ok: bool)
    requires InBounds(setup.output) && Sized(c.buffers, setup.output) && NotBefore(c, clock) && !c.running
    ensures var s := Begin(setup, c, clock, false, None);
            && NotBefore(s.c, s.clock)
            && var s' := Step(setup, s, Advance(ok)); s'.phase.Returned? && s'.c == ApplySafeOutput(setup, c) && s'.wire == []
  {
    hide DataSet, IopsSet, Swapped;
  }


  /** Through a stop, too, the state callback is told of every change and of nothing else. */
  lemma StoppingKeepsChain(setup: Setup, s: Stop, a: StopAct, first: CyclicState)
    requires NotBefore(s.c, s.clock) && Chained(first, s.c.stateLog, s.c.state)
    ensures var c := Step(setup, s, a).c; Chained(first, c.stateLog, c.state)
  {
    hide Chained, RxPass, Transition, BuildEthernetFrame, Swapped, Setup.TxStep;
    TransitionChains(first, s.c, Stopping);
    TransitionChains(first, s.c, Stopped);
    TransitionChains(first, s.c, Fault);
    match a
    case Receive(r, wait) =>
      LaterIsNotBefore(s.c, s.clock, wait);
      RxKeepsChain(setup, s.c, r, s.clock + wait, first);
    case _ =>
  }

}
