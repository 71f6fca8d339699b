/** One alarm priority end to end: the controller's channel and a stop-and-wait device that
    follows the same counter rule, joined by two channels that lose and repeat but never reorder. */
module AlarmTransport {
  import opened Bytes
  import opened Wrappers
  import opened Rta
  import opened AlarmChannels

  /** How stale an acknowledgment may be that is sent once more with an old DATA PDU: how many PDUs its
      sender may have accepted since. The code has no bound of its own, `window` is `None`; a bound
      is an assumption about how fast alarms come. The device keeps to `deviceWindow`. */
  datatype Net = Net(cfg: Config, ep: Endpoint, window: Option<nat>, deviceWindow: nat)

  predicate Within(window: Option<nat>, age: int) {
    window.Some? ==> age <= window.value
  }

  /** A PDU in flight with its history: the unwrapped send and ack indices, how many DATA PDUs its
      sender had accepted when sending it, and which payload it carries. */
  datatype Flight = Flight(pdu: RtaPdu, send: int, ack: int, seen: nat, ordinal: int)

  /** `acked` counts the device's send-side advances, `ordinals` names the payload behind each entry
      of `devicePayloads`. */
  datatype System = System(
    run: ChannelRun, alarms: seq<bytes>,
    device: SeqCounters, submitted: seq<bytes>, acked: nat, devicePayloads: seq<bytes>, ordinals: seq<int>,
    toDevice: seq<Flight>, toController: seq<Flight>)

  const INITIAL := System(NEW_RUN, [], INITIAL_COUNTERS, [], 0, [], [], [], [])

  datatype Action =
    | Submit(alarm: bytes)
    | DeviceSends(ack: int)
    | ControllerServices(now: int)
    | ControllerEnqueues(payload: bytes)
    | ControllerReceives(again: bool)
    | DeviceReceives(again: bool)
    | LoseToController(at: nat)
    | LoseToDevice(at: nat)

  predicate Enabled(net: Net, s: System, a: Action) {
    match a
    case Submit(_) => true
    // The device sends, or sends again, the alarm it has not seen acknowledged; the
    // acknowledgment inside may be as old as the window allows.
    case DeviceSends(ack) =>
      s.acked < |s.submitted| && -1 <= ack < |s.ordinals| && |s.ordinals| - 1 - net.deviceWindow <= ack
    case ControllerServices(now) =>
      Retransmits(s.run.ch, now) ==> Within(net.window, s.run.accepted - 1 - s.run.builtAck)
    case ControllerEnqueues(_) => true
    case ControllerReceives(_) => s.toController != []
    case DeviceReceives(_) => s.toDevice != []
    case LoseToController(at) => at < |s.toController|
    case LoseToDevice(at) => at < |s.toDevice|
  }

  function Without(flights: seq<Flight>, at: nat): seq<Flight>
    requires at < |flights|
  {
    flights[..at] + flights[at + 1..]
  }

  /** What is left of a wire after delivering its head, which may be delivered again. */
  function Rest(flights: seq<Flight>, again: bool): seq<Flight>
    requires flights != []
  {
    if again then flights else flights[1..]
  }

  /** Control PDUs put on a wire by an endpoint that has accepted `seen` DATA PDUs. */
  function Replies(out: seq<RtaPdu>, seen: nat): seq<Flight> {
    seq(|out|, k requires 0 <= k < |out| => Flight(out[k], -1, seen - 1, seen, -1))
  }

  /** DATA PDUs put on the wire by a service pass. */
  function SentByController(run: ChannelRun, out: seq<RtaPdu>): seq<Flight> {
    seq(|out|, k requires 0 <= k < |out| => Flight(out[k], run.builtSend, run.builtAck, run.accepted, |run.tx| - 1))
  }

  function Apply(net: Net, s: System, a: Action): System
    requires Enabled(net, s, a)
  {
    match a
    case Submit(alarm) => s.(submitted := s.submitted + [alarm])
    case DeviceSends(ack) =>
      var pdu := DataPdu(s.device.sendSeqNum, SeqNum(ack), s.submitted[s.acked]);
      s.(toController := s.toController + [Flight(pdu, s.acked, ack, |s.ordinals|, s.acked)])
    case ControllerServices(now) =>
      var (run, out) := AlarmChannels.Step(net.cfg, s.run, Service(now));
      s.(run := run,
         toDevice := s.toDevice + SentByController(run, out))
    case ControllerEnqueues(payload) =>
      s.(run := AlarmChannels.Step(net.cfg, s.run, Enqueue(payload)).0)
    case ControllerReceives(again) =>
      var f := s.toController[0];
      var (run, out) := AlarmChannels.Step(net.cfg, s.run, Pdu(PduHeader(net.ep, f.pdu)));
      s.(run := run,
         alarms := if run.accepted > s.run.accepted then s.alarms + [f.pdu.varPart] else s.alarms,
         toController := Rest(s.toController, again),
         toDevice := s.toDevice + Replies(out, run.accepted))
    case DeviceReceives(again) =>
      var f := s.toDevice[0];
      // The device runs the same classification and answers the same way.
      var before := Channel(s.device, None, []);
      var (after, action, out) := Received(before, PduHeader(net.ep, f.pdu));
      var ordinals := if action == Accept then s.ordinals + [f.ordinal] else s.ordinals;
      s.(device := after.counters,
         acked := if after.counters.sendSeqNum == s.device.sendSeqNum then s.acked else s.acked + 1,
         devicePayloads := if action == Accept then s.devicePayloads + [f.pdu.varPart] else s.devicePayloads,
         ordinals := ordinals,
         toDevice := Rest(s.toDevice, again),
         toController := s.toController + Replies(out, |ordinals|))
    case LoseToController(at) => s.(toController := Without(s.toController, at))
    case LoseToDevice(at) => s.(toDevice := Without(s.toDevice, at))
  }

  /** The largest safe window: one less and the oldest acknowledgment is still less than a lap old. */
  const SAFE_WINDOW := 0x7FFE

  /** The controller never retransmits, or never with an acknowledgment a lap old. */
  predicate Safe(net: Net) {
    && net.deviceWindow <= SAFE_WINDOW
    && (net.cfg.retries == 0 || (net.window.Some? && net.window.value <= SAFE_WINDOW))
  }

  /** How stale the acknowledgments of a safe controller get. */
  function AckWindow(net: Net): nat {
    if net.cfg.retries == 0 || net.window.None? then 0 else net.window.value
  }

  // -------------------------------------------------------------------------
  // The joint invariant
  // -------------------------------------------------------------------------

  /** The acknowledgment inside a PDU from an endpoint whose peer has advanced `advanced` times. */
  predicate AckOk(f: Flight, advanced: nat, accepted: nat, window: nat) {
    && advanced <= f.seen <= accepted
    && -1 <= f.ack < f.seen
    && f.pdu.ackSeqNum == SeqNum(f.ack)
    && (f.pdu.kind == RTA_TYPE_ACK || f.pdu.kind == RTA_TYPE_DATA)
    && (if f.pdu.kind == RTA_TYPE_ACK then f.ack == f.seen - 1 else f.seen - 1 - window <= f.ack)
  }

  predicate SeenInOrder(flights: seq<Flight>) {
    forall p, r :: 0 <= p < r < |flights| ==> flights[p].seen <= flights[r].seen
  }

  /** Among DATA PDUs the send indices rise, and so do the payloads, strictly where the index does. */
  predicate InOrder(f: Flight, g: Flight) {
    f.pdu.kind == RTA_TYPE_DATA && g.pdu.kind == RTA_TYPE_DATA ==>
      f.send <= g.send && f.ordinal <= g.ordinal && (f.send < g.send ==> f.ordinal < g.ordinal)
  }

  predicate DataInOrder(flights: seq<Flight>) {
    forall p, r :: 0 <= p < r < |flights| ==> InOrder(flights[p], flights[r])
  }

  /** A flight towards the controller: DATA carries the alarm its index names. */
  predicate AlarmOk(f: Flight, accepted: nat, acked: nat, submitted: seq<bytes>) {
    f.pdu.kind == RTA_TYPE_DATA ==>
      && 0 <= f.send < |submitted| && accepted - 1 <= f.send <= acked && f.ordinal == f.send && -1 <= f.ack
      && f.pdu == DataPdu(SeqNum(f.send), SeqNum(f.ack), submitted[f.send])
  }

  /** A DATA PDU the device may still accept carries a payload after every accepted one. */
  predicate After(ordinals: seq<int>, send: int, ordinal: int) {
    send >= |ordinals| > 0 ==> ordinal > ordinals[|ordinals| - 1]
  }

  /** A flight towards the device: DATA carries the payload its ordinal names, and stands before
      the newest PDU the controller built. */
  predicate PayloadOk(f: Flight, r: ChannelRun, ordinals: seq<int>) {
    f.pdu.kind == RTA_TYPE_DATA ==>
      && 0 <= f.send && |ordinals| - 1 <= f.send <= r.builtSend
      && 0 <= f.ordinal < |r.tx| <= |r.enqueued|
      && (f.send < r.builtSend ==> f.ordinal < |r.tx| - 1)
      && After(ordinals, f.send, f.ordinal) && -1 <= f.ack
      && f.pdu == DataPdu(SeqNum(f.send), SeqNum(f.ack), r.enqueued[f.ordinal])
  }

  predicate Wires(net: Net, s: System) {
    && ToDeviceOk(s.toDevice, s.acked, s.run, s.ordinals, AckWindow(net))
    && ToControllerOk(s.toController, s.run.sent, s.run.accepted, |s.ordinals|, s.acked, s.submitted, net.deviceWindow)
  }

  predicate ToDeviceOk(wire: seq<Flight>, acked: nat, run: ChannelRun, ordinals: seq<int>, window: nat) {
    && SeenInOrder(wire) && DataInOrder(wire)
    && forall f :: f in wire ==> AckOk(f, acked, run.accepted, window) && PayloadOk(f, run, ordinals)
  }

  predicate ToControllerOk(
    wire: seq<Flight>, sent: nat, accepted: nat, devAccepted: nat, acked: nat, submitted: seq<bytes>, window: nat)
  {
    && SeenInOrder(wire) && DataInOrder(wire)
    && forall f :: f in wire ==> AckOk(f, sent, devAccepted, window) && AlarmOk(f, accepted, acked, submitted)
  }

  /** The device accepted the payloads its ordinals name, each at most once and in order. */
  predicate Subsequence(s: System) {
    && |s.devicePayloads| == |s.ordinals|
    && (forall k :: 0 <= k < |s.ordinals| ==>
          0 <= s.ordinals[k] < |s.run.tx| <= |s.run.enqueued| && s.devicePayloads[k] == s.run.enqueued[s.ordinals[k]])
    && (forall k, l :: 0 <= k < l < |s.ordinals| ==> s.ordinals[k] < s.ordinals[l])
  }

  /** Every alarm the device believes delivered was accepted; the controller is ahead by at most one. */
  predicate ExactlyOnce(s: System) {
    && s.acked <= s.run.accepted <= s.acked + 1
    && s.run.accepted <= |s.submitted|
    && s.alarms == s.submitted[..s.run.accepted]
  }

  predicate Inv(net: Net, s: System) {
    && ChannelInv(net.cfg, s.run)
    && CountersAt(s.device, s.acked, |s.ordinals|)
    && s.run.sent <= |s.ordinals| <= s.run.builtSend + 1
    && After(s.ordinals, s.run.builtSend, |s.run.tx| - 1)
    && ExactlyOnce(s)
    && Subsequence(s)
    && Wires(net, s)
  }

  lemma InitialInv(net: Net)
    ensures Inv(net, INITIAL)
  {}

  /** Within a safe window an acknowledgment number matches the send counter only if it means it. */
  lemma AckMeansWhatItSays(f: Flight, advanced: nat, accepted: nat, window: nat)
    requires window <= SAFE_WINDOW && AckOk(f, advanced, accepted, window) && accepted <= advanced + 1
    ensures f.pdu.ackSeqNum == SeqNum(advanced) <==> f.ack == advanced
  {
    NumberIdentifiesIndex(f.ack, advanced);
  }

  /** Losing a PDU keeps the order of the others. */
  lemma WithoutKeepsOrder(flights: seq<Flight>, at: nat)
    requires at < |flights| && SeenInOrder(flights) && DataInOrder(flights)
    ensures SeenInOrder(Without(flights, at)) && DataInOrder(Without(flights, at))
    ensures forall f :: f in Without(flights, at) ==> f in flights
  {
    var rest := Without(flights, at);
    forall p | 0 <= p < |rest|
      ensures rest[p] == flights[if p < at then p else p + 1]
    {
    }
  }

  /** Delivering the head, again or for good, leaves flights that were there, all after it. */
  lemma RestKeepsOrder(flights: seq<Flight>, again: bool)
    requires flights != [] && SeenInOrder(flights) && DataInOrder(flights)
    ensures SeenInOrder(Rest(flights, again)) && DataInOrder(Rest(flights, again))
    ensures forall f :: f in Rest(flights, again) ==> f in flights
    ensures forall f :: f in flights ==> flights[0].seen <= f.seen && (f == flights[0] || InOrder(flights[0], f))
  {
  }

  /** A PDU sent behind everything it is in order with keeps the order. */
  lemma SendingKeepsOrder(flights: seq<Flight>, g: Flight)
    requires SeenInOrder(flights) && DataInOrder(flights)
    requires forall f :: f in flights ==> f.seen <= g.seen && InOrder(f, g)
    ensures SeenInOrder(flights + [g]) && DataInOrder(flights + [g])
    ensures forall f :: f in flights + [g] ==> f in flights || f == g
  {
  }

  lemma LosingKeepsInv(net: Net, s: System, a: Action)
    requires Inv(net, s) && Enabled(net, s, a) && (a.LoseToController? || a.LoseToDevice?)
    ensures Inv(net, Apply(net, s, a))
  {
    WithoutKeepsOrder(if a.LoseToDevice? then s.toDevice else s.toController, a.at);
  }

  lemma SubmittingKeepsInv(net: Net, s: System, a: Action)
    requires Inv(net, s) && (a.Submit? || a.ControllerEnqueues?)
    ensures Inv(net, Apply(net, s, a))
  {
    var s' := Apply(net, s, a);
    if a.ControllerEnqueues? {
      StepKeepsInv(net.cfg, s.run, Enqueue(a.payload));
    }
    assert s'.alarms == s'.submitted[..s'.run.accepted];
  }

  lemma DeviceSendsKeepsInv(net: Net, s: System, a: Action)
    requires Inv(net, s) && Enabled(net, s, a) && a.DeviceSends?
    ensures Inv(net, Apply(net, s, a))
  {
    var s' := Apply(net, s, a);
    var pdu := DataPdu(s.device.sendSeqNum, SeqNum(a.ack), s.submitted[s.acked]);
    SendingKeepsOrder(s.toController, Flight(pdu, s.acked, a.ack, |s.ordinals|, s.acked));
  }

  lemma NothingSent(wire: seq<Flight>, run: ChannelRun)
    ensures wire + SentByController(run, []) == wire
  {}

  lemma OneSent(wire: seq<Flight>, run: ChannelRun, out: seq<RtaPdu>)
    requires |out| == 1
    ensures SentByController(run, out) == [Flight(out[0], run.builtSend, run.builtAck, run.accepted, |run.tx| - 1)]
  {}

  /** What is on the wire suits a channel that built nothing new. */
  lemma QuietService(wire: seq<Flight>, acked: nat, run: ChannelRun, run': ChannelRun, ordinals: seq<int>, window: nat)
    requires ToDeviceOk(wire, acked, run, ordinals, window)
    requires run'.accepted == run.accepted && |run'.tx| == |run.tx| && run'.builtSend == run.builtSend && run'.enqueued == run.enqueued
    ensures ToDeviceOk(wire, acked, run', ordinals, window)
  {
    hide AckOk, SeenInOrder, DataInOrder;
  }

  /** The newest PDU suits behind all others. */
  lemma NewestGoesOut(s: System, run: ChannelRun, pdu: RtaPdu, again: bool, window: nat)
    requires ToDeviceOk(s.toDevice, s.acked, s.run, s.ordinals, window) && ServiceOutcome(s.run, run, [pdu], again)
    requires s.acked <= s.run.accepted && s.run.sent <= |s.ordinals| <= s.run.builtSend + 1 && -1 <= s.run.builtSend <= s.run.sent
    requires -1 <= s.run.builtAck < s.run.accepted && After(s.ordinals, s.run.builtSend, |s.run.tx| - 1)
    requires forall k :: 0 <= k < |s.ordinals| ==> s.ordinals[k] < |s.run.tx|
    requires again ==> s.run.accepted - 1 - s.run.builtAck <= window
    ensures ToDeviceOk(s.toDevice + [Flight(pdu, run.builtSend, run.builtAck, run.accepted, |run.tx| - 1)], s.acked, run, s.ordinals, window)
    ensures After(s.ordinals, run.builtSend, |run.tx| - 1) && |s.ordinals| <= run.builtSend + 1
  {
    hide SeenInOrder, DataInOrder;
    var g := Flight(pdu, run.builtSend, run.builtAck, run.accepted, |run.tx| - 1);
    SendingKeepsOrder(s.toDevice, g);
  }

  /** A service pass that put PDUs behind the others keeps the wire to the device in shape. */
  lemma ServiceKeepsWire(net: Net, s: System, run: ChannelRun, out: seq<RtaPdu>, again: bool)
    requires Inv(net, s) && ServiceOutcome(s.run, run, out, again)
    requires again ==> s.run.accepted - 1 - s.run.builtAck <= AckWindow(net)
    ensures var s' := s.(run := run, toDevice := s.toDevice + SentByController(run, out));
            Wires(net, s') && Subsequence(s') && After(s.ordinals, run.builtSend, |run.tx| - 1)
            && |s.ordinals| <= run.builtSend + 1
  {
    hide ChannelInv, CountersAt, ToControllerOk, SeenInOrder, DataInOrder, SentByController;
    if out == [] {
      NothingSent(s.toDevice, run);
      QuietService(s.toDevice, s.acked, s.run, run, s.ordinals, AckWindow(net));
    } else {
      OneSent(s.toDevice, run, out);
      BuiltBefore(net.cfg, s.run);
      NewestGoesOut(s, run, out[0], again, AckWindow(net));
    }
  }

  lemma ServicingKeepsInv(net: Net, s: System, a: Action)
    requires Safe(net) && Inv(net, s) && Enabled(net, s, a) && a.ControllerServices?
    ensures Inv(net, Apply(net, s, a))
  {
    StepKeepsInv(net.cfg, s.run, Service(a.now));
    ServiceSendsNewest(net.cfg, s.run, a.now);
    var (run, out) := AlarmChannels.Step(net.cfg, s.run, Service(a.now));
    NoRetriesNoRetransmission(net.cfg, s.run, a.now);
    ServiceKeepsWire(net, s, run, out, Retransmits(s.run.ch, a.now));
  }

  /** The head of a wire as its receiver, standing at `sent` and `accepted`, finds it. */
  predicate Receivable(window: nat, f: Flight, sent: nat, accepted: nat, peer: nat) {
    && window <= SAFE_WINDOW
    && AckOk(f, sent, peer, window) && peer <= sent + 1
    && (f.pdu.kind == RTA_TYPE_DATA ==>
          && 0 <= f.send && accepted - 1 <= f.send <= accepted
          && f.pdu == DataPdu(SeqNum(f.send), SeqNum(f.ack), f.pdu.varPart))
  }

  function SentAfter(f: Flight, sent: nat, accepted: nat): nat {
    if f.ack == sent && (f.pdu.kind == RTA_TYPE_ACK || f.send == accepted) then sent + 1 else sent
  }

  function AcceptedAfter(f: Flight, accepted: nat): nat {
    if f.pdu.kind == RTA_TYPE_DATA && f.send == accepted then accepted + 1 else accepted
  }

  /** Either endpoint reads a PDU as what it is: new DATA is accepted, old DATA acknowledged again,
      nothing is ever refused, and the send side advances exactly on its own number. */
  lemma ReceivedAsMeant(ep: Endpoint, window: nat, ch: Channel, f: Flight, sent: nat, accepted: nat, peer: nat)
    requires CountersAt(ch.counters, sent, accepted) && Receivable(window, f, sent, accepted, peer)
    ensures var (ch', action, out) := Received(ch, PduHeader(ep, f.pdu));
            && CountersAt(ch'.counters, SentAfter(f, sent, accepted), AcceptedAfter(f, accepted))
            && (ch'.counters.sendSeqNum == ch.counters.sendSeqNum <==> SentAfter(f, sent, accepted) == sent)
            && (action == Accept <==> AcceptedAfter(f, accepted) == accepted + 1)
            && action != SendNack
            && (if f.pdu.kind == RTA_TYPE_ACK then out == []
                else out == [ControlPdu(RTA_TYPE_ACK, ch'.counters.sendSeqNumO, SeqNum(AcceptedAfter(f, accepted) - 1))])
  {
    var h := PduHeader(ep, f.pdu);
    assert h.Kind() == f.pdu.kind && h.Version() == VERSION_1;
    ClassifyMovesIndices(ch.counters, sent, accepted, h);
    AckMeansWhatItSays(f, sent, peer, window);
    NumberIdentifiesIndex(accepted - 1, accepted);
    NumberIdentifiesIndex(sent, sent + 1);
  }

  /** A transport acknowledgment of the latest accepted PDU. */
  predicate IsReply(f: Flight, seen: nat) {
    && f.seen == seen && f.ack == seen - 1
    && f.pdu == ControlPdu(RTA_TYPE_ACK, f.pdu.sendSeqNum, SeqNum(seen - 1))
  }

  /** The wire back after answering: an acknowledgment of the latest PDU, or nothing. */
  lemma AnsweringKeepsOrder(flights: seq<Flight>, out: seq<RtaPdu>, seen: nat, o: u16)
    requires SeenInOrder(flights) && DataInOrder(flights) && (forall f :: f in flights ==> f.seen <= seen)
    requires out == [] || (seen >= 0 && out == [ControlPdu(RTA_TYPE_ACK, o, SeqNum(seen - 1))])
    ensures var wire := flights + Replies(out, seen);
            && SeenInOrder(wire) && DataInOrder(wire)
            && forall f :: f in wire ==> f in flights || IsReply(f, seen)
  {
    if out == [] {
      assert flights + Replies(out, seen) == flights;
    } else {
      var g := Flight(out[0], -1, seen - 1, seen, -1);
      assert Replies(out, seen) == [g];
      SendingKeepsOrder(flights, g);
    }
  }

  lemma AnsweringController(
    wire: seq<Flight>, out: seq<RtaPdu>, o: u16, sent: nat, accepted: nat, devAccepted: nat, devAccepted': nat,
    acked: nat, acked': nat, submitted: seq<bytes>, window: nat)
    requires ToControllerOk(wire, sent, accepted, devAccepted, acked, submitted, window)
    requires sent <= devAccepted <= devAccepted' && acked <= acked'
    requires out == [] || out == [ControlPdu(RTA_TYPE_ACK, o, SeqNum(devAccepted' - 1))]
    ensures ToControllerOk(wire + Replies(out, devAccepted'), sent, accepted, devAccepted', acked', submitted, window)
  {
    AnsweringKeepsOrder(wire, out, devAccepted', o);
  }

  lemma AnsweringDevice(
    wire: seq<Flight>, out: seq<RtaPdu>, o: u16, acked: nat, run: ChannelRun, run': ChannelRun, ordinals: seq<int>, window: nat)
    requires ToDeviceOk(wire, acked, run, ordinals, window)
    requires acked <= run.accepted <= run'.accepted
    requires run'.tx == run.tx && run'.enqueued == run.enqueued && run'.builtSend == run.builtSend
    requires out == [] || out == [ControlPdu(RTA_TYPE_ACK, o, SeqNum(run'.accepted - 1))]
    ensures ToDeviceOk(wire + Replies(out, run'.accepted), acked, run', ordinals, window)
  {
    AnsweringKeepsOrder(wire, out, run'.accepted, o);
  }

  /** What remains on the wire to the device suits the device after it took the head. */
  lemma DeviceTakesHead(net: Net, s: System, again: bool)
    requires Safe(net) && Inv(net, s) && s.toDevice != []
    ensures var f := s.toDevice[0];
            var ordinals := if AcceptedAfter(f, |s.ordinals|) > |s.ordinals| then s.ordinals + [f.ordinal] else s.ordinals;
            && Receivable(AckWindow(net), f, s.acked, |s.ordinals|, s.run.accepted)
            && After(ordinals, s.run.builtSend, |s.run.tx| - 1) && |ordinals| <= s.run.builtSend + 1
            && s.acked <= SentAfter(f, s.acked, |s.ordinals|) <= s.run.accepted
            && (AcceptedAfter(f, |s.ordinals|) > |s.ordinals| ==>
                  && 0 <= f.ordinal < |s.run.tx| <= |s.run.enqueued| && f.pdu.varPart == s.run.enqueued[f.ordinal]
                  && After(s.ordinals, |s.ordinals|, f.ordinal))
            && forall g :: g in Rest(s.toDevice, again) ==>
                 AckOk(g, SentAfter(f, s.acked, |s.ordinals|), s.run.accepted, AckWindow(net)) && PayloadOk(g, s.run, ordinals)
  {
    RestKeepsOrder(s.toDevice, again);
    assert s.toDevice[0] in s.toDevice;
  }

  /** The state in which the device has taken the head of its wire and answered with `out`. */
  function DeviceTook(s: System, again: bool, device: SeqCounters, out: seq<RtaPdu>): System
    requires s.toDevice != []
  {
    var f := s.toDevice[0];
    var accepts := AcceptedAfter(f, |s.ordinals|) > |s.ordinals|;
    var ordinals := if accepts then s.ordinals + [f.ordinal] else s.ordinals;
    s.(device := device, acked := SentAfter(f, s.acked, |s.ordinals|), ordinals := ordinals,
       devicePayloads := if accepts then s.devicePayloads + [f.pdu.varPart] else s.devicePayloads,
       toDevice := Rest(s.toDevice, again), toController := s.toController + Replies(out, |ordinals|))
  }

  lemma DeviceTookKeepsInv(net: Net, s: System, again: bool, device: SeqCounters, out: seq<RtaPdu>, o: u16)
    requires Safe(net) && Inv(net, s) && s.toDevice != []
    requires var s' := DeviceTook(s, again, device, out);
             && CountersAt(device, s'.acked, |s'.ordinals|)
             && (out == [] || (|s'.ordinals| >= 0 && out == [ControlPdu(RTA_TYPE_ACK, o, SeqNum(|s'.ordinals| - 1))]))
    ensures Inv(net, DeviceTook(s, again, device, out))
  {
    hide AckOk, PayloadOk, AlarmOk, Receivable, SeenInOrder, DataInOrder, InOrder, ChannelInv, CountersAt, ToControllerOk, SentAfter;
    var f := s.toDevice[0];
    DeviceTakesHead(net, s, again);
    RestKeepsOrder(s.toDevice, again);
    var s' := DeviceTook(s, again, device, out);
    AnsweringController(s.toController, out, o, s.run.sent, s.run.accepted, |s.ordinals|, |s'.ordinals|,
                        s.acked, s'.acked, s.submitted, net.deviceWindow);
  }

  lemma DeviceMayTake(net: Net, s: System, a: Action)
    requires Inv(net, s) && Enabled(net, s, a) && a.DeviceReceives?
    ensures s.toDevice != [] && CountersAt(s.device, s.acked, |s.ordinals|)
  {
    hide ChannelInv, CountersAt, After, ExactlyOnce, Subsequence, Wires;
  }

  /** A reception of the device takes the head of its wire. */
  lemma DeviceReceivesAsTaken(net: Net, s: System, a: Action)
    requires Enabled(net, s, a) && a.DeviceReceives? && s.toDevice != []
    requires CountersAt(s.device, s.acked, |s.ordinals|)
    requires Receivable(AckWindow(net), s.toDevice[0], s.acked, |s.ordinals|, s.run.accepted)
    ensures var (after, action, out) := Received(Channel(s.device, None, []), PduHeader(net.ep, s.toDevice[0].pdu));
            var s' := DeviceTook(s, a.again, after.counters, out);
            && Apply(net, s, a) == s' && CountersAt(after.counters, s'.acked, |s'.ordinals|)
            && (out == [] || (|s'.ordinals| >= 0 && out == [ControlPdu(RTA_TYPE_ACK, after.counters.sendSeqNumO, SeqNum(|s'.ordinals| - 1))]))
  {
    hide Receivable, CountersAt, Received, Rest, Replies, ControlPdu, PduHeader, SeqNum;
    var f := s.toDevice[0];
    ReceivedAsMeant(net.ep, AckWindow(net), Channel(s.device, None, []), f, s.acked, |s.ordinals|, s.run.accepted);
  }

  lemma DeviceReceivesKeepsInv(net: Net, s: System, a: Action)
    requires Safe(net) && Inv(net, s) && Enabled(net, s, a) && a.DeviceReceives?
    ensures Inv(net, Apply(net, s, a))
  {
    hide *;
    DeviceMayTake(net, s, a);
    DeviceTakesHead(net, s, a.again);
    DeviceReceivesAsTaken(net, s, a);
    var (after, action, out) := Received(Channel(s.device, None, []), PduHeader(net.ep, s.toDevice[0].pdu));
    DeviceTookKeepsInv(net, s, a.again, after.counters, out, after.counters.sendSeqNumO);
  }

  /** What remains on the wire to the controller suits the controller after it took the head. */
  lemma ControllerTakesHead(net: Net, s: System, again: bool)
    requires Safe(net) && Inv(net, s) && s.toController != []
    ensures var f := s.toController[0];
            && Receivable(net.deviceWindow, f, s.run.sent, s.run.accepted, |s.ordinals|)
            && s.run.sent <= SentAfter(f, s.run.sent, s.run.accepted) <= |s.ordinals|
            && (AcceptedAfter(f, s.run.accepted) > s.run.accepted ==>
                  s.run.accepted <= s.acked && s.run.accepted < |s.submitted| && f.pdu.varPart == s.submitted[s.run.accepted])
            && forall g :: g in Rest(s.toController, again) ==>
                 && AckOk(g, SentAfter(f, s.run.sent, s.run.accepted), |s.ordinals|, net.deviceWindow)
                 && AlarmOk(g, AcceptedAfter(f, s.run.accepted), s.acked, s.submitted)
  {
    RestKeepsOrder(s.toController, again);
    assert s.toController[0] in s.toController;
  }

  /** The state in which the controller has taken the head of its wire and answered with `out`. */
  function ControllerTook(s: System, again: bool, run: ChannelRun, out: seq<RtaPdu>): System
    requires s.toController != []
  {
    s.(run := run,
       alarms := if run.accepted > s.run.accepted then s.alarms + [s.toController[0].pdu.varPart] else s.alarms,
       toController := Rest(s.toController, again), toDevice := s.toDevice + Replies(out, run.accepted))
  }

  lemma SameTransmissions(s: System, s': System)
    requires Subsequence(s) && s'.ordinals == s.ordinals && s'.devicePayloads == s.devicePayloads
    requires s'.run.tx == s.run.tx && s'.run.enqueued == s.run.enqueued
    ensures Subsequence(s')
  {}

  lemma ControllerTookKeepsInv(net: Net, s: System, again: bool, run: ChannelRun, out: seq<RtaPdu>, o: u16)
    requires Safe(net) && Inv(net, s) && s.toController != []
    requires ChannelInv(net.cfg, run)
    requires run.sent == SentAfter(s.toController[0], s.run.sent, s.run.accepted)
    requires run.accepted == AcceptedAfter(s.toController[0], s.run.accepted)
    requires run.tx == s.run.tx && run.enqueued == s.run.enqueued && run.builtSend == s.run.builtSend && run.builtAck == s.run.builtAck
    requires out == [] || out == [ControlPdu(RTA_TYPE_ACK, o, SeqNum(run.accepted - 1))]
    ensures Inv(net, ControllerTook(s, again, run, out))
  {
    hide AckOk, PayloadOk, AlarmOk, Receivable, SeenInOrder, DataInOrder, InOrder, ChannelInv, CountersAt, ToDeviceOk, SentAfter, After,
      Subsequence;
    ControllerTakesHead(net, s, again);
    RestKeepsOrder(s.toController, again);
    assert Subsequence(ControllerTook(s, again, run, out)) by { hide *; SameTransmissions(s, ControllerTook(s, again, run, out)); }
    AnsweringDevice(s.toDevice, out, o, s.acked, s.run, run, s.ordinals, AckWindow(net));
  }

  lemma ControllerReceivesKeepsInv(net: Net, s: System, a: Action)
    requires Safe(net) && Inv(net, s) && Enabled(net, s, a) && a.ControllerReceives?
    ensures Inv(net, Apply(net, s, a))
  {
    hide AckOk, PayloadOk, AlarmOk, Receivable, SeenInOrder, DataInOrder, InOrder, Wires, Subsequence, ExactlyOnce, After, Classify;
    var f := s.toController[0];
    StepKeepsInv(net.cfg, s.run, Pdu(PduHeader(net.ep, f.pdu)));
    ControllerTakesHead(net, s, a.again);
    ReceivedAsMeant(net.ep, net.deviceWindow, s.run.ch, f, s.run.sent, s.run.accepted, |s.ordinals|);
    var (ch, action, out) := Received(s.run.ch, PduHeader(net.ep, f.pdu));
    var run := AlarmChannels.Step(net.cfg, s.run, Pdu(PduHeader(net.ep, f.pdu))).0;
    ControllerTookKeepsInv(net, s, a.again, run, out, ch.counters.sendSeqNumO);
  }

  // -------------------------------------------------------------------------
  // Runs
  // -------------------------------------------------------------------------

  /** The actions are possible one after the other from the initial state. */
  predicate Possible(net: Net, acts: seq<Action>)
    decreases |acts|, 0
  {
    acts == [] ||
    (Possible(net, acts[..|acts| - 1]) && Enabled(net, StateAfter(net, acts[..|acts| - 1]), acts[|acts| - 1]))
  }

  /** The state a possible run leads to. */
  function StateAfter(net: Net, acts: seq<Action>): System
    requires Possible(net, acts)
    decreases |acts|, 1
  {
    if acts == [] then INITIAL
    else Apply(net, StateAfter(net, acts[..|acts| - 1]), acts[|acts| - 1])
  }

  lemma ApplyKeepsInv(net: Net, s: System, a: Action)
    requires Safe(net) && Inv(net, s) && Enabled(net, s, a)
    ensures Inv(net, Apply(net, s, a))
  {
    match a
    case Submit(_) => SubmittingKeepsInv(net, s, a);
    case ControllerEnqueues(_) => SubmittingKeepsInv(net, s, a);
    case DeviceSends(_) => DeviceSendsKeepsInv(net, s, a);
    case ControllerServices(_) => ServicingKeepsInv(net, s, a);
    case ControllerReceives(_) => ControllerReceivesKeepsInv(net, s, a);
    case DeviceReceives(_) => DeviceReceivesKeepsInv(net, s, a);
    case LoseToController(_) => LosingKeepsInv(net, s, a);
    case LoseToDevice(_) => LosingKeepsInv(net, s, a);
  }

  /** In a safe net every reachable state is in the joint invariant: alarms exactly once and in
      order, payloads at most once and in order, across any number of wraps. */
  lemma {:induction false} EveryRunIsSafe(net: Net, acts: seq<Action>)
    requires Safe(net) && Possible(net, acts)
    ensures Inv(net, StateAfter(net, acts))
    ensures ExactlyOnce(StateAfter(net, acts)) && Subsequence(StateAfter(net, acts))
  {
    if acts == [] {
      InitialInv(net);
    } else {
      EveryRunIsSafe(net, acts[..|acts| - 1]);
      ApplyKeepsInv(net, StateAfter(net, acts[..|acts| - 1]), acts[|acts| - 1]);
    }
  }
}
