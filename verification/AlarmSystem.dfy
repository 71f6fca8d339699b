/** Both alarm priorities end to end: the listener of the controller, a device with one endpoint per
    priority, and four wires. An alarm may name the other priority in its block type, and then its
    AlarmAck travels there. */
module AlarmSystem {
  import opened Bytes
  import opened Wrappers
  import opened Ethernet
  import opened Rta
  import opened AlarmChannels
  import opened Alarms
  import opened AlarmListeners
  import opened AlarmTransport

  datatype Duo = Duo(low: System, high: System, delivered: seq<(bool, AlarmNotification)>) {
    function Get(h: bool): System { if h then high else low }
    function Set(h: bool, s: System): Duo { if h then this.(high := s) else this.(low := s) }
  }

  const INITIAL_DUO := Duo(INITIAL, INITIAL, [])

  /** A pass of the listener that takes the head of a wire, again or for good, or nothing; or
      anything the device and the wires of one priority do. */
  datatype DuoAction = ListenerPass(now: int, from: Option<(bool, bool)>, later: int) | Outside(high: bool, a: Action)

  predicate IsOutside(a: Action) {
    a.Submit? || a.DeviceSends? || a.DeviceReceives? || a.LoseToController? || a.LoseToDevice?
  }

  predicate Can(net: Net, d: Duo, h: bool, a: Action) {
    Enabled(net, d.Get(h), a)
  }

  function Do(net: Net, d: Duo, h: bool, a: Action): Duo
    requires Can(net, d, h, a)
  {
    d.Set(h, Apply(net, d.Get(h), a))
  }

  /** The alarm accepted when the head of wire `h` is taken, if it is one that parses. */
  function AlarmIn(net: Net, d: Duo, h: bool): Option<AlarmNotification>
    requires d.Get(h).toController != []
  {
    var f := d.Get(h).toController[0];
    if Received(d.Get(h).run.ch, PduHeader(net.ep, f.pdu)).1 != Accept then None
    else match Parsed(f.pdu.varPart) case Err => None case Ok(alarm) => Some(alarm)
  }

  predicate CanTake(net: Net, d: Duo, h: bool, again: bool, later: int) {
    && Can(net, d, h, ControllerReceives(again))
    && var d1 := Do(net, d, h, ControllerReceives(again));
       AlarmIn(net, d, h).Some? ==>
         var ackHigh := AlarmIn(net, d, h).value.IsHighPriority();
         Can(net, Do(net, d1, ackHigh, ControllerEnqueues(AlarmAck(AlarmIn(net, d, h).value))), ackHigh, ControllerServices(later))
  }

  function Take(net: Net, d: Duo, h: bool, again: bool, later: int): Duo
    requires CanTake(net, d, h, again, later)
  {
    var d1 := Do(net, d, h, ControllerReceives(again));
    match AlarmIn(net, d, h)
    case None => d1
    case Some(alarm) =>
      var ackHigh := alarm.IsHighPriority();
      var d2 := Do(net, d1, ackHigh, ControllerEnqueues(AlarmAck(alarm)));
      Do(net, d2, ackHigh, ControllerServices(later)).(delivered := d.delivered + [(h, alarm)])
  }

  predicate CanService(net: Net, d: Duo, now: int) {
    Can(net, d, false, ControllerServices(now)) && Can(net, Do(net, d, false, ControllerServices(now)), true, ControllerServices(now))
  }

  function ServiceBoth(net: Net, d: Duo, now: int): Duo
    requires CanService(net, d, now)
  {
    Do(net, Do(net, d, false, ControllerServices(now)), true, ControllerServices(now))
  }

  predicate DuoEnabled(net: Net, d: Duo, a: DuoAction) {
    match a
    case Outside(h, act) => IsOutside(act) && Can(net, d, h, act)
    case ListenerPass(now, from, later) =>
      && CanService(net, d, now)
      && (from.Some? ==> CanTake(net, ServiceBoth(net, d, now), from.value.0, from.value.1, later))
  }

  function DuoApply(net: Net, d: Duo, a: DuoAction): Duo
    requires DuoEnabled(net, d, a)
  {
    match a
    case Outside(h, act) => Do(net, d, h, act)
    case ListenerPass(now, from, later) =>
      var d1 := ServiceBoth(net, d, now);
      if from.None? then d1 else Take(net, d1, from.value.0, from.value.1, later)
  }

  // -------------------------------------------------------------------------
  // Safety of both priorities together
  // -------------------------------------------------------------------------

  /** The notifications among a list of alarm PDUs. */
  function Notifications(alarms: seq<bytes>): seq<AlarmNotification> {
    if alarms == [] then []
    else
      var last := Parsed(alarms[|alarms| - 1]);
      Notifications(alarms[..|alarms| - 1]) + if last.Ok? then [last.value] else []
  }

  /** The callbacks run for alarms that came in on one priority. */
  function CallbacksOf(delivered: seq<(bool, AlarmNotification)>, h: bool): seq<AlarmNotification> {
    if delivered == [] then []
    else
      var (from, alarm) := delivered[|delivered| - 1];
      CallbacksOf(delivered[..|delivered| - 1], h) + if from == h then [alarm] else []
  }

  predicate DuoInv(net: Net, d: Duo) {
    && Inv(net, d.low) && Inv(net, d.high)
    && CallbacksOf(d.delivered, false) == Notifications(d.low.alarms)
    && CallbacksOf(d.delivered, true) == Notifications(d.high.alarms)
  }

  lemma DoKeepsInv(net: Net, d: Duo, h: bool, a: Action)
    requires Safe(net) && DuoInv(net, d) && Can(net, d, h, a) && !a.ControllerReceives?
    ensures DuoInv(net, Do(net, d, h, a))
  {
    hide Inv;
    ApplyKeepsInv(net, d.Get(h), a);
  }

  lemma CallbacksAppend(delivered: seq<(bool, AlarmNotification)>, from: bool, alarm: AlarmNotification, h: bool)
    ensures CallbacksOf(delivered + [(from, alarm)], h) == CallbacksOf(delivered, h) + if from == h then [alarm] else []
  {
    assert (delivered + [(from, alarm)])[..|delivered|] == delivered;
  }

  /** Taking a PDU extends the accepted alarms by its variable part exactly when it is accepted. */
  lemma AlarmsGrowOnAccept(net: Net, s: System, again: bool)
    requires s.toController != []
    ensures var (_, action, _) := Received(s.run.ch, PduHeader(net.ep, s.toController[0].pdu));
            Apply(net, s, ControllerReceives(again)).alarms
            == s.alarms + if action == Accept then [s.toController[0].pdu.varPart] else []
  {
    hide Classify, PduHeader;
  }

  lemma NotificationsAppend(alarms: seq<bytes>, alarm: bytes)
    ensures Notifications(alarms + [alarm]) == Notifications(alarms) + if Parsed(alarm).Ok? then [Parsed(alarm).value] else []
  {
    hide Parsed;
    assert (alarms + [alarm])[..|alarms|] == alarms;
  }

  /** The state in which the head was taken and the callbacks have run, before the AlarmAck is queued. */
  function Delivered(net: Net, d: Duo, h: bool, again: bool): Duo
    requires d.Get(h).toController != []
  {
    var alarm := AlarmIn(net, d, h);
    Do(net, d, h, ControllerReceives(again)).(delivered := d.delivered + if alarm.Some? then [(h, alarm.value)] else [])
  }

  lemma DeliveredKeepsInv(net: Net, d: Duo, h: bool, again: bool)
    requires Safe(net) && DuoInv(net, d) && d.Get(h).toController != []
    ensures DuoInv(net, Delivered(net, d, h, again))
  {
    hide Inv, Parsed, Received, Apply, Notifications, CallbacksOf;
    var s := d.Get(h);
    ApplyKeepsInv(net, s, ControllerReceives(again));
    AlarmsGrowOnAccept(net, s, again);
    NotificationsAppend(s.alarms, s.toController[0].pdu.varPart);
    assert s.alarms + [] == s.alarms && d.delivered + [] == d.delivered;
    if AlarmIn(net, d, h).Some? {
      CallbacksAppend(d.delivered, h, AlarmIn(net, d, h).value, false);
      CallbacksAppend(d.delivered, h, AlarmIn(net, d, h).value, true);
    }
  }

  lemma TakeKeepsInv(net: Net, d: Duo, h: bool, again: bool, later: int)
    requires Safe(net) && DuoInv(net, d) && CanTake(net, d, h, again, later)
    ensures DuoInv(net, Take(net, d, h, again, later))
  {
    hide DuoInv, Apply, Parsed, AlarmAck, Received;
    DeliveredKeepsInv(net, d, h, again);
    var d1 := Delivered(net, d, h, again);
    if AlarmIn(net, d, h).Some? {
      var alarm := AlarmIn(net, d, h).value;
      var ackHigh := alarm.IsHighPriority();
      DoKeepsInv(net, d1, ackHigh, ControllerEnqueues(AlarmAck(alarm)));
      DoKeepsInv(net, Do(net, d1, ackHigh, ControllerEnqueues(AlarmAck(alarm))), ackHigh, ControllerServices(later));
    } else {
      assert d.delivered + [] == d.delivered;
    }
  }

  predicate DuoPossible(net: Net, acts: seq<DuoAction>)
    decreases |acts|, 0
  {
    acts == [] ||
    (DuoPossible(net, acts[..|acts| - 1]) && DuoEnabled(net, DuoAfter(net, acts[..|acts| - 1]), acts[|acts| - 1]))
  }

  function DuoAfter(net: Net, acts: seq<DuoAction>): Duo
    requires DuoPossible(net, acts)
    decreases |acts|, 1
  {
    if acts == [] then INITIAL_DUO else DuoApply(net, DuoAfter(net, acts[..|acts| - 1]), acts[|acts| - 1])
  }

  lemma {:induction false} EveryDuoRunKeepsInv(net: Net, acts: seq<DuoAction>)
    requires Safe(net) && DuoPossible(net, acts)
    ensures DuoInv(net, DuoAfter(net, acts))
  {
    hide Inv, Take, CanTake;
    if acts == [] {
      InitialInv(net);
    } else {
      var before := acts[..|acts| - 1];
      EveryDuoRunKeepsInv(net, before);
      var d := DuoAfter(net, before);
      match acts[|acts| - 1]
      case Outside(h, act) => DoKeepsInv(net, d, h, act);
      case ListenerPass(now, from, later) =>
        DoKeepsInv(net, d, false, ControllerServices(now));
        DoKeepsInv(net, Do(net, d, false, ControllerServices(now)), true, ControllerServices(now));
        if from.Some? {
          TakeKeepsInv(net, ServiceBoth(net, d, now), from.value.0, from.value.1, later);
        }
    }
  }

  /** On each priority, whatever happens on either: the callbacks have run exactly once, in order,
      for the notifications among a prefix of the submitted alarms that lags by at most one; and
      the device has accepted a subsequence of the AlarmAcks, each at most once. */
  lemma AlarmsExactlyOnce(net: Net, acts: seq<DuoAction>, h: bool)
    requires Safe(net) && DuoPossible(net, acts)
    ensures var s := DuoAfter(net, acts).Get(h);
            && s.acked <= s.run.accepted <= s.acked + 1 && s.run.accepted <= |s.submitted|
            && CallbacksOf(DuoAfter(net, acts).delivered, h) == Notifications(s.submitted[..s.run.accepted])
            && Subsequence(s)
  {
    EveryDuoRunKeepsInv(net, acts);
  }

  // -------------------------------------------------------------------------
  // The step above is the pass of the code
  // -------------------------------------------------------------------------

  /** What arrives on the Ethernet for a PDU of the device. */
  function DeviceFrame(ep: Endpoint, mac: Mac, pdu: RtaPdu, h: bool, padding: bytes): bytes {
    BuildRtaFrame(Mirror(ep, mac), ep.deviceMac, pdu, h) + padding
  }

  /** Padding may stand behind any control PDU, and behind an alarm whose BlockLength is right. */
  predicate MayBePadded(pdu: RtaPdu, padding: bytes) {
    padding == [] || pdu.kind % 0x10 != RTA_TYPE_DATA || WellSized(pdu.varPart)
  }

  function Channels(d: Duo): Listener {
    Listener(d.low.run.ch, d.high.run.ch)
  }

  function PdusOf(flights: seq<Flight>): (r: seq<RtaPdu>) {
    seq(|flights|, k requires 0 <= k < |flights| => flights[k].pdu)
  }

  /** The PDUs a pass sent on one priority. */
  function SentOn(sent: seq<(bool, RtaPdu)>, h: bool): seq<RtaPdu> {
    if sent == [] then []
    else SentOn(sent[..|sent| - 1], h) + if sent[|sent| - 1].0 == h then [sent[|sent| - 1].1] else []
  }

  lemma {:induction false} SentOnTagged(sent: seq<(bool, RtaPdu)>, from: bool, pdus: seq<RtaPdu>, h: bool)
    ensures SentOn(sent + Tagged(from, pdus), h) == SentOn(sent, h) + if from == h then pdus else []
  {
    hide Tagged;
    if pdus == [] {
      NothingTagged(from);
      assert sent + [] == sent && SentOn(sent, h) + [] == SentOn(sent, h);
    } else {
      var init, last := pdus[..|pdus| - 1], pdus[|pdus| - 1];
      SentOnTagged(sent, from, init, h);
      TaggedAppend(from, init, last);
      assert pdus == init + [last];
      assert sent + (Tagged(from, init) + [(from, last)]) == (sent + Tagged(from, init)) + [(from, last)];
      SentOnAppend(sent + Tagged(from, init), (from, last), h);
    }
  }

  lemma NothingTagged(from: bool)
    ensures Tagged(from, []) == []
  {}

  lemma TaggedAppend(from: bool, pdus: seq<RtaPdu>, pdu: RtaPdu)
    ensures Tagged(from, pdus + [pdu]) == Tagged(from, pdus) + [(from, pdu)]
  {}

  lemma SentOnAppend(sent: seq<(bool, RtaPdu)>, entry: (bool, RtaPdu), h: bool)
    ensures SentOn(sent + [entry], h) == SentOn(sent, h) + if entry.0 == h then [entry.1] else []
  {
    assert (sent + [entry])[..|sent|] == sent;
  }

  /** The outcome of the code so far stands where the system stands that started at `d0`. */
  predicate Matches(o: Outcome, d0: Duo, d: Duo) {
    && o.state == Channels(d)
    && PdusOf(d.low.toDevice) == PdusOf(d0.low.toDevice) + SentOn(o.sent, false)
    && PdusOf(d.high.toDevice) == PdusOf(d0.high.toDevice) + SentOn(o.sent, true)
  }

  predicate SameSetup(net: Net, ep: Endpoint) {
    net.cfg == Config(ep.rtaRetries, RetransmitAfter(ep))
  }

  lemma ServiceMatches(net: Net, ep: Endpoint, o: Outcome, d0: Duo, d: Duo, h: bool, now: int)
    requires SameSetup(net, ep) && Matches(o, d0, d) && Can(net, d, h, ControllerServices(now))
    ensures Matches(ServiceOne(o, ep, h, now), d0, Do(net, d, h, ControllerServices(now)))
    ensures ServiceOne(o, ep, h, now).delivered == o.delivered
  {
    hide Serviced, Apply, Enabled, Tagged, SentOn, PdusOf;
    var out := Serviced(d.Get(h).run.ch, net.cfg.retries, net.cfg.after, now).1;
    ServiceAppends(net, d.Get(h), now);
    SentOnTagged(o.sent, h, out, false);
    SentOnTagged(o.sent, h, out, true);
    Regroup(d0, o, d, out);
  }

  lemma ServiceAppends(net: Net, s: System, now: int)
    requires Enabled(net, s, ControllerServices(now))
    ensures var s', (ch, out) := Apply(net, s, ControllerServices(now)), Serviced(s.run.ch, net.cfg.retries, net.cfg.after, now);
            s'.run.ch == ch && PdusOf(s'.toDevice) == PdusOf(s.toDevice) + out
  {
    hide Serviced;
  }

  lemma Regroup(d0: Duo, o: Outcome, d: Duo, out: seq<RtaPdu>)
    requires Matches(o, d0, d)
    ensures PdusOf(d.low.toDevice) + out == PdusOf(d0.low.toDevice) + (SentOn(o.sent, false) + out)
    ensures PdusOf(d.high.toDevice) + out == PdusOf(d0.high.toDevice) + (SentOn(o.sent, true) + out)
    ensures SentOn(o.sent, false) + [] == SentOn(o.sent, false) && SentOn(o.sent, true) + [] == SentOn(o.sent, true)
  {}

  /** The frame the device sends is read as the PDU it carries. */
  lemma DeviceFrameAddressed(ep: Endpoint, mac: Mac, pdu: RtaPdu, h: bool, padding: bytes)
    ensures Addressed(ep, DeviceFrame(ep, mac, pdu, h, padding)) == Some((h, PduHeader(Mirror(ep, mac), pdu), pdu.varPart + padding))
  {
    hide BuildRtaFrame, CheckLayer2Frame, HeaderFromBytes;
    FrameRoundTrip(Mirror(ep, mac), ep.deviceMac, pdu, h, [], padding);
    var payload := PduHeader(Mirror(ep, mac), pdu).ToBytes() + pdu.varPart + padding;
    assert payload[RTA_HEADER_SIZE..] == pdu.varPart + padding;
  }

  /** What is delivered is what the PDU says, padded or not. */
  lemma PaddedAlarm(ch: Channel, ep: Endpoint, pdu: RtaPdu, padding: bytes)
    requires MayBePadded(pdu, padding)
    ensures Received(ch, PduHeader(ep, pdu)).1 == Accept ==> Parsed(pdu.varPart + padding) == Parsed(pdu.varPart)
  {
    hide Parsed;
    if padding == [] {
      assert pdu.varPart + padding == pdu.varPart;
    } else if WellSized(pdu.varPart) {
      PaddingDoesNotMatter(pdu.varPart, padding);
    }
  }

  lemma ReceivedIgnoresReferences(ch: Channel, a: Endpoint, b: Endpoint, pdu: RtaPdu)
    ensures Received(ch, PduHeader(a, pdu)) == Received(ch, PduHeader(b, pdu))
  {}

  lemma ReceiveAppendsAnswer(net: Net, s: System, again: bool)
    requires s.toController != []
    ensures var (ch, _, out) := Received(s.run.ch, PduHeader(net.ep, s.toController[0].pdu));
            var s' := Apply(net, s, ControllerReceives(again));
            s'.run.ch == ch && PdusOf(s'.toDevice) == PdusOf(s.toDevice) + out
  {
    hide Classify, PduHeader;
  }

  lemma AnswerMatches(net: Net, o: Outcome, d0: Duo, d: Duo, h: bool, again: bool)
    requires Matches(o, d0, d) && Can(net, d, h, ControllerReceives(again))
    ensures var (ch, _, out) := Received(d.Get(h).run.ch, PduHeader(net.ep, d.Get(h).toController[0].pdu));
            Matches(o.(state := o.state.Set(h, ch), sent := o.sent + Tagged(h, out)), d0, Do(net, d, h, ControllerReceives(again)))
  {
    hide Received, Apply, PduHeader, SentOn, Tagged;
    var (ch, _, out) := Received(d.Get(h).run.ch, PduHeader(net.ep, d.Get(h).toController[0].pdu));
    ReceiveAppendsAnswer(net, d.Get(h), again);
    SentOnTagged(o.sent, h, out, false);
    SentOnTagged(o.sent, h, out, true);
  }

  lemma MatchesIgnoresDelivered(o: Outcome, d0: Duo, d: Duo, a: seq<AlarmNotification>, b: seq<(bool, AlarmNotification)>)
    requires Matches(o, d0, d)
    ensures Matches(o.(delivered := a), d0, d.(delivered := b))
  {}

  lemma EnqueueMatches(net: Net, o: Outcome, d0: Duo, d: Duo, h: bool, payload: bytes)
    requires Matches(o, d0, d)
    ensures Matches(o.(state := o.state.Set(h, o.state.Get(h).(queued := o.state.Get(h).queued + [payload]))), d0,
                    Do(net, d, h, ControllerEnqueues(payload)))
  {
  }

  lemma HandleFrameMatches(
    net: Net, ep: Endpoint, mac: Mac, o: Outcome, d0: Duo, d: Duo, h: bool, again: bool, later: int, padding: bytes)
    requires d.Get(h).toController != [] && MayBePadded(d.Get(h).toController[0].pdu, padding)
    requires SameSetup(net, ep) && Matches(o, d0, d) && CanTake(net, d, h, again, later)
    ensures var o' := HandleFrame(o, ep, DeviceFrame(ep, mac, d.Get(h).toController[0].pdu, h, padding), later);
            && Matches(o', d0, Take(net, d, h, again, later))
            && o'.delivered == o.delivered + if AlarmIn(net, d, h).Some? then [AlarmIn(net, d, h).value] else []
  {
    hide Received, Addressed, DeviceFrame, MayBePadded, Parsed, AlarmAck, Matches, PduHeader, ServiceOne;
    var pdu := d.Get(h).toController[0].pdu;
    DeviceFrameAddressed(ep, mac, pdu, h, padding);
    PaddedAlarm(d.Get(h).run.ch, net.ep, pdu, padding);
    ReceivedIgnoresReferences(d.Get(h).run.ch, Mirror(ep, mac), net.ep, pdu);
    MatchesState(o, d0, d);
    AnswerMatches(net, o, d0, d, h, again);
    var (ch, action, out) := Received(d.Get(h).run.ch, PduHeader(net.ep, pdu));
    var o1 := o.(state := o.state.Set(h, ch), sent := o.sent + Tagged(h, out));
    var d1 := Do(net, d, h, ControllerReceives(again));
    if AlarmIn(net, d, h).Some? {
      var alarm := AlarmIn(net, d, h).value;
      DeliverMatches(net, ep, o1, d0, d1, alarm, pdu.varPart + padding, later, d.delivered + [(h, alarm)]);
    } else {
      assert Take(net, d, h, again, later) == d1;
    }
  }

  lemma DeliverMatches(
    net: Net, ep: Endpoint, o: Outcome, d0: Duo, d: Duo, alarm: AlarmNotification, alarmData: bytes, later: int,
    delivered: seq<(bool, AlarmNotification)>)
    requires SameSetup(net, ep) && Matches(o, d0, d) && Parsed(alarmData) == Ok(alarm)
    requires Can(net, Do(net, d, alarm.IsHighPriority(), ControllerEnqueues(AlarmAck(alarm))), alarm.IsHighPriority(), ControllerServices(later))
    ensures var ackHigh := alarm.IsHighPriority();
            var d1 := Do(net, d, ackHigh, ControllerEnqueues(AlarmAck(alarm)));
            && Matches(Deliver(o, ep, alarmData, later), d0, Do(net, d1, ackHigh, ControllerServices(later)).(delivered := delivered))
            && Deliver(o, ep, alarmData, later).delivered == o.delivered + [alarm]
  {
    hide Matches, Apply, AlarmAck, Parsed, ServiceOne;
    var ackHigh := alarm.IsHighPriority();
    EnqueueMatches(net, o, d0, d, ackHigh, AlarmAck(alarm));
    var o2 := o.(state := o.state.Set(ackHigh, o.state.Get(ackHigh).(queued := o.state.Get(ackHigh).queued + [AlarmAck(alarm)])));
    var d1 := Do(net, d, ackHigh, ControllerEnqueues(AlarmAck(alarm)));
    ServiceMatches(net, ep, o2, d0, d1, ackHigh, later);
    var o3 := ServiceOne(o2, ep, ackHigh, later);
    MatchesIgnoresDelivered(o3, d0, Do(net, d1, ackHigh, ControllerServices(later)), o3.delivered + [alarm], delivered);
  }

  lemma MatchesState(o: Outcome, d0: Duo, d: Duo)
    requires Matches(o, d0, d)
    ensures o.state == Channels(d)
  {}

  lemma TakeDelivers(net: Net, d: Duo, h: bool, again: bool, later: int)
    requires CanTake(net, d, h, again, later)
    ensures Take(net, d, h, again, later).delivered
            == if AlarmIn(net, d, h).Some? then d.delivered + [(h, AlarmIn(net, d, h).value)] else d.delivered
  {
    hide Apply, AlarmIn, AlarmAck;
  }

  /** The notifications of a pass with the priority of the wire they came in on. */
  function Heard(from: Option<(bool, bool)>, alarms: seq<AlarmNotification>): seq<(bool, AlarmNotification)> {
    if from.None? then [] else seq(|alarms|, k requires 0 <= k < |alarms| => (from.value.0, alarms[k]))
  }

  /** The PDU a pass receives. */
  function Incoming(net: Net, d: Duo, a: DuoAction): RtaPdu
    requires a.ListenerPass? && a.from.Some? && DuoEnabled(net, d, a)
  {
    ServiceBoth(net, d, a.now).Get(a.from.value.0).toController[0].pdu
  }

  /** A pass of the code that receives the device's frame, with any padding the Ethernet put behind it, or
      nothing, leaves the channels in the states of the system step, puts the same PDUs on the same wires
      in the same order, and calls the callbacks for the notifications the step appends. */
  lemma PassIsSystemStep(net: Net, ep: Endpoint, mac: Mac, d: Duo, a: DuoAction, padding: bytes)
    requires SameSetup(net, ep) && DuoEnabled(net, d, a) && a.ListenerPass?
    requires a.from.Some? ==> MayBePadded(Incoming(net, d, a), padding)
    ensures var received := if a.from.None? then None else Some(DeviceFrame(ep, mac, Incoming(net, d, a), a.from.value.0, padding));
            && Matches(Pass(Channels(d), ep, a.now, received, a.later), d, DuoApply(net, d, a))
            && DuoApply(net, d, a).delivered == d.delivered + Heard(a.from, Pass(Channels(d), ep, a.now, received, a.later).delivered)
  {
    hide Apply, Enabled, Take, CanTake, HandleFrame, ServiceOne, DeviceFrame, MayBePadded, Matches, AlarmIn;
    var o := Outcome(Channels(d), [], []);
    NothingDone(d);
    ServiceMatches(net, ep, o, d, d, false, a.now);
    ServiceMatches(net, ep, ServiceOne(o, ep, false, a.now), d, Do(net, d, false, ControllerServices(a.now)), true, a.now);
    assert d.delivered + [] == d.delivered;
    if a.from.Some? {
      var (h, again) := a.from.value;
      TakeIsReceive(net, ServiceBoth(net, d, a.now), h, again, a.later);
      TakeDelivers(net, ServiceBoth(net, d, a.now), h, again, a.later);
      HandleFrameMatches(net, ep, mac, ServiceOne(ServiceOne(o, ep, false, a.now), ep, true, a.now), d,
                         ServiceBoth(net, d, a.now), h, again, a.later, padding);
    }
  }

  lemma NothingDone(d: Duo)
    ensures Matches(Outcome(Channels(d), [], []), d, d)
  {
    assert PdusOf(d.low.toDevice) + [] == PdusOf(d.low.toDevice) && PdusOf(d.high.toDevice) + [] == PdusOf(d.high.toDevice);
  }

  lemma TakeIsReceive(net: Net, d: Duo, h: bool, again: bool, later: int)
    requires CanTake(net, d, h, again, later)
    ensures d.Get(h).toController != []
  {}

  lemma ServiceKeepsCounters(o: Outcome, ep: Endpoint, high: bool, now: int, h: bool)
    ensures ServiceOne(o, ep, high, now).state.Get(h).counters == o.state.Get(h).counters
  {
    hide Tagged;
  }

  lemma DeliverKeepsCounters(o: Outcome, ep: Endpoint, alarmData: bytes, later: int, h: bool)
    ensures Deliver(o, ep, alarmData, later).state.Get(h).counters == o.state.Get(h).counters
  {
    hide ServiceOne, Parsed, AlarmAck;
    if Parsed(alarmData).Ok? {
      var alarm := Parsed(alarmData).value;
      var ackHigh := alarm.IsHighPriority();
      var ch := o.state.Get(ackHigh);
      ServiceKeepsCounters(o.(state := o.state.Set(ackHigh, ch.(queued := ch.queued + [AlarmAck(alarm)]))), ep, ackHigh, later, h);
    }
  }

  /** Whatever bytes arrive, a pass moves the sequence counters of one priority at most: the one the
      frame ID names. The other keeps its own, even when its queue receives the AlarmAck. */
  lemma PrioritiesKeepTheirCounters(l: Listener, ep: Endpoint, now: int, received: Option<bytes>, later: int, h: bool)
    requires received.Some? && Addressed(ep, received.value).Some? ==> Addressed(ep, received.value).value.0 != h
    ensures Pass(l, ep, now, received, later).state.Get(h).counters == l.Get(h).counters
  {
    hide Parsed, AlarmAck, Addressed, Received, ServiceOne;
    var o := Outcome(l, [], []);
    var o2 := ServiceOne(ServiceOne(o, ep, false, now), ep, true, now);
    ServiceKeepsCounters(o, ep, false, now, h);
    ServiceKeepsCounters(ServiceOne(o, ep, false, now), ep, true, now, h);
    if received.Some? && Addressed(ep, received.value).Some? {
      var (high, header, alarmData) := Addressed(ep, received.value).value;
      var (ch, action, out) := Received(o2.state.Get(high), header);
      DeliverKeepsCounters(o2.(state := o2.state.Set(high, ch), sent := o2.sent + Tagged(high, out)), ep, alarmData, later, h);
    }
  }
}
