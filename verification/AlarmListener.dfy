/** The background listener: one loop pass over both priorities, from received bytes to sent bytes
    (src/alarm_listener.rs). */
module AlarmListeners {
  import opened Bytes
  import opened Wrappers
  import opened Ethernet
  import opened Rta
  import opened AlarmChannels
  import opened Alarms

  datatype Listener = Listener(low: Channel, high: Channel) {
    function Get(h: bool): Channel { if h then high else low }
    function Set(h: bool, ch: Channel): Listener { if h then this.(high := ch) else this.(low := ch) }
  }

  /** What a pass does besides changing the channels: PDUs sent, each with its priority, and
      notifications handed to the callbacks. */
  datatype Outcome = Outcome(state: Listener, sent: seq<(bool, RtaPdu)>, delivered: seq<AlarmNotification>)

  function Tagged(high: bool, pdus: seq<RtaPdu>): (r: seq<(bool, RtaPdu)>) {
    seq(|pdus|, k requires 0 <= k < |pdus| => (high, pdus[k]))
  }

  /** `100 ms` times the timeout factor, which counts as one when it is zero. */
  function RetransmitAfter(ep: Endpoint): nat {
    100 * Max(ep.rtaTimeoutFactor, 1)
  }

  function ServiceOne(o: Outcome, ep: Endpoint, high: bool, now: int): Outcome {
    var (ch, out) := Serviced(o.state.Get(high), ep.rtaRetries, RetransmitAfter(ep), now);
    o.(state := o.state.Set(high, ch), sent := o.sent + Tagged(high, out))
  }

  /** The priority, header and alarm bytes of a frame meant for this controller. */
  function Addressed(ep: Endpoint, frame: bytes): (r: Option<(bool, RtaHeader, bytes)>) {
    match CheckLayer2Frame(frame, ep.deviceMac)
    case None => None
    case Some((high, payload)) =>
      match HeaderFromBytes(payload)
      case Err => None
      case Ok(h) => if h.alarmDstEndpoint != ep.controllerRef then None else Some((high, h, payload[RTA_HEADER_SIZE..]))
  }

  /** Deliver an accepted alarm: queue its AlarmAck on the channel its block type names. */
  function Deliver(o: Outcome, ep: Endpoint, alarmData: bytes, later: int): Outcome {
    match Parsed(alarmData)
    case Err => o
    case Ok(alarm) =>
      var ackHigh := alarm.IsHighPriority();
      var ch := o.state.Get(ackHigh);
      var queued := o.(state := o.state.Set(ackHigh, ch.(queued := ch.queued + [AlarmAck(alarm)])));
      var serviced := ServiceOne(queued, ep, ackHigh, later);
      serviced.(delivered := serviced.delivered + [alarm])
  }

  function HandleFrame(o: Outcome, ep: Endpoint, frame: bytes, later: int): Outcome {
    match Addressed(ep, frame)
    case None => o
    case Some((high, h, alarmData)) =>
      var (ch, action, out) := Received(o.state.Get(high), h);
      var o' := o.(state := o.state.Set(high, ch), sent := o.sent + Tagged(high, out));
      if action == Accept then Deliver(o', ep, alarmData, later) else o'
  }

  /** One pass: service both channels at `now`, then handle what was received, if anything. */
  function Pass(l: Listener, ep: Endpoint, now: int, received: Option<bytes>, later: int): Outcome {
    var serviced := ServiceOne(ServiceOne(Outcome(l, [], []), ep, false, now), ep, true, now);
    match received
    case None => serviced
    case Some(frame) => HandleFrame(serviced, ep, frame, later)
  }

  function SentFrames(ep: Endpoint, mac: Mac, sent: seq<(bool, RtaPdu)>): (r: seq<bytes>) {
    seq(|sent|, k requires 0 <= k < |sent| => BuildRtaFrame(ep, mac, sent[k].1, sent[k].0))
  }

  lemma SentFramesAppend(ep: Endpoint, mac: Mac, a: seq<(bool, RtaPdu)>, high: bool, pdus: seq<RtaPdu>)
    ensures SentFrames(ep, mac, a + Tagged(high, pdus)) == SentFrames(ep, mac, a) + Frames(ep, mac, high, pdus)
  {}

  /** A priority that just sent an AlarmAck is left alone for 100 ms times the endpoint's timeout factor, or
      100 ms if that is zero, and not any longer. */
  lemma QuietByTheFactor(o: Outcome, ep: Endpoint, high: bool, t0: int, t1: int)
    requires |ServiceOne(o, ep, high, t0).sent| > |o.sent|
    ensures var o' := ServiceOne(o, ep, high, t0);
            ServiceOne(o', ep, high, t1) == o' <==> t1 < t0 + (if ep.rtaTimeoutFactor == 0 then 100 else 100 * ep.rtaTimeoutFactor)
  {
    hide Serviced;
    var o' := ServiceOne(o, ep, high, t0);
    QuietForTheInterval(o.state.Get(high), ep.rtaRetries, RetransmitAfter(ep), t0, t1);
    var (ch, out) := Serviced(o'.state.Get(high), ep.rtaRetries, RetransmitAfter(ep), t1);
    assert |ServiceOne(o', ep, high, t1).sent| == |o'.sent| + |out|;
    assert ServiceOne(o', ep, high, t1).state.Get(high) == ch;
    assert out == [] ==> o'.sent + Tagged(high, out) == o'.sent;
  }

  class AlarmListener {
    const endpoint: Endpoint
    const controllerMac: Mac
    const low: AlarmChannel
    const high: AlarmChannel
    const sock: RawSocket
    var delivered: seq<AlarmNotification>

    constructor (ep: Endpoint, mac: Mac)
      ensures Valid() && fresh(low) && fresh(low.seqr) && fresh(high) && fresh(high.seqr) && fresh(sock)
      ensures endpoint == ep && controllerMac == mac
      ensures View() == Listener(NEW_CHANNEL, NEW_CHANNEL) && delivered == [] && sock.sent == []
    {
      endpoint, controllerMac := ep, mac;
      low := new AlarmChannel(false);
      high := new AlarmChannel(true);
      sock := new RawSocket();
      delivered := [];
    }

    ghost predicate Valid()
      reads this, low, high
    {
      && low != high && low.seqr != high.seqr
      && !low.highPriority && high.highPriority
      && low.Valid(endpoint, controllerMac) && high.Valid(endpoint, controllerMac)
    }

    ghost function View(): Listener
      reads this, low, high, low.seqr, high.seqr
    {
      Listener(low.View(), high.View())
    }

    /** A wait that runs past no retransmission deadline, save that it is never under a millisecond. */
    predicate Punctual(now: int, wait: nat)
      reads low, high
    {
      && 1 <= wait <= 1000
      && (low.pending.Some? ==> wait <= Max(1, low.pending.value.1 - now))
      && (high.pending.Some? ==> wait <= Max(1, high.pending.value.1 - now))
    }

    /** How long to wait for the next frame: the longest punctual wait. */
    method ReceiveTimeout(now: int) returns (wait: nat)
      ensures Punctual(now, wait)
      ensures forall longer: nat :: Punctual(now, longer) ==> longer <= wait
    {
      wait := 1000;
      var due := low.NextDue();
      if due.Some? {
        wait := Min(wait, Max(0, due.value - now));
      }
      due := high.NextDue();
      if due.Some? {
        wait := Min(wait, Max(0, due.value - now));
      }
      wait := Max(wait, 1);
    }

    method Service(channel: AlarmChannel, now: int, ghost o: Outcome, ghost before: seq<bytes>) returns (ghost o': Outcome)
      requires Valid() && (channel == low || channel == high)
      requires View() == o.state && sock.sent == before + SentFrames(endpoint, controllerMac, o.sent)
      modifies channel, sock
      ensures Valid() && View() == o'.state && o' == ServiceOne(o, endpoint, channel.highPriority, now)
      ensures sock.sent == before + SentFrames(endpoint, controllerMac, o'.sent)
    {
      hide Serviced, BuildRtaFrame, SentFrames, RetransmitAfter;
      channel.Service(sock, endpoint, controllerMac, RetransmitAfter(endpoint), now);
      o' := ServiceOne(o, endpoint, channel.highPriority, now);
      SentFramesAppend(endpoint, controllerMac, o.sent, channel.highPriority,
                       Serviced(o.state.Get(channel.highPriority), endpoint.rtaRetries, RetransmitAfter(endpoint), now).1);
    }

    /** One pass of the receive loop. */
    method RunPass(now: int, received: Option<bytes>, later: int)
      requires Valid()
      modifies this, low, high, low.seqr, high.seqr, sock
      ensures Valid()
      ensures View() == Pass(old(View()), endpoint, now, received, later).state
      ensures sock.sent == old(sock.sent)
                           + SentFrames(endpoint, controllerMac, Pass(old(View()), endpoint, now, received, later).sent)
      ensures delivered == old(delivered) + Pass(old(View()), endpoint, now, received, later).delivered
    {
      ghost var before := sock.sent;
      ghost var o := Outcome(View(), [], []);
      o := Service(low, now, o, before);
      o := Service(high, now, o, before);
      if received.None? {
        return;
      }
      var checked := CheckLayer2Frame(received.value, endpoint.deviceMac);
      if checked.None? {
        return;
      }
      var (isHigh, payload) := checked.value;
      var rta := HeaderFromBytes(payload);
      if rta.Err? || rta.value.alarmDstEndpoint != endpoint.controllerRef {
        return;
      }
      HandlePdu(isHigh, rta.value, payload[RTA_HEADER_SIZE..], later, o, before);
    }

    method HandlePdu(isHigh: bool, rta: RtaHeader, alarmData: bytes, later: int, ghost o: Outcome, ghost before: seq<bytes>)
      requires Valid() && o.delivered == []
      requires View() == o.state && sock.sent == before + SentFrames(endpoint, controllerMac, o.sent)
      modifies this, low, high, low.seqr, high.seqr, sock
      ensures Valid()
      ensures var (ch, action, out) := Received(o.state.Get(isHigh), rta);
              var o' := o.(state := o.state.Set(isHigh, ch), sent := o.sent + Tagged(isHigh, out));
              var end := if action == Accept then Deliver(o', endpoint, alarmData, later) else o';
              && View() == end.state
              && sock.sent == before + SentFrames(endpoint, controllerMac, end.sent)
              && delivered == old(delivered) + end.delivered
    {
      hide Deliver;
      ghost var o';
      var action;
      action, o' := Answer(isHigh, rta, o, before);
      if action == Accept {
        DeliverAlarm(alarmData, later, o', before);
      }
    }

    /** Classify a PDU and acknowledge or refuse it before anything else. */
    method Answer(isHigh: bool, rta: RtaHeader, ghost o: Outcome, ghost before: seq<bytes>)
      returns (action: RtaAction, ghost o': Outcome)
      requires Valid()
      requires View() == o.state && sock.sent == before + SentFrames(endpoint, controllerMac, o.sent)
      modifies low, high, low.seqr, high.seqr, sock
      ensures Valid() && View() == o'.state && sock.sent == before + SentFrames(endpoint, controllerMac, o'.sent)
      ensures var (ch, act, out) := Received(o.state.Get(isHigh), rta);
              action == act && o' == o.(state := o.state.Set(isHigh, ch), sent := o.sent + Tagged(isHigh, out))
    {
      hide BuildRtaFrame;
      var channel := if isHigh then high else low;
      action := channel.seqr.OnPdu(rta);
      if action == OurDataAcked {
        channel.pending := None;
      }
      var counters := channel.seqr.Counters();
      var (sendSeq, ackSeq) := counters.AckSeqPair();
      if action == SendNack {
        sock.Send(BuildRtaFrame(endpoint, controllerMac, ControlPdu(RTA_TYPE_NACK, sendSeq, ackSeq), isHigh));
      } else if action == ReAck || action == Accept {
        sock.Send(BuildRtaFrame(endpoint, controllerMac, ControlPdu(RTA_TYPE_ACK, sendSeq, ackSeq), isHigh));
      }
      ghost var (ch, _, out) := Received(o.state.Get(isHigh), rta);
      SentFramesAppend(endpoint, controllerMac, o.sent, isHigh, out);
      o' := o.(state := o.state.Set(isHigh, ch), sent := o.sent + Tagged(isHigh, out));
    }

    /** Queue the AlarmAck of an accepted alarm behind any unacknowledged one and run the callbacks. */
    method DeliverAlarm(alarmData: bytes, later: int, ghost o: Outcome, ghost before: seq<bytes>)
      requires Valid() && o.delivered == []
      requires View() == o.state && sock.sent == before + SentFrames(endpoint, controllerMac, o.sent)
      modifies this, low, high, sock
      ensures Valid()
      ensures var end := Deliver(o, endpoint, alarmData, later);
              && View() == end.state
              && sock.sent == before + SentFrames(endpoint, controllerMac, end.sent)
              && delivered == old(delivered) + end.delivered
    {
      hide BuildRtaFrame, AlarmAck, Parsed;
      var parsed := ParseAlarmNotification(alarmData);
      if parsed.Err? {
        return;
      }
      var alarm := parsed.value;
      var ackChannel := if alarm.IsHighPriority() then high else low;
      ackChannel.queued := ackChannel.queued + [AlarmAck(alarm)];
      ghost var queued := o.(state := o.state.Set(alarm.IsHighPriority(), ackChannel.View()));
      ghost var _ := Service(ackChannel, later, queued, before);
      delivered := delivered + [alarm];
    }
  }
}
