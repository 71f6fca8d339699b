/** One alarm priority of the controller: the pending AlarmAck with its retry budget, the queue
    behind it, and what the listener does with each PDU (src/alarm_listener.rs). */
module AlarmChannels {
  import opened Bytes
  import opened Wrappers
  import opened Ethernet
  import opened Rta

  /** The raw socket; a failed send is a frame the network lost. */
  class RawSocket {
    var sent: seq<bytes>

    constructor ()
      ensures sent == []
    {
      sent := [];
    }

    method Send(frame: bytes)
      modifies this
      ensures sent == old(sent) + [frame]
    {
      sent := sent + [frame];
    }
  }

  /** An AlarmAck awaiting its transport ACK. */
  datatype Pending = Pending(pdu: RtaPdu, due: int, retriesLeft: nat)

  datatype Channel = Channel(counters: SeqCounters, pending: Option<Pending>, queued: seq<bytes>)

  const NEW_CHANNEL := Channel(INITIAL_COUNTERS, None, [])

  /** Whether servicing at `now` sends the pending frame once more. */
  predicate Retransmits(ch: Channel, now: int) {
    ch.pending.Some? && now >= ch.pending.value.due && ch.pending.value.retriesLeft > 0
  }

  /** Whether servicing at `now` abandons the pending frame. */
  predicate GivesUp(ch: Channel, now: int) {
    ch.pending.Some? && now >= ch.pending.value.due && ch.pending.value.retriesLeft == 0
  }

  function SendNext(ch: Channel, retries: nat, after: nat, now: int): (Channel, seq<RtaPdu>)
    requires ch.pending.None?
  {
    if ch.queued == [] then (ch, [])
    else
      var pdu := DataPdu(ch.counters.DataSeqPair().0, ch.counters.DataSeqPair().1, ch.queued[0]);
      (ch.(pending := Some(Pending(pdu, now + after, retries)), queued := ch.queued[1..]), [pdu])
  }

  /** Retransmit, give up, or send the next payload; the PDUs sent. */
  function Serviced(ch: Channel, retries: nat, after: nat, now: int): (Channel, seq<RtaPdu>) {
    if Retransmits(ch, now) then
      var p := ch.pending.value;
      (ch.(pending := Some(Pending(p.pdu, now + after, p.retriesLeft - 1))), [p.pdu])
    else if GivesUp(ch, now) then SendNext(ch.(pending := None), retries, after, now)
    else if ch.pending.Some? then (ch, [])
    else SendNext(ch, retries, after, now)
  }

  /** What the listener does on the channel a PDU arrived on: the new state, the classification,
      and the transport ACK or NACK it answers with. */
  function Received(ch: Channel, h: RtaHeader): (Channel, RtaAction, seq<RtaPdu>) {
    var (counters, action) := Classify(ch.counters, h);
    var ch' := ch.(counters := counters, pending := if action == OurDataAcked then None else ch.pending);
    var (sendSeq, ackSeq) := counters.AckSeqPair();
    (ch', action,
     if action == SendNack then [ControlPdu(RTA_TYPE_NACK, sendSeq, ackSeq)]
     else if action == ReAck || action == Accept then [ControlPdu(RTA_TYPE_ACK, sendSeq, ackSeq)]
     else [])
  }

  function Frames(ep: Endpoint, controllerMac: Mac, high: bool, pdus: seq<RtaPdu>): (r: seq<bytes>) {
    seq(|pdus|, k requires 0 <= k < |pdus| => BuildRtaFrame(ep, controllerMac, pdus[k], high))
  }

  class AlarmChannel {
    const seqr: RtaSequencer
    const highPriority: bool
    // The frame as sent, when to retransmit it, retransmissions left.
    var pending: Option<(bytes, int, nat)>
    var queued: seq<bytes>
    ghost var pendingPdu: RtaPdu

    constructor (high: bool)
      ensures fresh(this) && fresh(seqr) && highPriority == high
      ensures View() == NEW_CHANNEL
      ensures forall ep, mac :: Valid(ep, mac)
    {
      seqr := new RtaSequencer();
      highPriority := high;
      pending := None;
      queued := [];
    }

    /** The pending frame is the encoding of the pending PDU. */
    ghost predicate Valid(ep: Endpoint, controllerMac: Mac)
      reads this
    {
      pending.Some? ==> pending.value.0 == BuildRtaFrame(ep, controllerMac, pendingPdu, highPriority)
    }

    ghost function View(): Channel
      reads this, seqr
    {
      Channel(
        seqr.Counters(),
        if pending.None? then None else Some(Pending(pendingPdu, pending.value.1, pending.value.2)),
        queued)
    }

    method Service(sock: RawSocket, ep: Endpoint, controllerMac: Mac, retransmitAfter: nat, now: int)
      requires Valid(ep, controllerMac)
      modifies this, sock
      ensures Valid(ep, controllerMac)
      ensures View() == Serviced(old(View()), ep.rtaRetries, retransmitAfter, now).0
      ensures sock.sent == old(sock.sent)
                           + Frames(ep, controllerMac, highPriority, Serviced(old(View()), ep.rtaRetries, retransmitAfter, now).1)
    {
      if pending.Some? {
        var (frame, due, retriesLeft) := pending.value;
        if now >= due {
          if retriesLeft > 0 {
            sock.Send(frame);
            pending := Some((frame, now + retransmitAfter, retriesLeft - 1));
          } else {
            pending := None;
          }
        }
      }
      if pending.Some? {
        return;
      }
      if queued == [] {
        return;
      }
      var ackData := queued[0];
      queued := queued[1..];
      var counters := seqr.Counters();
      var (sendSeq, ackSeq) := counters.DataSeqPair();
      pendingPdu := DataPdu(sendSeq, ackSeq, ackData);
      var frame := BuildRtaFrame(ep, controllerMac, DataPdu(sendSeq, ackSeq, ackData), highPriority);
      sock.Send(frame);
      pending := Some((frame, now + retransmitAfter, ep.rtaRetries));
    }

    /** When the next deadline falls due, so that the receive timeout never runs past it. */
    function NextDue(): (r: Option<int>)
      reads this
    {
      if pending.None? then None else Some(pending.value.1)
    }
  }

  // -------------------------------------------------------------------------
  // Runs of one channel under arbitrary input
  // -------------------------------------------------------------------------

  /** A service pass, a PDU from the network, or a payload handed over for sending. */
  datatype Event = Service(now: int) | Pdu(header: RtaHeader) | Enqueue(payload: bytes)

  datatype Config = Config(retries: nat, after: nat)

  /** The channel with the history of its run: how often the send side advanced, how many DATA
      PDUs were accepted, every payload enqueued, every transmission grouped by payload, the
      indices the newest DATA PDU was built at, and whether a PDU was sent at all. */
  datatype ChannelRun = ChannelRun(
    ch: Channel, sent: nat, accepted: nat, enqueued: seq<bytes>, tx: seq<seq<RtaPdu>>,
    builtSend: int, builtAck: int)

  const NEW_RUN := ChannelRun(NEW_CHANNEL, 0, 0, [], [], -1, -1)

  /** One event; the PDUs it puts on the wire. */
  function Step(cfg: Config, r: ChannelRun, e: Event): (ChannelRun, seq<RtaPdu>) {
    match e
    case Enqueue(payload) =>
      (r.(ch := r.ch.(queued := r.ch.queued + [payload]), enqueued := r.enqueued + [payload]), [])
    case Pdu(h) =>
      var (ch, action, out) := Received(r.ch, h);
      (r.(ch := ch,
          sent := if ch.counters.sendSeqNum == r.ch.counters.sendSeqNum then r.sent else r.sent + 1,
          accepted := if action == Accept then r.accepted + 1 else r.accepted), out)
    case Service(now) =>
      var (ch, out) := Serviced(r.ch, cfg.retries, cfg.after, now);
      if out == [] then (r.(ch := ch), out)
      else if Retransmits(r.ch, now) && r.tx != [] then
        (r.(ch := ch, tx := r.tx[..|r.tx| - 1] + [r.tx[|r.tx| - 1] + out]), out)
      else
        (r.(ch := ch, tx := r.tx + [out], builtSend := r.sent, builtAck := r.accepted - 1), out)
  }

  predicate ChannelInv(cfg: Config, r: ChannelRun) {
    && CountersAt(r.ch.counters, r.sent, r.accepted)
    && |r.tx| <= |r.enqueued|
    && r.ch.queued == r.enqueued[|r.tx|..]
    && (forall q :: 0 <= q < |r.tx| ==> TransmissionsOf(r.tx[q], r.enqueued[q], cfg.retries))
    && -1 <= r.builtSend <= r.sent
    && -1 <= r.builtAck < r.accepted
    && (r.builtSend >= 0 <==> r.tx != [])
    && (r.tx != [] ==> NewestPdu(r) == DataPdu(SeqNum(r.builtSend), SeqNum(r.builtAck), r.enqueued[|r.tx| - 1]))
    && (r.ch.pending.Some? ==>
          && r.tx != []
          && r.ch.pending.value.pdu == NewestPdu(r)
          && |r.tx[|r.tx| - 1]| + r.ch.pending.value.retriesLeft == 1 + cfg.retries)
  }

  /** The transmissions of one payload: at least one, at most `1 + retries`, all the same PDU,
      which carries the payload. */
  predicate TransmissionsOf(pdus: seq<RtaPdu>, payload: bytes, retries: nat) {
    && 1 <= |pdus| <= 1 + retries
    && pdus[0].varPart == payload && pdus[0].kind == 1 && pdus[0].addFlags == 0x11
    && forall k :: 0 <= k < |pdus| ==> pdus[k] == pdus[0]
  }

  function NewestPdu(r: ChannelRun): RtaPdu
    requires r.tx != [] && r.tx[|r.tx| - 1] != []
  {
    r.tx[|r.tx| - 1][0]
  }

  /** Sending the pending PDU once more. */
  lemma RetransmittingKeepsInv(cfg: Config, r: ChannelRun, now: int)
    requires ChannelInv(cfg, r) && Retransmits(r.ch, now)
    ensures ChannelInv(cfg, Step(cfg, r, Service(now)).0)
  {
    var r' := Step(cfg, r, Service(now)).0;
    var n := |r.tx| - 1;
    assert r'.tx[n] == r.tx[n] + [r.tx[n][0]];
    assert forall q :: 0 <= q < n ==> r'.tx[q] == r.tx[q];
  }

  /** Giving up, sending the next payload, or doing nothing. */
  lemma MovingOnKeepsInv(cfg: Config, r: ChannelRun, now: int)
    requires ChannelInv(cfg, r) && !Retransmits(r.ch, now)
    ensures ChannelInv(cfg, Step(cfg, r, Service(now)).0)
  {
    var (r', out) := Step(cfg, r, Service(now));
    if out != [] {
      var n := |r.tx|;
      assert r.ch.queued[0] == r.enqueued[n];
      assert r.ch.queued[1..] == r.enqueued[n + 1..];
      assert r'.tx[n] == out;
      assert forall q :: 0 <= q < n ==> r'.tx[q] == r.tx[q];
    }
  }

  /** Every event, whatever the network sends, keeps the invariant. */
  lemma StepKeepsInv(cfg: Config, r: ChannelRun, e: Event)
    requires ChannelInv(cfg, r)
    ensures ChannelInv(cfg, Step(cfg, r, e).0)
  {
    hide Serviced, TransmissionsOf;
    match e
    case Enqueue(payload) =>
      var r' := Step(cfg, r, e).0;
      assert r'.ch.queued == r'.enqueued[|r'.tx|..];
      assert forall q :: 0 <= q < |r.tx| ==> r'.enqueued[q] == r.enqueued[q];
    case Pdu(h) =>
      ClassifyMovesIndices(r.ch.counters, r.sent, r.accepted, h);
    case Service(now) =>
      if Retransmits(r.ch, now) {
        RetransmittingKeepsInv(cfg, r, now);
      } else {
        MovingOnKeepsInv(cfg, r, now);
      }
  }

  /** A service pass sends nothing, or the newest PDU again, or one new PDU with the current numbers. */
  predicate ServiceOutcome(r: ChannelRun, r': ChannelRun, out: seq<RtaPdu>, again: bool) {
    && r'.sent == r.sent && r'.accepted == r.accepted && r'.enqueued == r.enqueued
    && |r.tx| <= |r'.tx| <= |r'.enqueued|
    && (if out == [] || again then |r'.tx| == |r.tx| && r'.builtSend == r.builtSend && r'.builtAck == r.builtAck
        else |r'.tx| == |r.tx| + 1 && r'.builtSend == r.sent && r'.builtAck == r.accepted - 1)
    && r'.builtAck >= -1
    && (out != [] ==>
          && |r'.tx| > 0 && r'.builtSend >= 0
          && out == [DataPdu(SeqNum(r'.builtSend), SeqNum(r'.builtAck), r'.enqueued[|r'.tx| - 1])])
  }

  lemma ServiceSendsNewest(cfg: Config, r: ChannelRun, now: int)
    requires ChannelInv(cfg, r)
    ensures var (r', out) := Step(cfg, r, Service(now));
            ServiceOutcome(r, r', out, Retransmits(r.ch, now))
  {
    StepKeepsInv(cfg, r, Service(now));
  }

  /** The newest PDU was built at indices of the past. */
  lemma BuiltBefore(cfg: Config, r: ChannelRun)
    requires ChannelInv(cfg, r)
    ensures -1 <= r.builtSend <= r.sent && -1 <= r.builtAck < r.accepted
  {}

  /** With no retries allowed a pending PDU is never sent again. */
  lemma NoRetriesNoRetransmission(cfg: Config, r: ChannelRun, now: int)
    requires ChannelInv(cfg, r)
    ensures Retransmits(r.ch, now) ==> cfg.retries > 0
  {}

  /** What a PDU of the device does, in the unwrapped indices. An ACK of the newest DATA PDU drops the pending
      frame, and nothing else does. A DATA PDU that asks for it is answered: with an ACK of the last number
      accepted if it is the next in sequence or the last one again, with a NACK otherwise. Every answer
      repeats the previous send number, and whatever is no such PDU gets none. */
  lemma PduDecides(cfg: Config, r: ChannelRun, h: RtaHeader)
    requires ChannelInv(cfg, r)
    ensures var (r', out) := Step(cfg, r, Pdu(h));
            var ours := h.pduType / 16 == 1 && h.pduType % 16 == 3 && h.ackSeqNum == SeqNum(r.sent);
            var data := h.pduType / 16 == 1 && h.pduType % 16 == 1 && h.addFlags / 16 % 2 == 1;
            var again, next := h.sendSeqNum == SeqNum(r.accepted - 1), h.sendSeqNum == SeqNum(r.accepted);
            && r'.ch.pending == (if ours then None else r.ch.pending) && r'.ch.queued == r.ch.queued
            && r'.accepted == r.accepted + (if data && next then 1 else 0)
            && r'.sent == r.sent + (if ours || (data && next && h.ackSeqNum == SeqNum(r.sent)) then 1 else 0)
            && out == if !data then []
                      else [RtaPdu(if again || next then 3 else 2, 0x01, SeqNum(r'.sent - 1), SeqNum(r'.accepted - 1), [])]
  {
    ClassifyMovesIndices(r.ch.counters, r.sent, r.accepted, h);
    NumberIdentifiesIndex(r.accepted - 1, r.accepted);
    NumberIdentifiesIndex(r.sent, r.sent + 1);
  }

  /** The run after a list of events. */
  function RunOf(cfg: Config, es: seq<Event>): ChannelRun {
    if es == [] then NEW_RUN else Step(cfg, RunOf(cfg, es[..|es| - 1]), es[|es| - 1]).0
  }

  /** Everything a list of events put on the wire, in order. */
  function WireOf(cfg: Config, es: seq<Event>): seq<RtaPdu> {
    if es == [] then [] else WireOf(cfg, es[..|es| - 1]) + Step(cfg, RunOf(cfg, es[..|es| - 1]), es[|es| - 1]).1
  }

  function Flatten(tx: seq<seq<RtaPdu>>): seq<RtaPdu> {
    if tx == [] then [] else Flatten(tx[..|tx| - 1]) + tx[|tx| - 1]
  }

  function DataOf(pdus: seq<RtaPdu>): seq<RtaPdu> {
    if pdus == [] then []
    else DataOf(pdus[..|pdus| - 1]) + if pdus[|pdus| - 1].kind == RTA_TYPE_DATA then [pdus[|pdus| - 1]] else []
  }

  function EnqueuedBy(es: seq<Event>): seq<bytes> {
    if es == [] then []
    else EnqueuedBy(es[..|es| - 1]) + if es[|es| - 1].Enqueue? then [es[|es| - 1].payload] else []
  }

  /** The DATA PDUs an event sends extend the grouped transmissions at their end. */
  lemma StepExtendsTransmissions(cfg: Config, r: ChannelRun, e: Event)
    requires ChannelInv(cfg, r)
    ensures var (r', out) := Step(cfg, r, e);
            && |out| <= 1
            && Flatten(r'.tx) == Flatten(r.tx) + DataOf(out)
            && r'.enqueued == r.enqueued + if e.Enqueue? then [e.payload] else []
  {
    hide Classify, Flatten, DataOf, TransmissionsOf;
    var (r', out) := Step(cfg, r, e);
    DataOfOne(out);
    assert Flatten(r.tx) + [] == Flatten(r.tx) && r.enqueued + [] == r.enqueued;
    if e.Service? && out != [] {
      FlattenMore(r.tx, out);
    }
  }

  lemma {:induction false} DataOfOne(out: seq<RtaPdu>)
    requires |out| <= 1
    ensures DataOf(out) == if out != [] && out[0].kind == RTA_TYPE_DATA then out else []
  {
    if out != [] {
      assert out == [out[0]] && out[..0] == [];
    }
  }

  lemma {:induction false} FlattenMore(tx: seq<seq<RtaPdu>>, out: seq<RtaPdu>)
    ensures Flatten(tx + [out]) == Flatten(tx) + out
    ensures tx != [] ==> Flatten(tx[..|tx| - 1] + [tx[|tx| - 1] + out]) == Flatten(tx) + out
  {
    assert (tx + [out])[..|tx|] == tx;
    if tx != [] {
      var n := |tx| - 1;
      assert (tx[..n] + [tx[n] + out])[..n] == tx[..n];
    }
  }

  lemma DataOfAppend(wire: seq<RtaPdu>, out: seq<RtaPdu>)
    requires |out| <= 1
    ensures DataOf(wire + out) == DataOf(wire) + DataOf(out)
  {
    if out == [] {
      assert wire + out == wire;
    } else {
      assert (wire + out)[..|wire|] == wire && out[..0] == [];
    }
  }

  /** Whatever arrives in whatever order: the DATA PDUs on the wire are, in enqueue order and
      without interleaving, between one and `1 + retries` copies of one PDU per payload, for
      exactly the payloads that are no longer queued; the rest are queued in order. */
  lemma {:induction false} SendDiscipline(cfg: Config, es: seq<Event>)
    ensures var r := RunOf(cfg, es);
            && ChannelInv(cfg, r)
            && r.enqueued == EnqueuedBy(es)
            && DataOf(WireOf(cfg, es)) == Flatten(r.tx)
            && EnqueuedBy(es) == EnqueuedBy(es)[..|r.tx|] + r.ch.queued
            && forall q :: 0 <= q < |r.tx| ==> TransmissionsOf(r.tx[q], EnqueuedBy(es)[q], cfg.retries)
  {
    hide Step, ChannelInv, TransmissionsOf, DataOf, Flatten;
    if es == [] {
      NothingSent(cfg);
    } else {
      var before, e := es[..|es| - 1], es[|es| - 1];
      SendDiscipline(cfg, before);
      StepKeepsInv(cfg, RunOf(cfg, before), e);
      StepExtendsTransmissions(cfg, RunOf(cfg, before), e);
      DataOfAppend(WireOf(cfg, before), Step(cfg, RunOf(cfg, before), e).1);
    }
    PayloadsInOrder(cfg, RunOf(cfg, es));
  }

  lemma NothingSent(cfg: Config)
    ensures DataOf([]) == [] && Flatten([]) == [] && ChannelInv(cfg, NEW_RUN)
  {}

  /** What the invariant says about the payloads. */
  lemma PayloadsInOrder(cfg: Config, r: ChannelRun)
    requires ChannelInv(cfg, r)
    ensures |r.tx| <= |r.enqueued| && r.enqueued == r.enqueued[..|r.tx|] + r.ch.queued
    ensures forall q :: 0 <= q < |r.tx| ==> TransmissionsOf(r.tx[q], r.enqueued[q], cfg.retries)
  {}

  // -------------------------------------------------------------------------
  // When it is sent
  // -------------------------------------------------------------------------

  /** A pass that sent something is followed by silence for the retransmission interval and no longer:
      servicing again changes nothing if and only if the interval is not over; once it is, the same
      PDU is sent again or, without retries left, abandoned. */
  lemma QuietForTheInterval(ch: Channel, retries: nat, after: nat, t0: int, t1: int)
    requires Serviced(ch, retries, after, t0).1 != []
    ensures var (ch', out) := Serviced(ch, retries, after, t0);
            && (Serviced(ch', retries, after, t1) == (ch', []) <==> t1 < t0 + after)
            && ch'.pending.Some?
            && (t1 >= t0 + after ==>
                  if ch'.pending.value.retriesLeft > 0 then Retransmits(ch', t1) && Serviced(ch', retries, after, t1).1 == out
                  else GivesUp(ch', t1))
  {}

  /** When each transmission went out, grouped by payload like the transmissions themselves. */
  function SendTimes(cfg: Config, es: seq<Event>): seq<seq<int>> {
    if es == [] then []
    else
      var before, e := es[..|es| - 1], es[|es| - 1];
      Noted(SendTimes(cfg, before), RunOf(cfg, before), e, Step(cfg, RunOf(cfg, before), e).1)
  }

  function Noted(times: seq<seq<int>>, r: ChannelRun, e: Event, out: seq<RtaPdu>): seq<seq<int>> {
    if !e.Service? || out == [] then times
    else if Retransmits(r.ch, e.now) && times != [] then times[..|times| - 1] + [times[|times| - 1] + [e.now]]
    else times + [[e.now]]
  }

  /** Times at least `after` apart. */
  predicate Spaced(times: seq<int>, after: nat) {
    forall k :: 0 < k < |times| ==> times[k] >= times[k - 1] + after
  }

  /** The times belong to the transmissions, and those of one payload are spaced. */
  predicate Paced(times: seq<seq<int>>, tx: seq<seq<RtaPdu>>, after: nat) {
    |times| == |tx| && forall q :: 0 <= q < |times| ==> |times[q]| == |tx[q]| > 0 && Spaced(times[q], after)
  }

  /** What is pending is due one interval behind its last transmission. */
  predicate OnTime(cfg: Config, r: ChannelRun, times: seq<seq<int>>) {
    && Paced(times, r.tx, cfg.after)
    && (r.ch.pending.Some? ==> times != [] && r.ch.pending.value.due == Newest(times) + cfg.after)
  }

  /** The time of the last transmission. */
  function Newest(times: seq<seq<int>>): int {
    if times == [] || times[|times| - 1] == [] then 0 else var last := times[|times| - 1]; last[|last| - 1]
  }

  /** Another copy of the last payload. */
  lemma AnotherCopy(times: seq<seq<int>>, tx: seq<seq<RtaPdu>>, after: nat, now: int, out: seq<RtaPdu>)
    requires Paced(times, tx, after) && times != [] && now >= Newest(times) + after && |out| == 1
    ensures var n := |times| - 1;
            var times' := times[..n] + [times[n] + [now]];
            Paced(times', tx[..n] + [tx[n] + out], after) && Newest(times') == now
  {}

  /** The first copy of the next one. */
  lemma FirstCopy(times: seq<seq<int>>, tx: seq<seq<RtaPdu>>, after: nat, now: int, out: seq<RtaPdu>)
    requires Paced(times, tx, after) && |out| == 1
    ensures Paced(times + [[now]], tx + [out], after) && Newest(times + [[now]]) == now
  {}

  lemma ResendingIsOnTime(cfg: Config, r: ChannelRun, e: Event, times: seq<seq<int>>)
    requires OnTime(cfg, r, times) && e.Service? && Retransmits(r.ch, e.now)
    ensures var (r', out) := Step(cfg, r, e); OnTime(cfg, r', Noted(times, r, e, out))
  {
    hide Paced, Newest;
    assert |times| == |r.tx| by { hide *; PacedSize(cfg, r, times); }
    AnotherCopy(times, r.tx, cfg.after, e.now, Step(cfg, r, e).1);
  }

  lemma PacedSize(cfg: Config, r: ChannelRun, times: seq<seq<int>>)
    requires OnTime(cfg, r, times)
    ensures |times| == |r.tx|
  {}

  lemma MovingOnIsOnTime(cfg: Config, r: ChannelRun, e: Event, times: seq<seq<int>>)
    requires OnTime(cfg, r, times) && e.Service? && !Retransmits(r.ch, e.now)
    ensures var (r', out) := Step(cfg, r, e); OnTime(cfg, r', Noted(times, r, e, out))
  {
    hide Paced, Newest;
    var out := Step(cfg, r, e).1;
    if out != [] {
      FirstCopy(times, r.tx, cfg.after, e.now, out);
    }
  }

  lemma OthersAreOnTime(cfg: Config, r: ChannelRun, e: Event, times: seq<seq<int>>)
    requires OnTime(cfg, r, times) && !e.Service?
    ensures var (r', out) := Step(cfg, r, e); OnTime(cfg, r', Noted(times, r, e, out))
  {
    hide Classify, Paced, Newest;
  }

  /** A pass at some time does what the time of the last transmission and the number of copies sent say: to
      a pending PDU nothing before the interval is over, then another copy, if not all are out, and then it
      is given up. A queued payload waits for nothing but that. */
  ghost predicate ActsWhenDue(cfg: Config, r: ChannelRun, times: seq<seq<int>>) {
    forall now: int ::
      var due := now >= Newest(times) + cfg.after;
      var copies := if r.tx == [] then 0 else |r.tx[|r.tx| - 1]|;
      && (Retransmits(r.ch, now) <==> r.ch.pending.Some? && due && copies <= cfg.retries)
      && (GivesUp(r.ch, now) <==> r.ch.pending.Some? && due && copies == 1 + cfg.retries)
      && (Step(cfg, r, Service(now)).1 == [] <==>
            if r.ch.pending.Some? then !due || (copies == 1 + cfg.retries && r.ch.queued == []) else r.ch.queued == [])
  }

  /** In every run, whatever arrives: two transmissions of one payload lie at least the interval apart, and
      what is unacknowledged is sent again or given up exactly when the interval behind its last
      transmission is over. */
  lemma {:induction false} ScheduleIsKept(cfg: Config, es: seq<Event>)
    ensures OnTime(cfg, RunOf(cfg, es), SendTimes(cfg, es)) && ActsWhenDue(cfg, RunOf(cfg, es), SendTimes(cfg, es))
  {
    hide *;
    RunStep(cfg, es);
    SendDiscipline(cfg, es);
    if es == [] {
      NothingIsLate(cfg);
    } else {
      var before, e := es[..|es| - 1], es[|es| - 1];
      ScheduleIsKept(cfg, before);
      SendDiscipline(cfg, before);
      if e.Service? {
        if Retransmits(RunOf(cfg, before).ch, e.now) {
          ResendingIsOnTime(cfg, RunOf(cfg, before), e, SendTimes(cfg, before));
        } else {
          MovingOnIsOnTime(cfg, RunOf(cfg, before), e, SendTimes(cfg, before));
        }
      } else {
        OthersAreOnTime(cfg, RunOf(cfg, before), e, SendTimes(cfg, before));
      }
    }
    DueDecides(cfg, RunOf(cfg, es), SendTimes(cfg, es));
  }

  lemma {:induction false} RunStep(cfg: Config, es: seq<Event>)
    ensures if es == [] then RunOf(cfg, es) == NEW_RUN && SendTimes(cfg, es) == []
            else
              var r, e := RunOf(cfg, es[..|es| - 1]), es[|es| - 1];
              var (r', out) := Step(cfg, r, e);
              RunOf(cfg, es) == r' && SendTimes(cfg, es) == Noted(SendTimes(cfg, es[..|es| - 1]), r, e, out)
  {
    hide Step, Noted;
  }

  lemma NothingIsLate(cfg: Config)
    ensures OnTime(cfg, NEW_RUN, [])
  {}

  lemma DueDecides(cfg: Config, r: ChannelRun, times: seq<seq<int>>)
    requires ChannelInv(cfg, r) && OnTime(cfg, r, times)
    ensures ActsWhenDue(cfg, r, times)
  {
    hide Spaced, Newest, CountersAt, NewestPdu, TransmissionsOf;
  }
}
