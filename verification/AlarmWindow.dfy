/** How stale may the acknowledgment inside a retransmitted AlarmAck be? A pending AlarmAck is sent
    again byte for byte, with the acknowledgment it was built with. One lap of the sequence numbers
    later that acknowledgment means a different alarm. Runs here are those of the listener. */
module AlarmWindow {
  import opened Bytes
  import opened Wrappers
  import opened Rta
  import opened AlarmChannels
  import opened Alarms
  import opened AlarmListeners
  import opened AlarmTransport
  import opened AlarmSystem

  /** A possible run, continued by a possible action, is a possible run. */
  lemma Extend(net: Net, acts: seq<DuoAction>, a: DuoAction)
    requires DuoPossible(net, acts) && DuoEnabled(net, DuoAfter(net, acts), a)
    ensures DuoPossible(net, acts + [a]) && DuoAfter(net, acts + [a]) == DuoApply(net, DuoAfter(net, acts), a)
  {
    hide DuoEnabled, DuoApply;
    assert (acts + [a])[..|acts|] == acts;
  }

  /** A low-priority notification without items, 26 bytes long as its BlockLength says. */
  const ALARM: bytes := [0, 2, 0, 22, 1, 0] + Zeros(20)

  lemma AlarmParses()
    ensures WellSized(ALARM) && Parsed(ALARM).Ok? && !Parsed(ALARM).value.IsHighPriority()
  {}

  /** Its AlarmAck. */
  function Ack(): bytes {
    AlarmParses();
    AlarmAck(Parsed(ALARM).value)
  }

  // -------------------------------------------------------------------------
  // Passes of the listener
  // -------------------------------------------------------------------------

  /** Servicing at `now` sends nothing. */
  predicate Idle(ch: Channel, now: int) {
    if ch.pending.Some? then now < ch.pending.value.due else ch.queued == []
  }

  lemma IdleService(net: Net, d: Duo, h: bool, now: int)
    requires Idle(d.Get(h).run.ch, now)
    ensures Can(net, d, h, ControllerServices(now)) && Do(net, d, h, ControllerServices(now)) == d
  {
    var s := d.Get(h);
    assert s.toDevice + [] == s.toDevice;
  }

  lemma IdleServices(net: Net, d: Duo, now: int)
    requires Idle(d.low.run.ch, now) && d.high == INITIAL
    ensures CanService(net, d, now) && ServiceBoth(net, d, now) == d
  {
    hide Apply, Enabled;
    IdleService(net, d, false, now);
    IdleService(net, d, true, now);
  }

  const PASS := ListenerPass(0, Some((false, false)), 0)

  /** The AlarmAck queued and the channel serviced. */
  predicate CanAnswer(net: Net, d: Duo) {
    Can(net, d, false, ControllerEnqueues(Ack())) && Can(net, Do(net, d, false, ControllerEnqueues(Ack())), false, ControllerServices(0))
  }

  function Answered(net: Net, d: Duo): Duo
    requires CanAnswer(net, d)
  {
    Do(net, Do(net, d, false, ControllerEnqueues(Ack())), false, ControllerServices(0))
  }

  /** A pass that accepts the alarm on the wire. */
  lemma AcceptingPass(net: Net, d: Duo)
    requires d.high == INITIAL && Idle(d.low.run.ch, 0) && Can(net, d, false, ControllerReceives(false))
    requires AlarmIn(net, d, false) == Some(Parsed(ALARM).value)
    requires CanAnswer(net, Do(net, d, false, ControllerReceives(false)))
    ensures DuoEnabled(net, d, PASS)
    ensures var d1 := DuoApply(net, d, PASS);
            d1 == Answered(net, Do(net, d, false, ControllerReceives(false))).(delivered := d1.delivered)
  {
    hide Apply, Enabled, AlarmIn, AlarmAck, Parsed, Idle;
    AlarmParses();
    IdleServices(net, d, 0);
  }

  // -------------------------------------------------------------------------
  // The first alarm
  // -------------------------------------------------------------------------

  /** The first alarm on its way; nothing else has happened. */
  predicate FirstOut(d: Duo) {
    && d.high == INITIAL
    && d.low == INITIAL.(submitted := [ALARM], toController := [Flight(DataPdu(SeqNum(0), SeqNum(-1), ALARM), 0, -1, 0, 0)])
  }

  lemma FirstGoesOut(net: Net)
    ensures DuoEnabled(net, INITIAL_DUO, Outside(false, Submit(ALARM)))
    ensures var d1 := DuoApply(net, INITIAL_DUO, Outside(false, Submit(ALARM)));
            && DuoEnabled(net, d1, Outside(false, DeviceSends(-1)))
            && FirstOut(DuoApply(net, d1, Outside(false, DeviceSends(-1))))
  {}

  /** Accepted, transport ACK and AlarmAck on their way back. */
  predicate FirstAccepted(d: Duo) {
    var s := d.low;
    && d.high == INITIAL && s.toController == [] && s.submitted == [ALARM]
    && s.toDevice == [Flight(ControlPdu(RTA_TYPE_ACK, SeqNum(-1), SeqNum(0)), -1, 0, 1, -1), Flight(DataPdu(SeqNum(0), SeqNum(0), Ack()), 0, 0, 1, 0)]
    && CountersAt(s.run.ch.counters, 0, 1) && s.run.sent == 0 && s.run.accepted == 1
    && s.run.ch.pending.Some? && s.run.ch.pending.value.due > 0 && s.run.ch.queued == []
    && s.device == INITIAL_COUNTERS && s.acked == 0 && s.ordinals == []
  }

  /** Accepted and acknowledged by the transport, the AlarmAck not queued yet. */
  predicate FirstTaken(d: Duo) {
    var s := d.low;
    && d.high == INITIAL && s.toController == [] && s.submitted == [ALARM]
    && s.toDevice == [Flight(ControlPdu(RTA_TYPE_ACK, SeqNum(-1), SeqNum(0)), -1, 0, 1, -1)]
    && CountersAt(s.run.ch.counters, 0, 1) && s.run.sent == 0 && s.run.accepted == 1 && s.run.tx == []
    && s.run.ch.pending == None && s.run.ch.queued == []
    && s.device == INITIAL_COUNTERS && s.acked == 0 && s.ordinals == []
  }

  lemma FirstIsTaken(net: Net, d: Duo)
    requires FirstOut(d)
    ensures d.high == INITIAL && Idle(d.low.run.ch, 0) && Can(net, d, false, ControllerReceives(false))
    ensures AlarmIn(net, d, false) == Some(Parsed(ALARM).value)
    ensures FirstTaken(Do(net, d, false, ControllerReceives(false)))
  {
    hide Parsed;
    AlarmParses();
    var h := PduHeader(net.ep, d.low.toController[0].pdu);
    ClassifyMovesIndices(d.low.run.ch.counters, 0, 0, h);
    NumberIdentifiesIndex(-1, 0);
    assert Classify(d.low.run.ch.counters, h).1 == Accept;
    var d1 := Do(net, d, false, ControllerReceives(false));
    assert d1.low.toController == [] && |d1.low.toDevice| == 1;
  }

  lemma FirstIsAnswered(net: Net, d: Duo)
    requires FirstTaken(d) && net.cfg.after > 0
    ensures CanAnswer(net, d) && FirstAccepted(Answered(net, d))
  {
    hide Ack;
    assert |Answered(net, d).low.toDevice| == 2;
  }

  lemma SameFirst(d: Duo, d': Duo)
    requires FirstAccepted(d) && d'.low == d.low && d'.high == d.high
    ensures FirstAccepted(d')
  {
    hide Ack;
  }

  lemma FirstComesIn(net: Net, d: Duo)
    requires FirstOut(d) && net.cfg.after > 0
    ensures DuoEnabled(net, d, PASS) && FirstAccepted(DuoApply(net, d, PASS))
  {
    hide Parsed, Apply, Enabled, AlarmIn, FirstAccepted, FirstTaken, CanAnswer, Answered, DuoEnabled, DuoApply, Idle;
    FirstIsTaken(net, d);
    FirstIsAnswered(net, Do(net, d, false, ControllerReceives(false)));
    AcceptingPass(net, d);
    SameFirst(Answered(net, Do(net, d, false, ControllerReceives(false))), DuoApply(net, d, PASS));
  }

  /** The device has taken the transport ACK. */
  predicate FirstDelivered(d: Duo) {
    var s := d.low;
    && d.high == INITIAL && s.toController == [] && s.submitted == [ALARM]
    && s.toDevice == [Flight(DataPdu(SeqNum(0), SeqNum(0), Ack()), 0, 0, 1, 0)]
    && CountersAt(s.run.ch.counters, 0, 1) && s.run.sent == 0 && s.run.accepted == 1
    && s.run.ch.pending.Some? && s.run.ch.pending.value.due > 0 && s.run.ch.queued == []
    && CountersAt(s.device, 1, 0) && s.acked == 1 && s.ordinals == []
  }

  lemma FirstAckComesIn(net: Net, d: Duo)
    requires FirstAccepted(d)
    ensures DuoEnabled(net, d, Outside(false, DeviceReceives(false)))
    ensures FirstDelivered(DuoApply(net, d, Outside(false, DeviceReceives(false))))
  {
    hide Ack;
    var h := PduHeader(net.ep, d.low.toDevice[0].pdu);
    ClassifyMovesIndices(d.low.device, 0, 0, h);
    NumberIdentifiesIndex(0, 1);
    assert Classify(d.low.device, h).1 == OurDataAcked;
    assert d.low.toDevice[1..] == [d.low.toDevice[1]];
  }

  /** The device has taken the AlarmAck and answered it. */
  predicate FirstAnswered(d: Duo) {
    var s := d.low;
    && d.high == INITIAL && s.toDevice == [] && s.submitted == [ALARM]
    && s.toController == [Flight(ControlPdu(RTA_TYPE_ACK, SeqNum(0), SeqNum(0)), -1, 0, 1, -1)]
    && CountersAt(s.run.ch.counters, 0, 1) && s.run.sent == 0 && s.run.accepted == 1
    && s.run.ch.pending.Some? && s.run.ch.pending.value.due > 0 && s.run.ch.queued == []
    && CountersAt(s.device, 1, 1) && s.acked == 1 && |s.ordinals| == 1
  }

  lemma FirstAlarmAckComesIn(net: Net, d: Duo)
    requires FirstDelivered(d)
    ensures DuoEnabled(net, d, Outside(false, DeviceReceives(false)))
    ensures FirstAnswered(DuoApply(net, d, Outside(false, DeviceReceives(false))))
  {
    hide Ack;
    var h := PduHeader(net.ep, d.low.toDevice[0].pdu);
    ClassifyMovesIndices(d.low.device, 1, 0, h);
    NumberIdentifiesIndex(-1, 0);
    NumberIdentifiesIndex(0, 1);
    assert Classify(d.low.device, h).1 == Accept;
    assert |DuoApply(net, d, Outside(false, DeviceReceives(false))).low.toController| == 1;
  }

  lemma FirstIsDone(net: Net, d: Duo)
    requires FirstAnswered(d)
    ensures DuoEnabled(net, d, PASS)
    ensures var d1 := DuoApply(net, d, PASS); Waiting(d1, 1) && d1.low.run.ch.pending == None && d1.low.run.ch.queued == []
  {
    IdleServices(net, d, 0);
    var h := PduHeader(net.ep, d.low.toController[0].pdu);
    ClassifyMovesIndices(d.low.run.ch.counters, 0, 1, h);
    NumberIdentifiesIndex(0, 1);
    assert Classify(d.low.run.ch.counters, h).1 == OurDataAcked;
    assert DuoApply(net, d, PASS) == Do(net, d, false, ControllerReceives(false));
  }

  // -------------------------------------------------------------------------
  // One alarm after the other
  // -------------------------------------------------------------------------

  /** Nothing in flight, `n` alarms exchanged and acknowledged, one AlarmAck accepted by the device, and
      the high priority unused. */
  predicate Waiting(d: Duo, n: nat) {
    var s := d.low;
    && d.high == INITIAL
    && s.toDevice == [] && s.toController == []
    && CountersAt(s.run.ch.counters, 1, n) && s.run.sent == 1 && s.run.accepted == n
    && CountersAt(s.device, n, 1) && |s.ordinals| == 1
    && |s.submitted| == n == s.acked && forall k :: 0 <= k < n ==> s.submitted[k] == ALARM
  }

  /** The alarm with index `n` on its way to the controller. */
  predicate AlarmOnTheWay(d: Duo, n: nat) {
    && |d.low.submitted| == n + 1 && d.low.submitted[n] == ALARM
    && d.low.toController == [Flight(DataPdu(SeqNum(n), SeqNum(0), ALARM), n, 0, 1, n)]
    && Waiting(d.(low := d.low.(submitted := d.low.submitted[..n], toController := [])), n)
  }

  lemma AlarmGoesOut(net: Net, d: Duo, n: nat)
    requires Waiting(d, n)
    ensures DuoEnabled(net, d, Outside(false, Submit(ALARM)))
    ensures var d1 := DuoApply(net, d, Outside(false, Submit(ALARM)));
            && DuoEnabled(net, d1, Outside(false, DeviceSends(0)))
            && var d2 := DuoApply(net, d1, Outside(false, DeviceSends(0)));
               AlarmOnTheWay(d2, n) && d2.low.run == d.low.run
  {
    var d2 := DuoApply(net, DuoApply(net, d, Outside(false, Submit(ALARM))), Outside(false, DeviceSends(0)));
    assert d2.low.submitted[..n] == d.low.submitted;
  }

  /** The alarm accepted, its transport ACK on the way back ahead of `more`. */
  predicate AckOnTheWay(d: Duo, n: nat, more: seq<Flight>) {
    var s := d.low;
    && d.high == INITIAL && s.toController == []
    && s.toDevice == [Flight(ControlPdu(RTA_TYPE_ACK, SeqNum(0), SeqNum(n)), -1, n, n + 1, -1)] + more
    && CountersAt(s.run.ch.counters, 1, n + 1) && s.run.sent == 1 && s.run.accepted == n + 1
    && CountersAt(s.device, n, 1) && |s.ordinals| == 1
    && |s.submitted| == n + 1 && s.acked == n && forall k :: 0 <= k < n + 1 ==> s.submitted[k] == ALARM
  }

  /** The AlarmAck of the second alarm, built when two alarms were accepted, still pending. */
  predicate Stuck(net: Net, r: ChannelRun) {
    && r.builtSend == 1 && r.builtAck == 1 && r.tx != []
    && r.ch.pending == Some(Pending(DataPdu(SeqNum(1), SeqNum(1), Ack()), net.cfg.after, net.cfg.retries))
  }

  lemma AlarmIsAccepted(net: Net, d: Duo, n: nat)
    requires AlarmOnTheWay(d, n) && n > 0
    ensures Can(net, d, false, ControllerReceives(false))
    ensures AlarmIn(net, d, false) == Some(Parsed(ALARM).value)
    ensures var d1 := Do(net, d, false, ControllerReceives(false));
            && AckOnTheWay(d1, n, [])
            && d1.low.run == d.low.run.(ch := d1.low.run.ch, sent := d1.low.run.sent, accepted := d1.low.run.accepted)
            && d1.low.run.ch == d.low.run.ch.(counters := d1.low.run.ch.counters)
  {
    hide Parsed;
    AlarmParses();
    var h := PduHeader(net.ep, d.low.toController[0].pdu);
    ClassifyMovesIndices(d.low.run.ch.counters, 1, n, h);
    NumberIdentifiesIndex(n - 1, n);
    NumberIdentifiesIndex(0, 1);
    assert Classify(d.low.run.ch.counters, h).1 == Accept;
    var d1 := Do(net, d, false, ControllerReceives(false));
    assert d1.low.toController == [] && |d1.low.toDevice| == 1;
    assert forall k :: 0 <= k < n ==> d.low.submitted[k] == d.low.submitted[..n][k];
  }

  /** The AlarmAck of the second alarm goes out. */
  lemma SecondAnswered(net: Net, d: Duo)
    requires AckOnTheWay(d, 1, []) && d.low.run.ch.pending == None && d.low.run.ch.queued == []
    ensures CanAnswer(net, d)
    ensures var d1 := Answered(net, d);
            |d1.low.toDevice| == 2 && AckOnTheWay(d1, 1, [d1.low.toDevice[1]]) && Stuck(net, d1.low.run)
  {
    hide Ack;
    var d1 := Answered(net, d);
    assert |d1.low.toDevice| == 2;
    assert d1.low.toDevice == [d.low.toDevice[0]] + [d1.low.toDevice[1]];
  }

  /** Later ones queue behind it. */
  lemma LaterAnswered(net: Net, d: Duo, n: nat)
    requires AckOnTheWay(d, n, []) && Stuck(net, d.low.run) && net.cfg.after > 0
    ensures CanAnswer(net, d) && AckOnTheWay(Answered(net, d), n, []) && Stuck(net, Answered(net, d).low.run)
  {
    hide Ack;
    IdleService(net, Do(net, d, false, ControllerEnqueues(Ack())), false, 0);
  }

  lemma SameButDelivered(d: Duo, d': Duo, n: nat, more: seq<Flight>)
    requires AckOnTheWay(d, n, more) && d'.low == d.low && d'.high == d.high
    ensures AckOnTheWay(d', n, more)
  {}

  lemma OnTheWayIsIdle(net: Net, d: Duo, n: nat)
    requires AlarmOnTheWay(d, n) && net.cfg.after > 0
    requires Stuck(net, d.low.run) || (d.low.run.ch.pending == None && d.low.run.ch.queued == [])
    ensures d.high == INITIAL && Idle(d.low.run.ch, 0)
  {}

  lemma StuckIsKept(net: Net, r: ChannelRun, r': ChannelRun)
    requires Stuck(net, r) && r' == r.(ch := r'.ch, sent := r'.sent, accepted := r'.accepted)
    requires r'.ch == r.ch.(counters := r'.ch.counters)
    ensures Stuck(net, r')
  {}

  lemma SecondComesIn(net: Net, d: Duo)
    requires AlarmOnTheWay(d, 1) && d.low.run.ch.pending == None && d.low.run.ch.queued == [] && net.cfg.after > 0
    ensures DuoEnabled(net, d, PASS)
    ensures var d1 := DuoApply(net, d, PASS);
            |d1.low.toDevice| == 2 && AckOnTheWay(d1, 1, [d1.low.toDevice[1]]) && Stuck(net, d1.low.run)
  {
    hide Parsed, Apply, Enabled, AlarmIn, AckOnTheWay, AlarmOnTheWay, Stuck, Idle, DuoEnabled, DuoApply, CanAnswer, Answered;
    OnTheWayIsIdle(net, d, 1);
    AlarmIsAccepted(net, d, 1);
    SecondAnswered(net, Do(net, d, false, ControllerReceives(false)));
    AcceptingPass(net, d);
    var d2, d1 := Answered(net, Do(net, d, false, ControllerReceives(false))), DuoApply(net, d, PASS);
    SameButDelivered(d2, d1, 1, [d2.low.toDevice[1]]);
  }

  lemma LaterComesIn(net: Net, d: Duo, n: nat)
    requires AlarmOnTheWay(d, n) && n > 0 && Stuck(net, d.low.run) && net.cfg.after > 0
    ensures DuoEnabled(net, d, PASS)
    ensures AckOnTheWay(DuoApply(net, d, PASS), n, []) && Stuck(net, DuoApply(net, d, PASS).low.run)
  {
    hide Parsed, Apply, Enabled, AlarmIn, AckOnTheWay, AlarmOnTheWay, Stuck, Idle, DuoEnabled, DuoApply, CanAnswer, Answered;
    OnTheWayIsIdle(net, d, n);
    AlarmIsAccepted(net, d, n);
    StuckIsKept(net, d.low.run, Do(net, d, false, ControllerReceives(false)).low.run);
    LaterAnswered(net, Do(net, d, false, ControllerReceives(false)), n);
    AcceptingPass(net, d);
    SameButDelivered(Answered(net, Do(net, d, false, ControllerReceives(false))), DuoApply(net, d, PASS), n, []);
  }

  lemma AckComesIn(net: Net, d: Duo, n: nat, more: seq<Flight>)
    requires AckOnTheWay(d, n, more)
    ensures DuoEnabled(net, d, Outside(false, DeviceReceives(false)))
    ensures var d1 := DuoApply(net, d, Outside(false, DeviceReceives(false)));
            d1.low.toDevice == more && Waiting(d1.(low := d1.low.(toDevice := [])), n + 1) && d1.low.run == d.low.run
  {
    var h := PduHeader(net.ep, d.low.toDevice[0].pdu);
    ClassifyMovesIndices(d.low.device, n, 1, h);
    NumberIdentifiesIndex(n, n + 1);
    assert Classify(d.low.device, h).1 == OurDataAcked;
    assert d.low.toDevice[1..] == more;
  }

  /** The AlarmAck behind the transport ACK is lost. */
  lemma SecondIsLost(net: Net, d: Duo, f: Flight)
    requires d.low.toDevice == [f] && Waiting(d.(low := d.low.(toDevice := [])), 2)
    ensures DuoEnabled(net, d, Outside(false, LoseToDevice(0)))
    ensures var d1 := DuoApply(net, d, Outside(false, LoseToDevice(0))); Waiting(d1, 2) && d1.low.run == d.low.run
  {
    var d1 := DuoApply(net, d, Outside(false, LoseToDevice(0)));
    assert d1 == d.(low := d.low.(toDevice := []));
  }

  lemma NothingMore(d: Duo, n: nat)
    requires d.low.toDevice == [] && Waiting(d.(low := d.low.(toDevice := [])), n)
    ensures Waiting(d, n)
  {
    assert d.(low := d.low.(toDevice := [])) == d;
  }

  // -------------------------------------------------------------------------
  // The run
  // -------------------------------------------------------------------------

  lemma FirstAlarm(net: Net) returns (acts: seq<DuoAction>)
    requires net.cfg.after > 0
    ensures DuoPossible(net, acts)
    ensures var d := DuoAfter(net, acts); Waiting(d, 1) && d.low.run.ch.pending == None && d.low.run.ch.queued == []
  {
    hide DuoApply, DuoEnabled, Waiting, FirstOut, FirstAccepted, FirstDelivered, FirstAnswered;
    FirstGoesOut(net);
    acts := AndThen(net, [], Outside(false, Submit(ALARM)));
    acts := AndThen(net, acts, Outside(false, DeviceSends(-1)));
    FirstComesIn(net, DuoAfter(net, acts));
    acts := AndThen(net, acts, PASS);
    FirstAckComesIn(net, DuoAfter(net, acts));
    acts := AndThen(net, acts, Outside(false, DeviceReceives(false)));
    FirstAlarmAckComesIn(net, DuoAfter(net, acts));
    acts := AndThen(net, acts, Outside(false, DeviceReceives(false)));
    FirstIsDone(net, DuoAfter(net, acts));
    acts := AndThen(net, acts, PASS);
  }

  lemma AndThen(net: Net, acts: seq<DuoAction>, a: DuoAction) returns (more: seq<DuoAction>)
    requires DuoPossible(net, acts) && DuoEnabled(net, DuoAfter(net, acts), a)
    ensures DuoPossible(net, more) && DuoAfter(net, more) == DuoApply(net, DuoAfter(net, acts), a)
  {
    hide DuoEnabled, DuoApply, DuoPossible, DuoAfter;
    Extend(net, acts, a);
    more := acts + [a];
  }

  lemma AlarmSubmitted(net: Net, acts: seq<DuoAction>, n: nat) returns (more: seq<DuoAction>)
    requires DuoPossible(net, acts) && Waiting(DuoAfter(net, acts), n)
    ensures DuoPossible(net, more) && AlarmOnTheWay(DuoAfter(net, more), n)
    ensures DuoAfter(net, more).low.run == DuoAfter(net, acts).low.run
  {
    hide DuoApply, DuoEnabled, DuoPossible, DuoAfter, Waiting, AlarmOnTheWay;
    AlarmGoesOut(net, DuoAfter(net, acts), n);
    more := AndThen(net, acts, Outside(false, Submit(ALARM)));
    more := AndThen(net, more, Outside(false, DeviceSends(0)));
  }

  /** The second alarm is acknowledged, and its AlarmAck lost. */
  lemma SecondAlarm(net: Net) returns (acts: seq<DuoAction>)
    requires net.cfg.after > 0
    ensures DuoPossible(net, acts) && Waiting(DuoAfter(net, acts), 2) && Stuck(net, DuoAfter(net, acts).low.run)
  {
    hide DuoApply, DuoEnabled, DuoPossible, DuoAfter, Waiting, AlarmOnTheWay, AckOnTheWay, Stuck;
    acts := FirstAlarm(net);
    acts := AlarmSubmitted(net, acts, 1);
    SecondComesIn(net, DuoAfter(net, acts));
    acts := AndThen(net, acts, PASS);
    var f := DuoAfter(net, acts).low.toDevice[1];
    AckComesIn(net, DuoAfter(net, acts), 1, [f]);
    acts := AndThen(net, acts, Outside(false, DeviceReceives(false)));
    SecondIsLost(net, DuoAfter(net, acts), f);
    acts := AndThen(net, acts, Outside(false, LoseToDevice(0)));
  }

  lemma LaterAlarm(net: Net, acts: seq<DuoAction>, n: nat) returns (more: seq<DuoAction>)
    requires DuoPossible(net, acts) && Waiting(DuoAfter(net, acts), n) && n > 0 && net.cfg.after > 0
    requires Stuck(net, DuoAfter(net, acts).low.run)
    ensures DuoPossible(net, more) && Waiting(DuoAfter(net, more), n + 1) && Stuck(net, DuoAfter(net, more).low.run)
  {
    hide DuoApply, DuoEnabled, DuoPossible, DuoAfter, Waiting, AlarmOnTheWay, AckOnTheWay, Stuck;
    more := AlarmSubmitted(net, acts, n);
    LaterComesIn(net, DuoAfter(net, more), n);
    more := AndThen(net, more, PASS);
    AckComesIn(net, DuoAfter(net, more), n, []);
    more := AndThen(net, more, Outside(false, DeviceReceives(false)));
    NothingMore(DuoAfter(net, more), n + 1);
  }

  lemma {:induction false} AlarmsWhileStuck(net: Net, n: nat) returns (acts: seq<DuoAction>)
    requires n >= 2 && net.cfg.after > 0
    ensures DuoPossible(net, acts) && Waiting(DuoAfter(net, acts), n) && Stuck(net, DuoAfter(net, acts).low.run)
  {
    hide DuoPossible, DuoAfter, Waiting, Stuck;
    if n == 2 {
      acts := SecondAlarm(net);
    } else {
      acts := AlarmsWhileStuck(net, n - 1);
      acts := LaterAlarm(net, acts, n - 1);
    }
  }

  // -------------------------------------------------------------------------
  // A lap later
  // -------------------------------------------------------------------------

  /** The pending AlarmAck on the wire once more. */
  predicate StaleAckOut(d: Duo) {
    && d.low.run.accepted == 0x8001 && |d.low.toDevice| == 1
    && d.low.toDevice[0].pdu == DataPdu(SeqNum(1), SeqNum(1), Ack())
    && CountersAt(d.low.device, 0x8001, 1) && d.low.acked == 0x8001
    && forall k :: 0 <= k < |d.low.submitted| ==> d.low.submitted[k] == ALARM
  }

  /** The pending AlarmAck goes out once more, a lap after it was built. */
  lemma StaleAckGoesOut(net: Net, d: Duo)
    requires net.cfg.retries >= 1 && Within(net.window, 0x7FFF)
    requires Waiting(d, 0x8001) && Stuck(net, d.low.run)
    ensures DuoEnabled(net, d, ListenerPass(net.cfg.after, None, 0))
    ensures var d1 := DuoApply(net, d, ListenerPass(net.cfg.after, None, 0));
            StaleAckOut(d1) && |d1.low.submitted| == 0x8001
  {
    hide Ack;
    var d1 := Do(net, d, false, ControllerServices(net.cfg.after));
    IdleService(net, d1, true, net.cfg.after);
  }

  lemma OneMoreSubmitted(net: Net, d: Duo)
    requires StaleAckOut(d)
    ensures DuoEnabled(net, d, Outside(false, Submit(ALARM)))
    ensures var d1 := DuoApply(net, d, Outside(false, Submit(ALARM)));
            StaleAckOut(d1) && |d1.low.submitted| == |d.low.submitted| + 1
  {
    hide Ack;
  }

  /** The device takes it for the acknowledgment of an alarm the controller never saw. */
  lemma StaleAckMisread(net: Net, d: Duo)
    requires StaleAckOut(d)
    ensures DuoEnabled(net, d, Outside(false, DeviceReceives(false)))
    ensures var d1 := DuoApply(net, d, Outside(false, DeviceReceives(false)));
            d1.low.acked == 0x8002 && d1.low.run == d.low.run && d1.low.submitted == d.low.submitted
  {
    hide Ack;
    assert SeqNum(1) == SeqNum(0x8001) == 0;
    var h := PduHeader(net.ep, d.low.toDevice[0].pdu);
    ClassifyMovesIndices(d.low.device, 0x8001, 1, h);
    NumberIdentifiesIndex(0, 1);
    assert Classify(d.low.device, h).1 == Accept;
  }

  /** As soon as one retry is allowed and nothing bounds the alarms between building an AlarmAck and
      sending it again below a lap, the listener has a run in which the device is told that an alarm was
      accepted which the controller never saw. Every alarm of the run is a proper one. */
  lemma StaleAckLosesAlarm(net: Net) returns (acts: seq<DuoAction>)
    requires net.cfg.retries >= 1 && Within(net.window, 0x7FFF) && net.cfg.after > 0
    ensures DuoPossible(net, acts)
    ensures var s := DuoAfter(net, acts).low;
            && s.acked == 0x8002 && s.run.accepted == 0x8001 && |s.submitted| == 0x8002
            && forall k :: 0 <= k < |s.submitted| ==> WellSized(s.submitted[k]) && Parsed(s.submitted[k]).Ok?
  {
    hide DuoApply, DuoEnabled, DuoPossible, DuoAfter, Waiting, Stuck, Parsed;
    AlarmParses();
    acts := AlarmsWhileStuck(net, 0x8001);
    StaleAckGoesOut(net, DuoAfter(net, acts));
    acts := AndThen(net, acts, ListenerPass(net.cfg.after, None, 0));
    OneMoreSubmitted(net, DuoAfter(net, acts));
    acts := AndThen(net, acts, Outside(false, Submit(ALARM)));
    StaleAckMisread(net, DuoAfter(net, acts));
    acts := AndThen(net, acts, Outside(false, DeviceReceives(false)));
  }

  // -------------------------------------------------------------------------
  // The exact condition
  // -------------------------------------------------------------------------

  /** In every run of the listener and on both priorities, the device only ever believes delivered what
      was delivered. */
  ghost predicate NothingLost(net: Net) {
    forall acts, h :: DuoPossible(net, acts) ==> DuoAfter(net, acts).Get(h).acked <= DuoAfter(net, acts).Get(h).run.accepted
  }

  /** Nothing is ever lost exactly if retransmission is switched off, or some bound below a lap holds on
      the alarms accepted between building an AlarmAck and sending it for the last time. */
  lemma WindowTheorem(net: Net)
    requires net.deviceWindow <= SAFE_WINDOW && net.cfg.after > 0
    ensures NothingLost(net) <==> net.cfg.retries == 0 || (net.window.Some? && net.window.value <= SAFE_WINDOW)
  {
    hide DuoPossible, DuoAfter, Subsequence;
    if Safe(net) {
      forall acts, h | DuoPossible(net, acts)
        ensures DuoAfter(net, acts).Get(h).acked <= DuoAfter(net, acts).Get(h).run.accepted
      {
        AlarmsExactlyOnce(net, acts, h);
      }
    } else {
      var acts := StaleAckLosesAlarm(net);
      assert DuoAfter(net, acts).Get(false).acked > DuoAfter(net, acts).Get(false).run.accepted;
    }
  }

  /** The code as it is, with no bound on anything: alarms are never lost exactly if the endpoint is
      configured with no retries. */
  lemma NothingLostExactlyWithoutRetries(net: Net, ep: Endpoint)
    requires SameSetup(net, ep) && net.window == None && net.deviceWindow <= SAFE_WINDOW
    ensures NothingLost(net) <==> ep.rtaRetries == 0
  {
    hide NothingLost;
    WindowTheorem(net);
  }
}
