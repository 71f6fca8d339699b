/** RTA-PDU header, alarm frame layout and the sequence bookkeeping of one alarm priority
    (src/alarm_listener.rs). */
module Rta {
  import opened Bytes
  import opened Wrappers
  import opened Ethernet

  const FRAME_ID_ALARM_HIGH: u16 := 0xFC01
  const FRAME_ID_ALARM_LOW: u16 := 0xFE01
  const ADD_FLAGS_WINDOW_1: u8 := 0x01
  const ADD_FLAGS_TACK: u8 := 0x10
  const SEQ_NUM_INIT: u16 := 0xFFFF
  const SEQ_NUM_INIT_O: u16 := 0xFFFE
  const SEQ_NUM_MODULUS: u16 := 0x8000
  const RTA_TYPE_DATA: u8 := 1
  const RTA_TYPE_NACK: u8 := 2
  const RTA_TYPE_ACK: u8 := 3
  const RTA_TYPE_ERR: u8 := 4
  const VERSION_1: u8 := 1
  const RTA_HEADER_SIZE := 12

  datatype RtaHeader = RtaHeader(
    alarmDstEndpoint: u16, alarmSrcEndpoint: u16, pduType: u8, addFlags: u8,
    sendSeqNum: u16, ackSeqNum: u16, varPartLen: u16)
  {
    /** The low nibble of the PDU type byte. */
    function Kind(): u8 { pduType % 16 }

    /** The high nibble of the PDU type byte. */
    function Version(): u8 { pduType / 16 }

    /** AddFlags bit 4: the sender wants a transport acknowledgment. */
    predicate Tack() { addFlags / 16 % 2 == 1 }

    function ToBytes(): (r: bytes)
      ensures |r| == RTA_HEADER_SIZE
    {
      Be16(alarmDstEndpoint) + Be16(alarmSrcEndpoint) + [pduType, addFlags]
      + Be16(sendSeqNum) + Be16(ackSeqNum) + Be16(varPartLen)
    }
  }

  function EncodePduType(version: u8, kind: u8): u8 {
    version % 16 * 16 + kind % 16
  }

  function HeaderFromBytes(data: bytes): (r: Result<RtaHeader>) {
    if |data| < RTA_HEADER_SIZE then Err
    else Ok(RtaHeader(U16At(data, 0), U16At(data, 2), data[4], data[5], U16At(data, 6), U16At(data, 8), U16At(data, 10)))
  }

  lemma HeaderRoundTrip(h: RtaHeader, rest: bytes)
    ensures HeaderFromBytes(h.ToBytes() + rest) == Ok(h)
  {
    var dst, src, sent, ack, len := Be16(h.alarmDstEndpoint), Be16(h.alarmSrcEndpoint), Be16(h.sendSeqNum), Be16(h.ackSeqNum), Be16(h.varPartLen);
    assert h.ToBytes() + rest
        == [dst[0], dst[1], src[0], src[1], h.pduType, h.addFlags, sent[0], sent[1], ack[0], ack[1], len[0], len[1]] + rest;
  }

  // -------------------------------------------------------------------------
  // Alarm frames
  // -------------------------------------------------------------------------

  /** What the endpoint fixes about every PDU of an AR. */
  datatype Endpoint = Endpoint(controllerRef: u16, deviceRef: u16, deviceMac: Mac, rtaTimeoutFactor: u16, rtaRetries: u16)

  /** An outgoing PDU: what the endpoint does not fix. */
  datatype RtaPdu = RtaPdu(kind: u8, addFlags: u8, sendSeqNum: u16, ackSeqNum: u16, varPart: bytes)

  function DataPdu(sendSeqNum: u16, ackSeqNum: u16, varPart: bytes): RtaPdu {
    RtaPdu(RTA_TYPE_DATA, ADD_FLAGS_WINDOW_1 + ADD_FLAGS_TACK, sendSeqNum, ackSeqNum, varPart)
  }

  function ControlPdu(kind: u8, sendSeqNum: u16, ackSeqNum: u16): RtaPdu {
    RtaPdu(kind, ADD_FLAGS_WINDOW_1, sendSeqNum, ackSeqNum, [])
  }

  function PduHeader(ep: Endpoint, pdu: RtaPdu): RtaHeader {
    RtaHeader(ep.deviceRef, ep.controllerRef, EncodePduType(VERSION_1, pdu.kind), pdu.addFlags,
              pdu.sendSeqNum, pdu.ackSeqNum, AsU16(|pdu.varPart|))
  }

  const VLAN_TAG_ALARM_HIGH: bytes := [0x81, 0x00, 0xC0, 0x00]
  const VLAN_TAG_ALARM_LOW: bytes := [0x81, 0x00, 0xA0, 0x00]

  function BuildRtaFrame(ep: Endpoint, controllerMac: Mac, pdu: RtaPdu, high: bool): bytes {
    ep.deviceMac + controllerMac
    + (if high then VLAN_TAG_ALARM_HIGH else VLAN_TAG_ALARM_LOW)
    + Be16(ETHERTYPE_PROFINET)
    + Be16(if high then FRAME_ID_ALARM_HIGH else FRAME_ID_ALARM_LOW)
    + PduHeader(ep, pdu).ToBytes()
    + pdu.varPart
  }

  /** The priority and the RTA payload of a frame from the device, or nothing. */
  function CheckLayer2Frame(data: bytes, deviceMac: Mac): (r: Option<(bool, bytes)>) {
    if |data| < 14 || data[6..12] != deviceMac then None
    else
      var at := SkipFrom(data, 12);
      if |data| < at + 4 then None
      else if U16At(data, at) != ETHERTYPE_PROFINET then None
      else if U16At(data, at + 2) == FRAME_ID_ALARM_HIGH then Some((true, data[at + 4..]))
      else if U16At(data, at + 2) == FRAME_ID_ALARM_LOW then Some((false, data[at + 4..]))
      else None
  }

  /** The peer's end of the same AR: its own reference, its own address. */
  function Mirror(ep: Endpoint, controllerMac: Mac): Endpoint {
    ep.(controllerRef := ep.deviceRef, deviceRef := ep.controllerRef, deviceMac := controllerMac)
  }

  /** A built frame is recognised by its receiver, on the right priority, with nothing lost and any
      padding behind it, and untagged or doubly tagged copies of it read the same. */
  lemma FrameRoundTrip(ep: Endpoint, srcMac: Mac, pdu: RtaPdu, high: bool, tags: bytes, padding: bytes)
    requires IsTags(tags)
    ensures var frame := BuildRtaFrame(ep, srcMac, pdu, high);
            var payload := PduHeader(ep, pdu).ToBytes() + pdu.varPart + padding;
            && CheckLayer2Frame(frame + padding, srcMac) == Some((high, payload))
            && CheckLayer2Frame(frame[..12] + tags + frame[16..] + padding, srcMac) == Some((high, payload))
            && HeaderFromBytes(payload) == Ok(PduHeader(ep, pdu))
  {
    hide CheckLayer2Frame, HeaderFromBytes, Be16, U16At;
    var frame := BuildRtaFrame(ep, srcMac, pdu, high);
    var header := PduHeader(ep, pdu).ToBytes();
    var payload := header + pdu.varPart + padding;
    var id := if high then FRAME_ID_ALARM_HIGH else FRAME_ID_ALARM_LOW;
    var own := if high then VLAN_TAG_ALARM_HIGH else VLAN_TAG_ALARM_LOW;
    var rest := Be16(ETHERTYPE_PROFINET) + Be16(id) + payload;
    assert frame + padding == ep.deviceMac + srcMac + own + rest;
    OwnTag(high);
    TaggedFrame(ep.deviceMac, srcMac, own, id, payload);
    assert frame[..12] == ep.deviceMac + srcMac && frame[16..] + padding == rest;
    TaggedFrame(ep.deviceMac, srcMac, tags, id, payload);
    assert frame[..12] + tags + frame[16..] + padding == ep.deviceMac + srcMac + tags + rest;
    assert payload == header + (pdu.varPart + padding);
    HeaderRoundTrip(PduHeader(ep, pdu), pdu.varPart + padding);
  }

  /** Of frames with whole tags exactly the alarm frames of the device itself pass the filter, each on the
      priority of its frame ID. */
  lemma OnlyTheDeviceIsHeard(dst: Mac, src: Mac, tags: bytes, ethertype: u16, id: u16, payload: bytes, deviceMac: Mac)
    requires IsTags(tags) && !IsTpid(ethertype)
    ensures CheckLayer2Frame(dst + src + tags + (Be16(ethertype) + Be16(id) + payload), deviceMac)
            == if src == deviceMac && ethertype == 0x8892 && (id == 0xFC01 || id == 0xFE01) then Some((id == 0xFC01, payload)) else None
  {
    hide Be16, U16At, IsTags;
    var rest := Be16(ethertype) + Be16(id) + payload;
    var frame := dst + src + tags + rest;
    assert frame[6..12] == src;
    Read16(rest, [], ethertype, Be16(id) + payload) by { assert rest == [] + Be16(ethertype) + (Be16(id) + payload); }
    SkipsExactlyTheTags(dst + src, tags, rest);
    assert frame == (dst + src + tags) + Be16(ethertype) + (Be16(id) + payload);
    Read16(frame, dst + src + tags, ethertype, Be16(id) + payload);
    assert frame == (dst + src + tags + Be16(ethertype)) + Be16(id) + payload;
    Read16(frame, dst + src + tags + Be16(ethertype), id, payload);
    assert frame[12 + |tags| + 4..] == payload;
  }

  lemma OwnTag(high: bool)
    ensures IsTags(if high then VLAN_TAG_ALARM_HIGH else VLAN_TAG_ALARM_LOW)
  {
    var own := if high then VLAN_TAG_ALARM_HIGH else VLAN_TAG_ALARM_LOW;
    assert own[4..] == [] && IsTags(own[4..]) && U16At(own, 0) == TPID_8021Q;
  }

  lemma TaggedFrame(dst: Mac, src: Mac, tags: bytes, id: u16, payload: bytes)
    requires IsTags(tags) && (id == FRAME_ID_ALARM_HIGH || id == FRAME_ID_ALARM_LOW)
    ensures CheckLayer2Frame(dst + src + tags + (Be16(ETHERTYPE_PROFINET) + Be16(id) + payload), src)
         == Some((id == FRAME_ID_ALARM_HIGH, payload))
  {
    var rest := Be16(ETHERTYPE_PROFINET) + Be16(id) + payload;
    var frame := dst + src + tags + rest;
    assert frame[6..12] == src;
    assert U16At(rest, 0) == ETHERTYPE_PROFINET;
    SkipsExactlyTheTags(dst + src, tags, rest);
    var at := 12 + |tags|;
    assert frame[at] == rest[0] && frame[at + 1] == rest[1] && frame[at + 2] == rest[2] && frame[at + 3] == rest[3];
    assert U16At(frame, at + 2) == id;
    assert frame[at + 4..] == payload;
  }

  // -------------------------------------------------------------------------
  // Sequence counters
  // -------------------------------------------------------------------------

  datatype RtaAction = Ignore | OurDataAcked | DeviceNack | DeviceError | ReAck | SendNack | Accept

  datatype SeqCounters = SeqCounters(sendSeqNum: u16, sendSeqNumO: u16, expSeqNum: u16, expSeqNumO: u16) {
    function AckSeqPair(): (u16, u16) { (sendSeqNumO, expSeqNumO) }
    function DataSeqPair(): (u16, u16) { (sendSeqNum, expSeqNumO) }
    function AdvanceSend(): SeqCounters { this.(sendSeqNumO := sendSeqNum, sendSeqNum := NextSeqNum(sendSeqNum)) }
    function AdvanceExp(): SeqCounters { this.(expSeqNumO := expSeqNum, expSeqNum := NextSeqNum(expSeqNum)) }
  }

  const INITIAL_COUNTERS := SeqCounters(SEQ_NUM_INIT, SEQ_NUM_INIT_O, SEQ_NUM_INIT, SEQ_NUM_INIT_O)

  /** `wrapping_add(1) & 0x7FFF`. */
  function NextSeqNum(n: u16): u16 {
    (n + 1) % 0x1_0000 % SEQ_NUM_MODULUS
  }

  /** What to do with an incoming PDU, and the counters after it. */
  function Classify(s: SeqCounters, h: RtaHeader): (SeqCounters, RtaAction) {
    if h.Version() != VERSION_1 then (s, Ignore)
    else if h.Kind() == RTA_TYPE_ACK then
      if h.ackSeqNum == s.sendSeqNum then (s.AdvanceSend(), OurDataAcked) else (s, Ignore)
    else if h.Kind() == RTA_TYPE_NACK then (s, DeviceNack)
    else if h.Kind() == RTA_TYPE_ERR then (s, DeviceError)
    else if h.Kind() == RTA_TYPE_DATA then
      if !h.Tack() then (s, Ignore)
      else if h.sendSeqNum == s.expSeqNumO then (s, ReAck)
      else if h.sendSeqNum != s.expSeqNum then (s, SendNack)
      else
        var s' := s.AdvanceExp();
        (if h.ackSeqNum == s.sendSeqNum then s'.AdvanceSend() else s', Accept)
    else (s, Ignore)
  }

  /** The counters of one priority, updated in place by every PDU. */
  class RtaSequencer {
    var sendSeqNum: u16
    var sendSeqNumO: u16
    var expSeqNum: u16
    var expSeqNumO: u16

    function Counters(): SeqCounters
      reads this
    {
      SeqCounters(sendSeqNum, sendSeqNumO, expSeqNum, expSeqNumO)
    }

    constructor ()
      ensures Counters() == INITIAL_COUNTERS
    {
      sendSeqNum, sendSeqNumO := SEQ_NUM_INIT, SEQ_NUM_INIT_O;
      expSeqNum, expSeqNumO := SEQ_NUM_INIT, SEQ_NUM_INIT_O;
    }

    method AdvanceSend()
      modifies this
      ensures Counters() == old(Counters()).AdvanceSend()
    {
      sendSeqNumO := sendSeqNum;
      sendSeqNum := (sendSeqNum + 1) % 0x1_0000 % SEQ_NUM_MODULUS;
    }

    method OnPdu(header: RtaHeader) returns (action: RtaAction)
      modifies this
      ensures (Counters(), action) == Classify(old(Counters()), header)
    {
      if header.Version() != VERSION_1 {
        return Ignore;
      }
      if header.Kind() == RTA_TYPE_ACK {
        if header.ackSeqNum == sendSeqNum {
          AdvanceSend();
          return OurDataAcked;
        }
        return Ignore;
      }
      if header.Kind() == RTA_TYPE_NACK {
        return DeviceNack;
      }
      if header.Kind() == RTA_TYPE_ERR {
        return DeviceError;
      }
      if header.Kind() != RTA_TYPE_DATA || !header.Tack() {
        return Ignore;
      }
      if header.sendSeqNum == expSeqNumO {
        return ReAck;
      }
      if header.sendSeqNum != expSeqNum {
        return SendNack;
      }
      expSeqNumO := expSeqNum;
      expSeqNum := (expSeqNum + 1) % 0x1_0000 % SEQ_NUM_MODULUS;
      if header.ackSeqNum == sendSeqNum {
        AdvanceSend();
      }
      return Accept;
    }
  }

  // -------------------------------------------------------------------------
  // The unbounded index behind each wrapped counter
  // -------------------------------------------------------------------------

  /** The number on the wire of the k-th PDU of a direction: 0xFFFF, 0, 1, ..., 0x7FFF, 0, ...
      Index -1 is the "previous" number before anything was counted. */
  function SeqNum(k: int): u16
    requires k >= -1
  {
    if k == -1 then SEQ_NUM_INIT_O else if k == 0 then SEQ_NUM_INIT else (k - 1) % SEQ_NUM_MODULUS
  }

  lemma NextIsSuccessor(k: nat)
    ensures NextSeqNum(SeqNum(k)) == SeqNum(k + 1)
  {
    if k > 0 {
      assert ((k - 1) % 0x8000 + 1) % 0x8000 == k % 0x8000;
    }
  }

  lemma NumberOf(k: nat)
    requires k >= 1
    ensures SeqNum(k) == (k - 1) % 0x8000 && SEQ_NUM_MODULUS == 0x8000
  {}

  lemma SameResidue(a: nat, b: nat)
    requires a <= b
    ensures a % 0x8000 == b % 0x8000 <==> (b - a) % 0x8000 == 0
  {
    assert b % 0x8000 == (a % 0x8000 + (b - a) % 0x8000) % 0x8000;
  }

  /** Two indices share a number exactly when both are positive and whole laps of 0x8000 apart. */
  lemma SameNumberIffLapsApart(j: int, k: int)
    requires -1 <= j <= k
    ensures SeqNum(j) == SeqNum(k) <==> j == k || (j >= 1 && (k - j) % SEQ_NUM_MODULUS == 0)
  {
    if 1 <= j {
      hide *;
      NumberOf(j);
      NumberOf(k);
      SameResidue(j - 1, k - 1);
    }
  }

  /** Less than a lap apart, the number identifies the index. */
  lemma NumberIdentifiesIndex(j: int, k: int)
    requires -1 <= j <= k < j + SEQ_NUM_MODULUS
    ensures SeqNum(j) == SeqNum(k) <==> j == k
  {
    SameNumberIffLapsApart(j, k);
  }

  /** The counters stand at `sent` advances of the send side and `accepted` of the receive side. */
  predicate CountersAt(s: SeqCounters, sent: nat, accepted: nat) {
    s == SeqCounters(SeqNum(sent), SeqNum(sent - 1), SeqNum(accepted), SeqNum(accepted - 1))
  }

  /** One PDU, whatever it is, moves each index by at most one, and the receive index exactly on Accept. */
  lemma ClassifyMovesIndices(s: SeqCounters, sent: nat, accepted: nat, h: RtaHeader)
    requires CountersAt(s, sent, accepted)
    ensures var (s', action) := Classify(s, h);
            var sent' := if s'.sendSeqNum == s.sendSeqNum then sent else sent + 1;
            var accepted' := if action == Accept then accepted + 1 else accepted;
            && CountersAt(s', sent', accepted')
            && (action == Accept ==> h.sendSeqNum == SeqNum(accepted))
            && (sent' > sent <==> h.ackSeqNum == SeqNum(sent) && (action == OurDataAcked || action == Accept))
            && (action == ReAck ==> h.sendSeqNum == SeqNum(accepted - 1))
  {
    NextIsSuccessor(sent);
    NextIsSuccessor(accepted);
    NumberIdentifiesIndex(sent, sent + 1);
    NumberIdentifiesIndex(accepted - 1, accepted);
  }

  /** The counters after a stream of PDUs. */
  function CountersAfter(hs: seq<RtaHeader>): SeqCounters {
    if hs == [] then INITIAL_COUNTERS else Classify(CountersAfter(hs[..|hs| - 1]), hs[|hs| - 1]).0
  }

  /** The numbers carried by the accepted PDUs of a stream, in order. */
  function AcceptedNumbers(hs: seq<RtaHeader>): seq<u16> {
    if hs == [] then []
    else
      var before, h := hs[..|hs| - 1], hs[|hs| - 1];
      AcceptedNumbers(before) + if Classify(CountersAfter(before), h).1 == Accept then [h.sendSeqNum] else []
  }

  lemma NothingCounted()
    ensures CountersAt(INITIAL_COUNTERS, 0, 0)
  {}

  lemma {:induction false} StreamStep(hs: seq<RtaHeader>)
    ensures if hs == [] then CountersAfter(hs) == INITIAL_COUNTERS && AcceptedNumbers(hs) == []
            else
              var before, h := hs[..|hs| - 1], hs[|hs| - 1];
              var (s, action) := Classify(CountersAfter(before), h);
              && CountersAfter(hs) == s
              && AcceptedNumbers(hs) == if action == Accept then AcceptedNumbers(before) + [h.sendSeqNum] else AcceptedNumbers(before)
  {
    hide Classify;
  }

  /** Closed form: in any PDU stream at all the k-th accepted DATA carries the k-th number. */
  lemma {:induction false} KthAcceptedCarriesKthNumber(hs: seq<RtaHeader>) returns (sent: nat)
    ensures CountersAt(CountersAfter(hs), sent, |AcceptedNumbers(hs)|)
    ensures forall k :: 0 <= k < |AcceptedNumbers(hs)| ==> AcceptedNumbers(hs)[k] == SeqNum(k)
    ensures sent <= |hs|
  {
    hide Classify, CountersAt, SeqNum, CountersAfter, AcceptedNumbers;
    StreamStep(hs);
    if hs == [] {
      sent := 0;
      NothingCounted();
    } else {
      var before, h := hs[..|hs| - 1], hs[|hs| - 1];
      sent := KthAcceptedCarriesKthNumber(before);
      ClassifyMovesIndices(CountersAfter(before), sent, |AcceptedNumbers(before)|, h);
      sent := if CountersAfter(hs).sendSeqNum == CountersAfter(before).sendSeqNum then sent else sent + 1;
    }
  }
}
