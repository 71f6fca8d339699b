/** Matching responses to calls, and answering the device's own call (src/transport.rs). */
module RpcResponses {
  import opened Bytes
  import opened Wrappers
  import opened Rpc

  /** A packet classified: an echoed request is skipped, a response is looked at, all else is an error. */
  function ParseRpcResponse(data: bytes): Result<Option<ParsedRpc>> {
    match ParseRpcHeader(data)
    case None => Err
    case Some(h) =>
      if h.packetType == PACKET_TYPE_REQUEST then Ok(None)
      else if h.packetType == PACKET_TYPE_RESPONSE then Ok(Some(h))
      else Err
  }

  /** A UUID's first three fields are in the packet's byte order, the rest is big-endian. */
  function DrepNormalizedUuid(uuid: Uuid, le: bool): Uuid {
    if !le then uuid
    else [uuid[3], uuid[2], uuid[1], uuid[0], uuid[5], uuid[4], uuid[7], uuid[6]] + uuid[8..]
  }

  lemma NormalizingIsAnInvolution(uuid: Uuid, le: bool)
    ensures DrepNormalizedUuid(DrepNormalizedUuid(uuid, le), le) == uuid
  {}

  predicate Matches(h: ParsedRpc, expectedUuid: Uuid, expectedSeq: u32) {
    DrepNormalizedUuid(h.activityUuid, h.IsLittleEndian()) == expectedUuid && h.numbers.sequenceNumber == expectedSeq
  }

  /** Packets the loop passes over: requests and responses to other calls. */
  predicate Skipped(data: bytes, expectedUuid: Uuid, expectedSeq: u32) {
    var r := ParseRpcResponse(data);
    r.Ok? && (r.value.Some? ==> !Matches(r.value.value, expectedUuid, expectedSeq))
  }

  /** What the receive function yields over time; the end of the list is a receive error, too. */
  type Stream = seq<Result<bytes>>

  /** The first datagram that is not skipped; the length of the stream if there is none. */
  function Decisive(stream: Stream, expectedUuid: Uuid, expectedSeq: u32): (k: nat)
    ensures k <= |stream|
    ensures forall j :: 0 <= j < k ==> stream[j].Ok? && Skipped(stream[j].value, expectedUuid, expectedSeq)
    ensures k < |stream| ==> stream[k].Err? || !Skipped(stream[k].value, expectedUuid, expectedSeq)
  {
    if stream == [] || stream[0].Err? || !Skipped(stream[0].value, expectedUuid, expectedSeq) then 0
    else 1 + Decisive(stream[1..], expectedUuid, expectedSeq)
  }

  /** How a stream ends the loop at index `k`. */
  function Outcome(stream: Stream, k: nat): Result<ParsedRpc> {
    if k >= |stream| || stream[k].Err? then Err
    else
      match ParseRpcResponse(stream[k].value)
      case Ok(Some(h)) => Ok(h)
      case _ => Err
  }

  /** The loop ends at the first datagram it does not skip. */
  method NextRpcResponse(stream: Stream, expectedUuid: Uuid, expectedSeq: u32) returns (r: Result<ParsedRpc>, k: nat)
    ensures k == Decisive(stream, expectedUuid, expectedSeq) && r == Outcome(stream, k)
    ensures r.Ok? ==> Matches(r.value, expectedUuid, expectedSeq) && r.value.packetType == PACKET_TYPE_RESPONSE
  {
    hide ParseRpcHeader, DrepNormalizedUuid;
    k := 0;
    while k < |stream|
      invariant k <= |stream|
      invariant forall j :: 0 <= j < k ==> stream[j].Ok? && Skipped(stream[j].value, expectedUuid, expectedSeq)
      invariant k <= Decisive(stream, expectedUuid, expectedSeq)
    {
      if stream[k].Err? {
        return Err, k;
      }
      var resp := ParseRpcResponse(stream[k].value);
      if resp.Err? {
        return Err, k;
      }
      if resp.value.Some? {
        var h := resp.value.value;
        if DrepNormalizedUuid(h.activityUuid, h.IsLittleEndian()) == expectedUuid && h.numbers.sequenceNumber == expectedSeq {
          return Ok(h), k;
        }
      }
      k := k + 1;
    }
    return Err, k;
  }

  // -------------------------------------------------------------------------
  // Byte order does not matter
  // -------------------------------------------------------------------------

  /** A packet as a sender of the given byte order puts it on the wire; `h` names the activity in
      big-endian form. */
  function InOrder(h: ParsedRpc, le: bool): ParsedRpc {
    h.(drep := [if le then 0x10 else 0x00, h.drep[1], h.drep[2]], activityUuid := DrepNormalizedUuid(h.activityUuid, le))
  }

  /** Whatever order the sender uses, its packet is skipped or taken by its type, its activity and its
      sequence number alone. */
  lemma ByteOrderDoesNotMatter(h: ParsedRpc, le: bool, expectedUuid: Uuid, expectedSeq: u32)
    ensures ParseRpcResponse(PacketBytes(InOrder(h, le)))
            == if h.packetType == PACKET_TYPE_REQUEST then Ok(None)
               else if h.packetType == PACKET_TYPE_RESPONSE then Ok(Some(InOrder(h, le)))
               else Err
    ensures Matches(InOrder(h, le), expectedUuid, expectedSeq) <==>
            h.activityUuid == expectedUuid && h.numbers.sequenceNumber == expectedSeq
  {
    hide DrepNormalizedUuid, PacketBytes, ParseRpcHeader;
    PacketRoundTrip(InOrder(h, le));
    NormalizingIsAnInvolution(h.activityUuid, le);
  }

  // -------------------------------------------------------------------------
  // Answering ApplicationReady
  // -------------------------------------------------------------------------

  const BLOCK_IOD_CONTROL_APP_READY_REQ: u16 := 0x0112
  const BLOCK_IOD_CONTROL_APP_READY_RES: u16 := 0x8112
  const CONTROL_CMD_DONE: u16 := 0x0008
  const OP_CONTROL: u16 := 4
  const RESPONSE_FLAGS: u8 := 0x0A

  function IodControlBlock(blockType: u16, arUuid: Uuid, sessionKey: u16, command: u16): (r: bytes)
    ensures |r| == 32
  {
    BlockHeader(blockType, 28) + Be16(0) + arUuid + Be16(sessionKey) + Be16(0) + Be16(command) + Be16(0)
  }

  datatype CControlRequest = CControlRequest(blockType: u16, controlCommand: u16, nrdBody: bytes)

  function ParseCControlRequest(h: ParsedRpc): Result<CControlRequest> {
    if h.packetType != PACKET_TYPE_REQUEST || h.numbers.operationNumber != OP_CONTROL then Err
    else
      match ParseNrd(h.payload, h.IsLittleEndian())
      case Err => Err
      case Ok(nrd) =>
        if |nrd.payload| < 32 then Err
        else Ok(CControlRequest(U16At(nrd.payload, 0), U16At(nrd.payload, 28), nrd.payload))
  }

  /** The array header of the answer; the maximum count echoes the request's. */
  function ResponseNrd(req: ParsedRpc, control: bytes): ParsedNrd {
    var len := AsU32(|control|);
    var maximum := match ParseNrd(req.payload, req.IsLittleEndian()) case Err => len case Ok(nrd) => nrd.maximumCount;
    ParsedNrd(0, len, maximum, 0, len, control)
  }

  function ResponseTo(req: ParsedRpc, arUuid: Uuid, sessionKey: u16): ParsedRpc {
    var control := IodControlBlock(BLOCK_IOD_CONTROL_APP_READY_RES, arUuid, sessionKey, CONTROL_CMD_DONE);
    var nrd := NrdBytes(ResponseNrd(req, control), req.IsLittleEndian());
    ParsedRpc(req.version, PACKET_TYPE_RESPONSE, RESPONSE_FLAGS, 0x00, req.drep, req.serialHigh,
              req.objectUuid, req.interfaceUuid, req.activityUuid,
              Numbers(0, req.numbers.interfaceVersion, req.numbers.sequenceNumber, req.numbers.operationNumber, 0xFFFF, 0xFFFF,
                      AsU16(|nrd|), 0),
              0x00, req.serialLow, nrd)
  }

  /** Built field by field in the request's byte order. */
  method CControlResponse(req: ParsedRpc, arUuid: Uuid, sessionKey: u16) returns (out: bytes)
    ensures out == PacketBytes(ResponseTo(req, arUuid, sessionKey))
  {
    hide ParseNrd, IodControlBlock, Wr16, Wr32;
    var le := req.IsLittleEndian();
    var control := IodControlBlock(BLOCK_IOD_CONTROL_APP_READY_RES, arUuid, sessionKey, CONTROL_CMD_DONE);
    var len := AsU32(|control|);
    var request := ParseNrd(req.payload, le);
    var maximum := if request.Ok? then request.value.maximumCount else len;
    var nrd := Wr32(0, le) + Wr32(len, le) + Wr32(maximum, le) + Wr32(0, le) + Wr32(len, le) + control;
    assert nrd == NrdBytes(ResponseNrd(req, control), le);
    out := [req.version, PACKET_TYPE_RESPONSE, RESPONSE_FLAGS, 0x00] + req.drep + [req.serialHigh];
    out := out + req.objectUuid + req.interfaceUuid + req.activityUuid;
    ghost var n := ResponseTo(req, arUuid, sessionKey).numbers;
    ghost var front := out;
    out := out + Wr32(0, le) + Wr32(req.numbers.interfaceVersion, le) + Wr32(req.numbers.sequenceNumber, le);
    out := out + Wr16(req.numbers.operationNumber, le) + Wr16(0xFFFF, le) + Wr16(0xFFFF, le) + Wr16(AsU16(|nrd|), le) + Wr16(0, le);
    assert out == front + NumberBytes(n, le);
    out := out + [0x00, req.serialLow];
    out := out + nrd;
  }

  /** A final, unfragmented response without authentication that gives back the request's version, data
      representation, serial number, UUIDs, interface version, sequence number and operation. */
  predicate EchoesRequest(h: ParsedRpc, req: ParsedRpc) {
    && h.packetType == 2 && h.flags1 == 0x0A && h.flags2 == 0 && h.authProtocol == 0
    && h.version == req.version && h.drep == req.drep && h.serialHigh == req.serialHigh && h.serialLow == req.serialLow
    && h.objectUuid == req.objectUuid && h.interfaceUuid == req.interfaceUuid && h.activityUuid == req.activityUuid
    && h.numbers.interfaceVersion == req.numbers.interfaceVersion && h.numbers.sequenceNumber == req.numbers.sequenceNumber
    && h.numbers.operationNumber == req.numbers.operationNumber
    && h.numbers.serverBootTime == 0 && h.numbers.interfaceHint == 0xFFFF && h.numbers.activityHint == 0xFFFF
    && h.numbers.fragmentNumber == 0
  }

  /** The answer to any request, in either byte order, is a response the caller's own matching accepts
      for that request, echoes it, and says DONE with status zero to the AR and session. */
  lemma ResponseIsAccepted(req: ParsedRpc, arUuid: Uuid, sessionKey: u16)
    ensures var le := req.IsLittleEndian();
            var answer := ParseRpcResponse(PacketBytes(ResponseTo(req, arUuid, sessionKey)));
            && answer.Ok? && answer.value.Some?
            && Matches(answer.value.value, DrepNormalizedUuid(req.activityUuid, le), req.numbers.sequenceNumber)
            && EchoesRequest(answer.value.value, req)
            && answer.value.value.numbers.lengthOfBody == |answer.value.value.payload| == 52
            && var nrd := ParseNrd(answer.value.value.payload, le);
               && nrd.Ok? && nrd.value.argsStatus == 0 && nrd.value.offset == 0
               && |nrd.value.payload| == nrd.value.argsLength == nrd.value.actualCount == 32
               && nrd.value.maximumCount == (match ParseNrd(req.payload, le) case Ok(n) => n.maximumCount case Err => 32)
               && U16At(nrd.value.payload, 0) == 0x8112 && U16At(nrd.value.payload, 28) == 8
               && nrd.value.payload[8..24] == arUuid && U16At(nrd.value.payload, 24) == sessionKey
  {
    hide PacketBytes, ParseRpcHeader, ParseNrd, DrepNormalizedUuid, IodControlBlock, NrdBytes;
    var le := req.IsLittleEndian();
    var control := IodControlBlock(BLOCK_IOD_CONTROL_APP_READY_RES, arUuid, sessionKey, CONTROL_CMD_DONE);
    ControlBlockFields(BLOCK_IOD_CONTROL_APP_READY_RES, arUuid, sessionKey, CONTROL_CMD_DONE);
    NrdSize(ResponseNrd(req, control), le);
    PacketRoundTrip(ResponseTo(req, arUuid, sessionKey));
    NrdRoundTrip(ResponseNrd(req, control), le);
  }

  lemma NrdSize(n: ParsedNrd, le: bool)
    ensures |NrdBytes(n, le)| == 20 + |n.payload|
  {}

  lemma ControlBlockFields(blockType: u16, arUuid: Uuid, sessionKey: u16, command: u16)
    ensures var b := IodControlBlock(blockType, arUuid, sessionKey, command);
            && |b| == 32 && U16At(b, 0) == blockType && b[8..24] == arUuid
            && U16At(b, 24) == sessionKey && U16At(b, 28) == command
            && b[2..8] == [0, 28, 1, 0, 0, 0] && b[26..28] == b[30..] == [0, 0]
  {
    var b := IodControlBlock(blockType, arUuid, sessionKey, command);
    var tail := Be16(sessionKey) + Be16(0) + Be16(command) + Be16(0);
    assert b == (BlockHeader(blockType, 28) + Be16(0)) + arUuid + tail;
    assert b[8..24] == arUuid && b[24..] == tail;
    assert b[24] == tail[0] && b[25] == tail[1] && b[28] == tail[4] && b[29] == tail[5];
  }

  /** A device that waits for the answer to its call takes it from among any requests and foreign
      responses that arrive first, whatever arrives behind it. */
  lemma AnswerIsTaken(stream: Stream, k: nat, req: ParsedRpc, arUuid: Uuid, sessionKey: u16)
    requires k < |stream| && stream[k] == Ok(PacketBytes(ResponseTo(req, arUuid, sessionKey)))
    requires var uuid, seqNo := DrepNormalizedUuid(req.activityUuid, req.IsLittleEndian()), req.numbers.sequenceNumber;
             forall j :: 0 <= j < k ==> stream[j].Ok? && Skipped(stream[j].value, uuid, seqNo)
    ensures Decisive(stream, DrepNormalizedUuid(req.activityUuid, req.IsLittleEndian()), req.numbers.sequenceNumber) == k
    ensures Outcome(stream, k) == Ok(ResponseTo(req, arUuid, sessionKey))
  {
    hide PacketBytes, ParseRpcHeader, DrepNormalizedUuid, IodControlBlock, NrdBytes, Decisive;
    PacketRoundTrip(ResponseTo(req, arUuid, sessionKey));
  }

  // -------------------------------------------------------------------------
  // The device's call
  // -------------------------------------------------------------------------

  /** A received datagram as the device's ApplicationReady; anything else is skipped. */
  function ExtractAppReady(data: bytes): Option<(ParsedRpc, CControlRequest)> {
    match ParseRpcHeader(data)
    case None => None
    case Some(h) =>
      match ParseCControlRequest(h)
      case Err => None
      case Ok(cc) => if cc.blockType == BLOCK_IOD_CONTROL_APP_READY_REQ then Some((h, cc)) else None
  }

  /** Reading undoes every control request of a device, in either byte order and with anything behind the
      control block, and exactly requests to the control operation that say ApplicationReady count. */
  lemma ControlRequestReadsBack(h: ParsedRpc, nrd: ParsedNrd, blockType: u16, arUuid: Uuid, sessionKey: u16, command: u16, more: bytes)
    requires nrd.payload == IodControlBlock(blockType, arUuid, sessionKey, command) + more
    requires h.payload == NrdBytes(nrd, h.IsLittleEndian())
    ensures ExtractAppReady(PacketBytes(h)) ==
            if h.packetType == 0 && h.numbers.operationNumber == 4 && blockType == 0x0112
            then Some((h, CControlRequest(blockType, command, nrd.payload))) else None
  {
    hide PacketBytes, ParseRpcHeader, IodControlBlock, NrdBytes, ParseNrd, U16At;
    PacketRoundTrip(h);
    NrdRoundTrip(nrd, h.IsLittleEndian());
    ControlBlockFields(blockType, arUuid, sessionKey, command);
    ControlFieldsInFront(IodControlBlock(blockType, arUuid, sessionKey, command), more);
  }

  lemma ControlFieldsInFront(block: bytes, more: bytes)
    requires |block| == 32
    ensures U16At(block + more, 0) == U16At(block, 0) && U16At(block + more, 28) == U16At(block, 28)
  {}
}
