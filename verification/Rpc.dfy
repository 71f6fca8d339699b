/** DCE/RPC framing (src/rpc.rs, the header parsers of src/transport.rs; chapter 12 of The Open Group
    C706): the connectionless header in either byte order, the NRD array header, and the IOD record. */
module Rpc {
  import opened Bytes
  import opened Wrappers

  const PACKET_TYPE_REQUEST: u8 := 0x00
  const PACKET_TYPE_RESPONSE: u8 := 0x02
  const RPC_FLAGS1_IDEMPOTENT: u8 := 0x20
  const OP_READ: u16 := 2
  const OP_WRITE: u16 := 3
  const OP_IMPLICIT_READ: u16 := 5

  type Drep = b: bytes | |b| == 3 witness [0, 0, 0]

  // -------------------------------------------------------------------------
  // Fields in either byte order
  // -------------------------------------------------------------------------

  function Wr16(v: u16, le: bool): (r: bytes)
    ensures |r| == 2
  {
    if le then [v % 0x100, v / 0x100] else Be16(v)
  }

  function Wr32(v: u32, le: bool): (r: bytes)
    ensures |r| == 4
  {
    if le then [v % 0x100, v / 0x100 % 0x100, v / 0x1_0000 % 0x100, v / 0x100_0000] else Be32(v)
  }

  function Rd16(data: bytes, at: nat, le: bool): u16
    requires at + 2 <= |data|
  {
    if le then U16At([data[at + 1], data[at]], 0) else U16At(data, at)
  }

  function Rd32(data: bytes, at: nat, le: bool): u32
    requires at + 4 <= |data|
  {
    if le then U32At([data[at + 3], data[at + 2], data[at + 1], data[at]], 0) else U32At(data, at)
  }

  lemma Field16(pre: bytes, v: u16, le: bool, post: bytes)
    ensures Rd16(pre + Wr16(v, le) + post, |pre|, le) == v
  {
    var data := pre + Wr16(v, le) + post;
    assert data[|pre|] == Wr16(v, le)[0] && data[|pre| + 1] == Wr16(v, le)[1];
  }

  lemma Field32(pre: bytes, v: u32, le: bool, post: bytes)
    ensures Rd32(pre + Wr32(v, le) + post, |pre|, le) == v
  {
    var data, w := pre + Wr32(v, le) + post, Wr32(v, le);
    assert data[|pre|] == w[0] && data[|pre| + 1] == w[1] && data[|pre| + 2] == w[2] && data[|pre| + 3] == w[3];
    if le {
      Be32At([w[3], w[2], w[1], w[0]], 0, v);
    } else {
      Be32At(w, 0, v);
    }
  }

  // -------------------------------------------------------------------------
  // The RPC header
  // -------------------------------------------------------------------------

  /** The multi-byte numbers of a header. */
  datatype Numbers = Numbers(
    serverBootTime: u32, interfaceVersion: u32, sequenceNumber: u32,
    operationNumber: u16, interfaceHint: u16, activityHint: u16, lengthOfBody: u16, fragmentNumber: u16)

  datatype ParsedRpc = ParsedRpc(
    version: u8, packetType: u8, flags1: u8, flags2: u8, drep: Drep, serialHigh: u8,
    objectUuid: Uuid, interfaceUuid: Uuid, activityUuid: Uuid, numbers: Numbers, authProtocol: u8, serialLow: u8,
    payload: bytes)
  {
    /** Bit 4 of the first DREP byte. */
    predicate IsLittleEndian() { drep[0] / 0x10 % 2 == 1 }
  }

  function ParseRpcHeader(data: bytes): Option<ParsedRpc> {
    if |data| < 80 then None
    else
      var le := data[4] / 0x10 % 2 == 1;
      Some(ParsedRpc(data[0], data[1], data[2], data[3], data[4..7], data[7], data[8..24], data[24..40], data[40..56],
                     NumbersAt(data, 56, le), data[78], data[79], data[80..]))
  }

  function NumbersAt(data: bytes, at: nat, le: bool): Numbers
    requires at + 22 <= |data|
  {
    Numbers(Rd32(data, at, le), Rd32(data, at + 4, le), Rd32(data, at + 8, le), Rd16(data, at + 12, le), Rd16(data, at + 14, le),
            Rd16(data, at + 16, le), Rd16(data, at + 18, le), Rd16(data, at + 20, le))
  }

  function NumberBytes(n: Numbers, le: bool): (r: bytes)
    ensures |r| == 22
  {
    Wr32(n.serverBootTime, le) + Wr32(n.interfaceVersion, le) + Wr32(n.sequenceNumber, le) + Wr16(n.operationNumber, le)
    + Wr16(n.interfaceHint, le) + Wr16(n.activityHint, le) + Wr16(n.lengthOfBody, le) + Wr16(n.fragmentNumber, le)
  }

  /** A packet in the byte order its own DREP names. */
  function PacketBytes(h: ParsedRpc): (r: bytes)
    ensures |r| == 80 + |h.payload|
  {
    [h.version, h.packetType, h.flags1, h.flags2] + h.drep + [h.serialHigh] + h.objectUuid + h.interfaceUuid + h.activityUuid
    + NumberBytes(h.numbers, h.IsLittleEndian()) + [h.authProtocol, h.serialLow] + h.payload
  }

  lemma NumbersReadBack(pre: bytes, n: Numbers, le: bool, post: bytes)
    ensures NumbersAt(pre + NumberBytes(n, le) + post, |pre|, le) == n
  {
    hide Wr16, Wr32, Rd16, Rd32, NumberBytes;
    var data := pre + NumberBytes(n, le) + post;
    var longs := Wr32(n.serverBootTime, le) + Wr32(n.interfaceVersion, le) + Wr32(n.sequenceNumber, le);
    var shorts := Wr16(n.operationNumber, le) + Wr16(n.interfaceHint, le) + Wr16(n.activityHint, le) + Wr16(n.lengthOfBody, le)
      + Wr16(n.fragmentNumber, le);
    NumberHalves(n, le);
    assert data == pre + longs + (shorts + post);
    LongsReadBack(data, pre, n, le, shorts + post);
    assert data == (pre + longs) + shorts + post;
    ShortsReadBack(data, pre + longs, n, le, post);
  }

  lemma NumberHalves(n: Numbers, le: bool)
    ensures var longs := Wr32(n.serverBootTime, le) + Wr32(n.interfaceVersion, le) + Wr32(n.sequenceNumber, le);
            var shorts := Wr16(n.operationNumber, le) + Wr16(n.interfaceHint, le) + Wr16(n.activityHint, le) + Wr16(n.lengthOfBody, le)
              + Wr16(n.fragmentNumber, le);
            |longs| == 12 && |shorts| == 10 && NumberBytes(n, le) == longs + shorts
  {
    hide Wr16, Wr32;
    FieldSizes(n.serverBootTime, n.interfaceVersion, n.sequenceNumber, le);
    FieldSizes16(n.operationNumber, n.interfaceHint, n.activityHint, le);
    FieldSizes16(n.lengthOfBody, n.fragmentNumber, 0, le);
  }

  lemma LongsReadBack(data: bytes, pre: bytes, n: Numbers, le: bool, post: bytes)
    requires data == pre + (Wr32(n.serverBootTime, le) + Wr32(n.interfaceVersion, le) + Wr32(n.sequenceNumber, le)) + post
    ensures var at := |pre|;
            && |data| >= at + 12 && Rd32(data, at, le) == n.serverBootTime && Rd32(data, at + 4, le) == n.interfaceVersion
            && Rd32(data, at + 8, le) == n.sequenceNumber
  {
    hide Wr32, Rd32;
    var a, b, c := Wr32(n.serverBootTime, le), Wr32(n.interfaceVersion, le), Wr32(n.sequenceNumber, le);
    FieldSizes(n.serverBootTime, n.interfaceVersion, n.sequenceNumber, le);
    assert data == pre + a + (b + c + post);
    Field32(pre, n.serverBootTime, le, b + c + post);
    assert data == (pre + a) + b + (c + post);
    Field32(pre + a, n.interfaceVersion, le, c + post);
    assert data == (pre + a + b) + c + post;
    Field32(pre + a + b, n.sequenceNumber, le, post);
  }

  lemma ShortsReadBack(data: bytes, pre: bytes, n: Numbers, le: bool, post: bytes)
    requires data == pre + (Wr16(n.operationNumber, le) + Wr16(n.interfaceHint, le) + Wr16(n.activityHint, le)
                            + Wr16(n.lengthOfBody, le) + Wr16(n.fragmentNumber, le)) + post
    ensures var at := |pre|;
            && |data| >= at + 10 && Rd16(data, at, le) == n.operationNumber && Rd16(data, at + 2, le) == n.interfaceHint
            && Rd16(data, at + 4, le) == n.activityHint && Rd16(data, at + 6, le) == n.lengthOfBody
            && Rd16(data, at + 8, le) == n.fragmentNumber
  {
    hide Wr16, Rd16;
    var d, e, f := Wr16(n.operationNumber, le), Wr16(n.interfaceHint, le), Wr16(n.activityHint, le);
    var g, h := Wr16(n.lengthOfBody, le), Wr16(n.fragmentNumber, le);
    FieldSizes16(n.operationNumber, n.interfaceHint, n.activityHint, le);
    FieldSizes16(n.lengthOfBody, n.fragmentNumber, 0, le);
    assert data == pre + d + (e + f + g + h + post);
    Field16(pre, n.operationNumber, le, e + f + g + h + post);
    assert data == (pre + d) + e + (f + g + h + post);
    Field16(pre + d, n.interfaceHint, le, f + g + h + post);
    assert data == (pre + d + e) + f + (g + h + post);
    Field16(pre + d + e, n.activityHint, le, g + h + post);
    assert data == (pre + d + e + f) + g + (h + post);
    Field16(pre + d + e + f, n.lengthOfBody, le, h + post);
    assert data == (pre + d + e + f + g) + h + post;
    Field16(pre + d + e + f + g, n.fragmentNumber, le, post);
  }

  lemma FieldSizes(a: u32, b: u32, c: u32, le: bool)
    ensures |Wr32(a, le)| == |Wr32(b, le)| == |Wr32(c, le)| == 4
  {}

  lemma FieldSizes16(a: u16, b: u16, c: u16, le: bool)
    ensures |Wr16(a, le)| == |Wr16(b, le)| == |Wr16(c, le)| == 2
  {}

  lemma PacketParts(h: ParsedRpc)
    ensures |NumberBytes(h.numbers, h.IsLittleEndian())| == 22
    ensures PacketBytes(h) == ([h.version, h.packetType, h.flags1, h.flags2] + h.drep + [h.serialHigh])
                              + (h.objectUuid + h.interfaceUuid + h.activityUuid) + NumberBytes(h.numbers, h.IsLittleEndian())
                              + ([h.authProtocol, h.serialLow] + h.payload)
  {
    hide NumberBytes;
    assert |NumberBytes(h.numbers, h.IsLittleEndian())| == 22 by { hide *; NumberSize(h.numbers, h.IsLittleEndian()); }
  }

  lemma PartsOf(head: bytes, ids: bytes, numbers: bytes, tail: bytes)
    requires |head| == 8 && |ids| == 48 && |numbers| == 22 && |tail| >= 2
    ensures var data := head + ids + numbers + tail;
            && data[0] == head[0] && data[1] == head[1] && data[2] == head[2] && data[3] == head[3] && data[4] == head[4] && data[7] == head[7]
            && data[4..7] == head[4..7]
            && data[8..24] == ids[..16] && data[24..40] == ids[16..32] && data[40..56] == ids[32..]
            && data[78] == tail[0] && data[79] == tail[1] && data[80..] == tail[2..]
  {}

  /** Every packet, in either byte order, parses back to its header and payload. */
  lemma PacketRoundTrip(h: ParsedRpc)
    ensures ParseRpcHeader(PacketBytes(h)) == Some(h)
  {
    hide NumberBytes, NumbersAt, PacketBytes;
    var data, le := PacketBytes(h), h.IsLittleEndian();
    var head := [h.version, h.packetType, h.flags1, h.flags2] + h.drep + [h.serialHigh];
    var ids := h.objectUuid + h.interfaceUuid + h.activityUuid;
    var numbers := NumberBytes(h.numbers, le);
    var tail := [h.authProtocol, h.serialLow] + h.payload;
    PacketParts(h);
    assert data == (head + ids) + numbers + tail;
    NumbersReadBack(head + ids, h.numbers, le, tail);
    PartsOf(head, ids, numbers, tail);
    assert head[4..7] == h.drep && head[4] == h.drep[0] && tail[2..] == h.payload;
    assert ids[..16] == h.objectUuid && ids[16..32] == h.interfaceUuid && ids[32..] == h.activityUuid;
  }

  lemma NumberSize(n: Numbers, le: bool)
    ensures |NumberBytes(n, le)| == 22
  {}

  // -------------------------------------------------------------------------
  // NRD
  // -------------------------------------------------------------------------

  datatype ParsedNrd = ParsedNrd(argsStatus: u32, argsLength: u32, maximumCount: u32, offset: u32, actualCount: u32, payload: bytes)

  function ParseNrd(data: bytes, le: bool): Result<ParsedNrd> {
    if |data| < 20 then Err
    else Ok(ParsedNrd(Rd32(data, 0, le), Rd32(data, 4, le), Rd32(data, 8, le), Rd32(data, 12, le), Rd32(data, 16, le), data[20..]))
  }

  function NrdBytes(n: ParsedNrd, le: bool): (r: bytes)
    ensures |r| == 20 + |n.payload|
  {
    Wr32(n.argsStatus, le) + Wr32(n.argsLength, le) + Wr32(n.maximumCount, le) + Wr32(n.offset, le) + Wr32(n.actualCount, le) + n.payload
  }

  /** The array header parses back in the byte order it was written in. */
  lemma NrdRoundTrip(n: ParsedNrd, le: bool)
    ensures ParseNrd(NrdBytes(n, le), le) == Ok(n)
  {
    hide Wr32, Rd32;
    var a, b, c := Wr32(n.argsStatus, le), Wr32(n.argsLength, le), Wr32(n.maximumCount, le);
    var d, e, p := Wr32(n.offset, le), Wr32(n.actualCount, le), n.payload;
    var data := NrdBytes(n, le);
    assert |a| == |b| == |c| == |d| == |e| == 4 by {
      hide *;
      FieldSizes(n.argsStatus, n.argsLength, n.maximumCount, le);
      FieldSizes(n.offset, n.actualCount, 0, le);
    }
    assert data == [] + a + (b + c + d + e + p);
    Field32([], n.argsStatus, le, b + c + d + e + p);
    assert data == a + b + (c + d + e + p);
    Field32(a, n.argsLength, le, c + d + e + p);
    assert data == (a + b) + c + (d + e + p);
    Field32(a + b, n.maximumCount, le, d + e + p);
    assert data == (a + b + c) + d + (e + p);
    Field32(a + b + c, n.offset, le, e + p);
    assert data == (a + b + c + d) + e + p;
    Field32(a + b + c + d, n.actualCount, le, p);
  }

  const NDR_ARGS_MAXIMUM := 4000

  /** The header of a request: what it may return is at least what it sends. */
  function RequestNrd(payload: bytes): ParsedNrd {
    var len := AsU32(|payload|);
    ParsedNrd(Max(NDR_ARGS_MAXIMUM, len), len, Max(NDR_ARGS_MAXIMUM, len), 0, len, payload)
  }

  function Nrd(payload: bytes): bytes {
    NrdBytes(RequestNrd(payload), false)
  }

  // -------------------------------------------------------------------------
  // Requests
  // -------------------------------------------------------------------------

  function RequestHeader(objectUuid: Uuid, ifaceUuid: Uuid, activityUuid: Uuid, seqNo: u32, operation: u16, body: bytes): ParsedRpc {
    ParsedRpc(0x04, PACKET_TYPE_REQUEST, RPC_FLAGS1_IDEMPOTENT, 0x00, [0, 0, 0], 0, objectUuid, ifaceUuid, activityUuid,
              Numbers(0, 1, seqNo, operation, 0xFFFF, 0xFFFF, AsU16(|body|), 0), 0, 0, body)
  }

  function RpcRequest(objectUuid: Uuid, ifaceUuid: Uuid, activityUuid: Uuid, seqNo: u32, operation: u16, body: bytes): bytes {
    PacketBytes(RequestHeader(objectUuid, ifaceUuid, activityUuid, seqNo, operation, body))
  }

  // -------------------------------------------------------------------------
  // The IOD record (src/blocks.rs)
  // -------------------------------------------------------------------------

  const IOD_READ_REQUEST_HEADER: u16 := 0x0009
  const IOD_WRITE_REQUEST_HEADER: u16 := 0x0008

  datatype ParsedIod = ParsedIod(
    blockType: u16, blockLength: u16, sequenceNumber: u16, arUuid: Uuid, api: u32, slot: u16, subslot: u16, index: u16,
    length: u32, payload: bytes)

  function ParseIodHeader(data: bytes): Result<ParsedIod> {
    if |data| < 64 then Err
    else Ok(ParsedIod(U16At(data, 0), U16At(data, 2), U16At(data, 6), data[8..24], U32At(data, 24), U16At(data, 28),
                      U16At(data, 30), U16At(data, 34), U32At(data, 36), data[64..]))
  }

  /** 64 fixed bytes; the block length never counts the payload. */
  function PniodHeader(blockType: u16, seqNo: u16, arUuid: Uuid, api: u32, slot: u16, subslot: u16, index: u16, length: u32,
                       payload: bytes): (r: bytes)
    ensures |r| == 64 + |payload|
  {
    BlockHeader(blockType, 60) + Be16(seqNo) + arUuid
    + (Be32(api) + Be16(slot) + Be16(subslot) + Be16(0) + Be16(index) + Be32(length)) + Zeros(16) + Zeros(8) + payload
  }

  lemma IodRoundTrip(blockType: u16, seqNo: u16, arUuid: Uuid, api: u32, slot: u16, subslot: u16, index: u16, length: u32,
                     payload: bytes)
    ensures ParseIodHeader(PniodHeader(blockType, seqNo, arUuid, api, slot, subslot, index, length, payload))
            == Ok(ParsedIod(blockType, 60, seqNo, arUuid, api, slot, subslot, index, length, payload))
    ensures var data := PniodHeader(blockType, seqNo, arUuid, api, slot, subslot, index, length, payload);
            data[4..6] == [1, 0] && data[32..34] == [0, 0] && data[40..64] == Zeros(24)
  {
    hide PniodHeader, Be16, Be32, U16At, U32At;
    var data := PniodHeader(blockType, seqNo, arUuid, api, slot, subslot, index, length, payload);
    IodParts(blockType, seqNo, arUuid, api, slot, subslot, index, length, payload);
    var head, address := data[..8], data[24..40];
    HeadReadsBack(blockType, seqNo);
    AddressReadsBack(api, slot, subslot, index, length);
    Shifted(data, 24, address);
    Shifted(data, 0, head);
    SliceOfSlice(data, 0, 8, 4, 6);
    SliceOfSlice(data, 24, 40, 8, 10);
  }

  lemma SliceOfSlice(data: bytes, from: nat, to: nat, a: nat, b: nat)
    requires from <= to <= |data| && a <= b <= to - from
    ensures data[from..to][a..b] == data[from + a..from + b]
  {
    var part, inner := data[from..to], data[from + a..from + b];
    assert forall k :: 0 <= k < b - a ==> part[a..b][k] == part[a + k] == inner[k];
    assert part[a..b] == inner;
  }

  lemma IodParts(blockType: u16, seqNo: u16, arUuid: Uuid, api: u32, slot: u16, subslot: u16, index: u16, length: u32, payload: bytes)
    ensures var data := PniodHeader(blockType, seqNo, arUuid, api, slot, subslot, index, length, payload);
            && data[..8] == BlockHeader(blockType, 60) + Be16(seqNo) && data[8..24] == arUuid
            && data[24..40] == Be32(api) + Be16(slot) + Be16(subslot) + Be16(0) + Be16(index) + Be32(length)
            && data[40..64] == Zeros(24) && data[64..] == payload
  {
    hide BlockHeader, Be16, Be32;
    var data := PniodHeader(blockType, seqNo, arUuid, api, slot, subslot, index, length, payload);
    var head, address := BlockHeader(blockType, 60) + Be16(seqNo), Be32(api) + Be16(slot) + Be16(subslot) + Be16(0) + Be16(index) + Be32(length);
    assert Zeros(16) + Zeros(8) == Zeros(24);
    assert data == head + arUuid + address + Zeros(24) + payload;
  }

  lemma HeadReadsBack(blockType: u16, seqNo: u16)
    ensures var h := BlockHeader(blockType, 60) + Be16(seqNo);
            |h| == 8 && U16At(h, 0) == blockType && U16At(h, 2) == 60 && h[4..6] == [1, 0] && U16At(h, 6) == seqNo
  {
    hide Be16, U16At;
    var a, b, c, version: bytes := Be16(blockType), Be16(60), Be16(seqNo), [1, 0];
    var h := BlockHeader(blockType, 60) + c;
    assert h == [] + a + (b + version + c);
    Read16(h, [], blockType, b + version + c);
    assert h == a + b + (version + c);
    Read16(h, a, 60, version + c);
    assert h == (a + b + version) + c + [];
    Read16(h, a + b + version, seqNo, []);
  }

  lemma AddressReadsBack(api: u32, slot: u16, subslot: u16, index: u16, length: u32)
    ensures var a := Be32(api) + Be16(slot) + Be16(subslot) + Be16(0) + Be16(index) + Be32(length);
            && |a| == 16 && U32At(a, 0) == api && U16At(a, 4) == slot && U16At(a, 6) == subslot && U16At(a, 10) == index
            && U32At(a, 12) == length && a[8..10] == [0, 0]
  {
    var a := Be32(api) + Be16(slot) + Be16(subslot) + Be16(0) + Be16(index) + Be32(length);
    assert a[0..4] == Be32(api) && a[4..6] == Be16(slot) && a[6..8] == Be16(subslot) && a[10..12] == Be16(index) && a[12..16] == Be32(length);
    Be32At(a, 0, api);
    Be16At(a, 4, slot);
    Be16At(a, 6, subslot);
    Be16At(a, 10, index);
    Be32At(a, 12, length);
  }

  /** Fields of a part are fields of the whole. */
  lemma Shifted(data: bytes, at: nat, part: bytes)
    requires at + |part| <= |data| && data[at..at + |part|] == part
    ensures forall k :: 0 <= k && k + 2 <= |part| ==> U16At(data, at + k) == U16At(part, k)
    ensures forall k :: 0 <= k && k + 4 <= |part| ==> U32At(data, at + k) == U32At(part, k)
  {
    assert forall k :: 0 <= k < |part| ==> part[k] == data[at + k];
  }

  function IodReadRequest(arUuid: Uuid, api: u32, slot: u16, subslot: u16, index: u16, length: u32): bytes {
    PniodHeader(IOD_READ_REQUEST_HEADER, 0, arUuid, api, slot, subslot, index, length, [])
  }

  function IodWriteRequest(arUuid: Uuid, api: u32, slot: u16, subslot: u16, index: u16, payload: bytes): bytes {
    PniodHeader(IOD_WRITE_REQUEST_HEADER, 0, arUuid, api, slot, subslot, index, AsU32(|payload|), payload)
  }

  /** Where a request goes. */
  datatype Call = Call(objectUuid: Uuid, ifaceUuid: Uuid, activityUuid: Uuid, arUuid: Uuid, seqNo: u32)

  function ReadRecordRequest(c: Call, api: u32, slot: u16, subslot: u16, index: u16, length: u32): bytes {
    RpcRequest(c.objectUuid, c.ifaceUuid, c.activityUuid, c.seqNo, OP_READ, Nrd(IodReadRequest(c.arUuid, api, slot, subslot, index, length)))
  }

  /** An implicit read names no AR. */
  function ReadRecordImplicitRequest(c: Call, api: u32, slot: u16, subslot: u16, index: u16, length: u32): bytes {
    RpcRequest(c.objectUuid, c.ifaceUuid, c.activityUuid, c.seqNo, OP_IMPLICIT_READ,
               Nrd(IodReadRequest(Zeros(16), api, slot, subslot, index, length)))
  }

  function WriteRecordRequest(c: Call, api: u32, slot: u16, subslot: u16, index: u16, payload: bytes): bytes {
    RpcRequest(c.objectUuid, c.ifaceUuid, c.activityUuid, c.seqNo, OP_WRITE, Nrd(IodWriteRequest(c.arUuid, api, slot, subslot, index, payload)))
  }

  /** The three parsers one after the other: header, array header in the header's byte order, record. */
  function ParseRequest(data: bytes): Option<(ParsedRpc, ParsedNrd, ParsedIod)> {
    match ParseRpcHeader(data)
    case None => None
    case Some(h) =>
      match ParseNrd(h.payload, h.IsLittleEndian())
      case Err => None
      case Ok(n) =>
        match ParseIodHeader(n.payload)
        case Err => None
        case Ok(iod) => Some((h, n, iod))
  }

  /** The header of every request as its receiver reads it: version 4, idempotent, big-endian, interface version
      1, no hints, one fragment, no authentication, and the length of the body. */
  lemma RequestHeaderReadsBack(objectUuid: Uuid, ifaceUuid: Uuid, activityUuid: Uuid, seqNo: u32, operation: u16, body: bytes)
    requires |body| <= 0xFFFF
    ensures ParseRpcHeader(RpcRequest(objectUuid, ifaceUuid, activityUuid, seqNo, operation, body))
            == Some(ParsedRpc(4, 0, 0x20, 0, [0, 0, 0], 0, objectUuid, ifaceUuid, activityUuid,
                              Numbers(0, 1, seqNo, operation, 0xFFFF, 0xFFFF, |body|, 0), 0, 0, body))
  {
    hide PacketBytes, ParseRpcHeader;
    PacketRoundTrip(RequestHeader(objectUuid, ifaceUuid, activityUuid, seqNo, operation, body));
  }

  /** A framed record comes apart into exactly the header, array header and record it was made from. */
  lemma FramedRecordParses(c: Call, operation: u16, record: bytes)
    ensures ParseRequest(RpcRequest(c.objectUuid, c.ifaceUuid, c.activityUuid, c.seqNo, operation, Nrd(record)))
            == match ParseIodHeader(record)
               case Err => None
               case Ok(iod) => Some((RequestHeader(c.objectUuid, c.ifaceUuid, c.activityUuid, c.seqNo, operation, Nrd(record)), RequestNrd(record), iod))
  {
    hide PacketBytes, ParseRpcHeader, NrdBytes, ParseNrd, ParseIodHeader;
    PacketRoundTrip(RequestHeader(c.objectUuid, c.ifaceUuid, c.activityUuid, c.seqNo, operation, Nrd(record)));
    NrdRoundTrip(RequestNrd(record), false);
  }

  /** Parsing undoes every read, implicit read and write request. */
  lemma RequestsRoundTrip(c: Call, api: u32, slot: u16, subslot: u16, index: u16, length: u32, payload: bytes)
    ensures var r := ParseRequest(ReadRecordRequest(c, api, slot, subslot, index, length));
            && r.Some? && r.value.0.numbers.operationNumber == 2 && r.value.0.numbers.sequenceNumber == c.seqNo
            && r.value.0.activityUuid == c.activityUuid
            && r.value.2 == ParsedIod(0x0009, 60, 0, c.arUuid, api, slot, subslot, index, length, [])
    ensures var r := ParseRequest(ReadRecordImplicitRequest(c, api, slot, subslot, index, length));
            && r.Some? && r.value.0.numbers.operationNumber == 5 && r.value.0.numbers.sequenceNumber == c.seqNo
            && r.value.2 == ParsedIod(0x0009, 60, 0, Zeros(16), api, slot, subslot, index, length, [])
    ensures var r := ParseRequest(WriteRecordRequest(c, api, slot, subslot, index, payload));
            && r.Some? && r.value.0.numbers.operationNumber == 3 && r.value.0.numbers.sequenceNumber == c.seqNo
            && r.value.0.activityUuid == c.activityUuid
            && r.value.2 == ParsedIod(0x0008, 60, 0, c.arUuid, api, slot, subslot, index, AsU32(|payload|), payload)
  {
    hide ParseRequest, RpcRequest, Nrd, ParseIodHeader, PniodHeader;
    FramedRecordParses(c, OP_READ, IodReadRequest(c.arUuid, api, slot, subslot, index, length));
    IodRoundTrip(IOD_READ_REQUEST_HEADER, 0, c.arUuid, api, slot, subslot, index, length, []);
    FramedRecordParses(c, OP_IMPLICIT_READ, IodReadRequest(Zeros(16), api, slot, subslot, index, length));
    IodRoundTrip(IOD_READ_REQUEST_HEADER, 0, Zeros(16), api, slot, subslot, index, length, []);
    FramedRecordParses(c, OP_WRITE, IodWriteRequest(c.arUuid, api, slot, subslot, index, payload));
    IodRoundTrip(IOD_WRITE_REQUEST_HEADER, 0, c.arUuid, api, slot, subslot, index, AsU32(|payload|), payload);
  }

  /** A request never asks for less than it sends, so a device that checks the limits takes it. */
  lemma RequestCountsAreConsistent(payload: bytes)
    requires |payload| < 0x1_0000_0000
    ensures var n := RequestNrd(payload);
            && n.argsLength == n.actualCount == |payload| && n.offset == 0 && n.payload == payload
            && n.argsStatus == n.maximumCount == if |payload| < 4000 then 4000 else |payload|
  {}
}
