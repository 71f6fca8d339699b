/** The response walks of DCP (src/dcp.rs): answers to Get and to Identify. Texts are kept as bytes. */
module Dcp {
  import opened Bytes
  import opened Wrappers
  import opened Ethernet

  const DCP_IDENTIFY_RESPONSE_FRAME_ID: u16 := 0xFEFF
  const DCP_GET_SET_FRAME_ID: u16 := 0xFEFD
  const DCP_RESPONSE_SUCCESS: u8 := 0x01
  const DCP_OPTION_IP: u8 := 0x01
  const DCP_OPTION_DEVICE: u8 := 0x02
  const DCP_SUBOPTION_IP_PARAMETER: u8 := 0x02
  const DCP_SUBOPTION_DEVICE_TYPE: u8 := 0x01
  const DCP_SUBOPTION_DEVICE_NAME: u8 := 0x02
  const DCP_SUBOPTION_DEVICE_ID: u8 := 0x03
  const DCP_SUBOPTION_DEVICE_ROLE: u8 := 0x04

  /** A response block: what it is about, its BlockInfo word, its payload. */
  datatype Block = Block(option: u8, suboption: u8, info: u16, payload: bytes)

  // -------------------------------------------------------------------------
  // The walk both parsers do
  // -------------------------------------------------------------------------

  function BlockAt(blocks: bytes): Block
    requires |blocks| >= 6
  {
    var payloadLen := Max(U16At(blocks, 2) - 2, 0);
    Block(blocks[0], blocks[1], U16At(blocks, 4), blocks[6..Min(6 + payloadLen, |blocks|)])
  }

  /** Header and contents, rounded up to an even number. */
  function Advance(blocks: bytes): (r: nat)
    requires |blocks| >= 6
    ensures r >= 4
  {
    var length := U16At(blocks, 2);
    4 + length + length % 2
  }

  /** The blocks a parser looks at; it stops when 6 or fewer bytes are left to count. */
  function Walk(blocks: bytes, length: int): seq<Block>
    decreases |blocks|
  {
    if length <= 6 || |blocks| < 6 then []
    else
      var step := Advance(blocks);
      [BlockAt(blocks)] + Walk(blocks[Min(step, |blocks|)..], length - step)
  }

  lemma NothingLeft(blocks: bytes, length: int)
    requires length <= 6 || |blocks| < 6
    ensures Walk(blocks, length) == []
  {}

  lemma WalkStep(blocks: bytes, length: int)
    requires length > 6 && |blocks| >= 6
    ensures var w := Walk(blocks, length);
            && w != [] && w[0] == BlockAt(blocks)
            && w[1..] == Walk(blocks[Min(Advance(blocks), |blocks|)..], length - Advance(blocks))
  {
    hide BlockAt, Advance;
  }

  /** Bytes of well-formed blocks: each block but the last is padded to an even length. */
  function BlockBytes(b: Block): (r: bytes)
    ensures |r| == 6 + |b.payload|
  {
    [b.option, b.suboption] + Be16(AsU16(2 + |b.payload|)) + Be16(b.info) + b.payload
  }

  function BlocksBytes(bs: seq<Block>): bytes {
    if bs == [] then []
    else if |bs| == 1 then BlockBytes(bs[0])
    else BlockBytes(bs[0]) + Zeros(|bs[0].payload| % 2) + BlocksBytes(bs[1..])
  }

  /** The blocks that count: a last block without payload does not. */
  function Effective(bs: seq<Block>): seq<Block> {
    if bs != [] && bs[|bs| - 1].payload == [] then bs[..|bs| - 1] else bs
  }

  predicate Fits(bs: seq<Block>) {
    forall k :: 0 <= k < |bs| ==> 2 + |bs[k].payload| <= 0xFFFF
  }

  lemma BlockFieldsAt(data: bytes, b: Block)
    requires |data| >= 6 + |b.payload| && data[0] == b.option && data[1] == b.suboption
    requires U16At(data, 2) == 2 + |b.payload| && U16At(data, 4) == b.info && data[6..6 + |b.payload|] == b.payload
    ensures BlockAt(data) == b && Advance(data) == 6 + |b.payload| + |b.payload| % 2
  {
    hide U16At;
  }

  lemma BlockReadsBack(b: Block, post: bytes)
    requires 2 + |b.payload| <= 0xFFFF
    ensures BlockAt(BlockBytes(b) + post) == b
    ensures Advance(BlockBytes(b) + post) == |BlockBytes(b)| + |b.payload| % 2
  {
    hide Be16, U16At, AsU16, BlockAt, Advance;
    var head, length, info, tail := [b.option, b.suboption], Be16(2 + |b.payload|), Be16(b.info), b.payload + post;
    var data := BlockBytes(b) + post;
    Fits16(2 + |b.payload|);
    assert data == head + length + (info + tail);
    Read16(data, head, 2 + |b.payload|, info + tail);
    assert data == (head + length) + info + tail;
    Read16(data, head + length, b.info, tail);
    assert data[6..6 + |b.payload|] == b.payload;
    assert data[0] == head[0] && data[1] == head[1];
    BlockFieldsAt(data, b);
  }

  /** The walk sees exactly the blocks that count, whether the declared length includes the padding of
      the last block or not and whatever follows it in the frame. */
  lemma {:induction false} WalkSeesEffective(bs: seq<Block>, post: bytes, length: int)
    requires Fits(bs)
    requires length == |BlocksBytes(bs)| || length == |BlocksBytes(bs)| + |BlocksBytes(bs)| % 2
    ensures Walk(BlocksBytes(bs) + post, length) == Effective(bs)
    decreases |bs|
  {
    hide BlockAt, Advance, BlockBytes, BlocksBytes, Effective, Walk;
    if |bs| <= 1 {
      ShortList(bs);
      if bs == [] {
        NothingLeft(BlocksBytes(bs) + post, length);
      } else {
        WalkLast(bs[0], post, length);
      }
    } else {
      var b, rest := bs[0], bs[1..];
      LongList(bs);
      var after, pad := BlocksBytes(rest) + post, Zeros(|b.payload| % 2);
      WalkSeesEffective(rest, post, length - (6 + |b.payload| + |b.payload| % 2));
      WalkMore(b, after, length);
      assert BlocksBytes(bs) + post == BlockBytes(b) + (pad + after);
    }
  }

  lemma ShortList(bs: seq<Block>)
    requires |bs| <= 1
    ensures BlocksBytes(bs) == if bs == [] then [] else BlockBytes(bs[0])
    ensures Effective(bs) == if bs == [] || bs[0].payload == [] then [] else [bs[0]]
  {
    hide BlockBytes;
  }

  lemma EffectiveRest(bs: seq<Block>)
    requires |bs| > 1
    ensures Effective(bs) == [bs[0]] + Effective(bs[1..])
  {
    if bs[|bs| - 1].payload == [] {
      assert bs[..|bs| - 1] == [bs[0]] + bs[1..][..|bs| - 2];
    } else {
      assert bs == [bs[0]] + bs[1..];
    }
  }

  lemma LongList(bs: seq<Block>)
    requires |bs| > 1
    ensures BlocksBytes(bs) == BlockBytes(bs[0]) + Zeros(|bs[0].payload| % 2) + BlocksBytes(bs[1..])
    ensures |BlocksBytes(bs)| == 6 + |bs[0].payload| + |bs[0].payload| % 2 + |BlocksBytes(bs[1..])| >= 12
    ensures Effective(bs) == [bs[0]] + Effective(bs[1..])
  {
    hide BlockBytes, Zeros;
    NotEmpty(bs[1..]);
    BlockSize(bs[0]);
    assert |Zeros(|bs[0].payload| % 2)| == |bs[0].payload| % 2;
    EffectiveRest(bs);
  }

  lemma WalkLast(b: Block, post: bytes, length: int)
    requires 2 + |b.payload| <= 0xFFFF
    requires length == |BlockBytes(b)| || length == |BlockBytes(b)| + |BlockBytes(b)| % 2
    ensures Walk(BlockBytes(b) + post, length) == if b.payload == [] then [] else [b]
  {
    hide BlockAt, Advance, BlockBytes, Walk;
    var data := BlockBytes(b) + post;
    BlockSize(b);
    if b.payload == [] {
      NothingLeft(data, length);
    } else {
      WalkStep(data, length);
      BlockReadsBack(b, post);
      NothingLeft(data[Min(Advance(data), |data|)..], length - Advance(data));
    }
  }

  lemma WalkMore(b: Block, after: bytes, length: int)
    requires 2 + |b.payload| <= 0xFFFF && length > 6
    ensures Walk(BlockBytes(b) + (Zeros(|b.payload| % 2) + after), length)
            == [b] + Walk(after, length - (6 + |b.payload| + |b.payload| % 2))
  {
    hide BlockAt, Advance, BlockBytes, Walk;
    var pad := Zeros(|b.payload| % 2);
    var data := BlockBytes(b) + (pad + after);
    BlockSize(b);
    WalkStep(data, length);
    BlockReadsBack(b, pad + after);
    assert |pad| == |b.payload| % 2;
    assert data[|BlockBytes(b)| + |pad|..] == after;
  }

  lemma BlockSize(b: Block)
    ensures |BlockBytes(b)| == 6 + |b.payload|
  {}

  lemma NotEmpty(bs: seq<Block>)
    requires bs != []
    ensures |BlocksBytes(bs)| >= 6
  {}

  // -------------------------------------------------------------------------
  // Get
  // -------------------------------------------------------------------------

  /** Payload of the first block of a kind. */
  function First(bs: seq<Block>, option: u8, suboption: u8): Option<bytes> {
    if bs == [] then None
    else if bs[0].option == option && bs[0].suboption == suboption then Some(bs[0].payload)
    else First(bs[1..], option, suboption)
  }

  /** Header checks of a Get response: an error, not ours, or the blocks with their declared length. */
  function GetBlocks(frame: bytes, expectedXid: u32): Result<Option<(bytes, int)>> {
    match StripEth(frame, ETHERTYPE_PROFINET)
    case Err => Err
    case Ok(payload) =>
      if |payload| < 12 then Err
      else if U16At(payload, 0) != DCP_GET_SET_FRAME_ID || U32At(payload, 4) != expectedXid then Ok(None)
      else if payload[3] != DCP_RESPONSE_SUCCESS then Err
      else Ok(Some((payload[12..], U16At(payload, 10))))
  }

  function GetResponse(frame: bytes, option: u8, suboption: u8, expectedXid: u32): Result<Option<bytes>> {
    match GetBlocks(frame, expectedXid)
    case Err => Err
    case Ok(None) => Ok(None)
    case Ok(Some((blocks, length))) => Ok(First(Walk(blocks, length), option, suboption))
  }

  method ParseGetResponse(frame: bytes, option: u8, suboption: u8, expectedXid: u32) returns (r: Result<Option<bytes>>)
    ensures r == GetResponse(frame, option, suboption, expectedXid)
  {
    hide U32At, StripEth, Walk;
    var stripped := StripEth(frame, ETHERTYPE_PROFINET);
    if stripped.Err? || |stripped.value| < 12 {
      return Err;
    }
    var payload := stripped.value;
    if U16At(payload, 0) != DCP_GET_SET_FRAME_ID || U32At(payload, 4) != expectedXid {
      return Ok(None);
    }
    if payload[3] != DCP_RESPONSE_SUCCESS {
      return Err;
    }
    var length: int, blocks := U16At(payload, 10), payload[12..];
    while length > 6
      invariant First(Walk(blocks, length), option, suboption) == First(Walk(payload[12..], U16At(payload, 10)), option, suboption)
      decreases length
    {
      if |blocks| < 6 {
        break;
      }
      var blockLength: nat := U16At(blocks, 2);
      var payloadLen: nat := Max(blockLength - 2, 0);
      WalkStep(blocks, length);
      if blocks[0] == option && blocks[1] == suboption {
        return Ok(Some(blocks[6..Min(6 + payloadLen, |blocks|)]));
      }
      var blockLen := blockLength + if blockLength % 2 == 1 then 1 else 0;
      assert Advance(blocks) == 4 + blockLen;
      blocks := blocks[Min(4 + blockLen, |blocks|)..];
      length := length - (4 + blockLen);
    }
    NothingLeft(blocks, length);
    r := Ok(None);
  }

  // -------------------------------------------------------------------------
  // Identify
  // -------------------------------------------------------------------------

  datatype DcpDevice = DcpDevice(
    mac: Mac, name: bytes, deviceType: bytes, ip: bytes, netmask: bytes, gateway: bytes,
    vendorId: u16, deviceId: u16, role: u8, ipBlockInfo: Option<u16>)

  function Unknown(mac: Mac): DcpDevice {
    DcpDevice(mac, [], [], Zeros(4), Zeros(4), Zeros(4), 0, 0, 0, None)
  }

  /** Without the zero bytes at the end. */
  function Trimmed(text: bytes): (r: bytes)
    ensures r <= text && (r != [] ==> r[|r| - 1] != 0) && forall k :: |r| <= k < |text| ==> text[k] == 0
  {
    if text != [] && text[|text| - 1] == 0 then Trimmed(text[..|text| - 1]) else text
  }

  predicate IsType(b: Block) { b.option == DCP_OPTION_DEVICE && b.suboption == DCP_SUBOPTION_DEVICE_TYPE }
  predicate IsName(b: Block) { b.option == DCP_OPTION_DEVICE && b.suboption == DCP_SUBOPTION_DEVICE_NAME }
  predicate IsIp(b: Block) { b.option == DCP_OPTION_IP && b.suboption == DCP_SUBOPTION_IP_PARAMETER && |b.payload| >= 12 }
  predicate IsId(b: Block) { b.option == DCP_OPTION_DEVICE && b.suboption == DCP_SUBOPTION_DEVICE_ID && |b.payload| >= 4 }
  predicate IsRole(b: Block) { b.option == DCP_OPTION_DEVICE && b.suboption == DCP_SUBOPTION_DEVICE_ROLE && b.payload != [] }

  function Learn(d: DcpDevice, b: Block): DcpDevice {
    if IsType(b) then d.(deviceType := Trimmed(b.payload))
    else if IsName(b) then d.(name := b.payload)
    else if IsIp(b) then
      d.(ipBlockInfo := Some(b.info), ip := b.payload[0..4], netmask := b.payload[4..8], gateway := b.payload[8..12])
    else if IsId(b) then d.(vendorId := U16At(b.payload, 0), deviceId := U16At(b.payload, 2))
    else if IsRole(b) then d.(role := b.payload[0])
    else d
  }

  function LearnAll(d: DcpDevice, bs: seq<Block>): DcpDevice
    decreases |bs|
  {
    if bs == [] then d else LearnAll(Learn(d, bs[0]), bs[1..])
  }

  function IdentifyBlocks(frame: bytes): Result<(bytes, int)> {
    if |frame| < 14 then Err
    else
      match StripEth(frame, ETHERTYPE_PROFINET)
      case Err => Err
      case Ok(payload) =>
        if |payload| < 12 || U16At(payload, 0) != DCP_IDENTIFY_RESPONSE_FRAME_ID || payload[3] != DCP_RESPONSE_SUCCESS then Err
        else Ok((payload[12..], U16At(payload, 10)))
  }

  function IdentifyResponse(frame: bytes): Result<DcpDevice> {
    match IdentifyBlocks(frame)
    case Err => Err
    case Ok((blocks, length)) =>
      if |frame| < 14 then Err else Ok(LearnAll(Unknown(frame[6..12]), Walk(blocks, length)))
  }

  method ParseIdentifyResponse(frame: bytes) returns (r: Result<DcpDevice>)
    ensures r == IdentifyResponse(frame)
  {
    hide U32At, StripEth, Learn, Trimmed, Walk;
    if |frame| < 14 {
      return Err;
    }
    var stripped := StripEth(frame, ETHERTYPE_PROFINET);
    if stripped.Err? || |stripped.value| < 12 {
      return Err;
    }
    var payload := stripped.value;
    if U16At(payload, 0) != DCP_IDENTIFY_RESPONSE_FRAME_ID {
      return Err;
    }
    if payload[3] != DCP_RESPONSE_SUCCESS {
      return Err;
    }
    var length: int, blocks := U16At(payload, 10), payload[12..];
    var device := Unknown(frame[6..12]);
    while length > 6
      invariant LearnAll(device, Walk(blocks, length)) == LearnAll(Unknown(frame[6..12]), Walk(payload[12..], U16At(payload, 10)))
      decreases length
    {
      if |blocks| < 6 {
        break;
      }
      var blockLength: nat := U16At(blocks, 2);
      var payloadLen: nat := Max(blockLength - 2, 0);
      ghost var seen := BlockAt(blocks);
      ghost var before := device;
      device := LearnBlock(device, blocks[0], blocks[1], U16At(blocks, 4), blocks[6..Min(6 + payloadLen, |blocks|)]);
      assert device == Learn(before, seen);
      var blockLen := blockLength + if blockLength % 2 == 1 then 1 else 0;
      WalkStep(blocks, length);
      assert Advance(blocks) == 4 + blockLen;
      blocks := blocks[Min(4 + blockLen, |blocks|)..];
      length := length - (4 + blockLen);
    }
    NothingLeft(blocks, length);
    r := Ok(device);
  }

  /** The body of the loop; a text is trimmed from its end. */
  method LearnBlock(d: DcpDevice, option: u8, suboption: u8, info: u16, payload: bytes) returns (r: DcpDevice)
    ensures r == Learn(d, Block(option, suboption, info, payload))
  {
    hide Trimmed;
    r := d;
    if option == DCP_OPTION_DEVICE && suboption == DCP_SUBOPTION_DEVICE_TYPE {
      var n := |payload|;
      while n > 0 && payload[n - 1] == 0
        invariant 0 <= n <= |payload| && Trimmed(payload[..n]) == Trimmed(payload)
        decreases n
      {
        assert payload[..n][..n - 1] == payload[..n - 1];
        TrimmedStep(payload[..n]);
        n := n - 1;
      }
      TrimmedStep(payload[..n]);
      r := d.(deviceType := payload[..n]);
    } else if option == DCP_OPTION_DEVICE && suboption == DCP_SUBOPTION_DEVICE_NAME {
      r := d.(name := payload);
    } else if option == DCP_OPTION_IP && suboption == DCP_SUBOPTION_IP_PARAMETER && |payload| >= 12 {
      r := d.(ipBlockInfo := Some(info), ip := payload[0..4], netmask := payload[4..8], gateway := payload[8..12]);
    } else if option == DCP_OPTION_DEVICE && suboption == DCP_SUBOPTION_DEVICE_ID && |payload| >= 4 {
      r := d.(vendorId := U16At(payload, 0), deviceId := U16At(payload, 2));
    } else if option == DCP_OPTION_DEVICE && suboption == DCP_SUBOPTION_DEVICE_ROLE && payload != [] {
      r := d.(role := payload[0]);
    }
  }

  lemma TrimmedStep(text: bytes)
    ensures Trimmed(text) == if text != [] && text[|text| - 1] == 0 then Trimmed(text[..|text| - 1]) else text
  {}

  // -------------------------------------------------------------------------
  // Whole frames
  // -------------------------------------------------------------------------

  function DcpHeader(frameId: u16, serviceId: u8, serviceType: u8, xid: u32, resp: u16, length: u16): (r: bytes)
    ensures |r| == 12
  {
    Be16(frameId) + [serviceId, serviceType] + Be32(xid) + Be16(resp) + Be16(length)
  }

  lemma HeaderFields(frameId: u16, serviceId: u8, serviceType: u8, xid: u32, resp: u16, length: u16, post: bytes)
    ensures var p := DcpHeader(frameId, serviceId, serviceType, xid, resp, length) + post;
            && U16At(p, 0) == frameId && p[3] == serviceType && U32At(p, 4) == xid && U16At(p, 10) == length && p[12..] == post
  {
    var p := DcpHeader(frameId, serviceId, serviceType, xid, resp, length) + post;
    assert p[0..2] == Be16(frameId) && p[4..8] == Be32(xid) && p[10..12] == Be16(length);
    Be16At(p, 0, frameId);
    Be32At(p, 4, xid);
    Be16At(p, 10, length);
  }

  /** A declared length a device may give: with or without the padding of the last block. */
  predicate Declares(length: u16, bs: seq<Block>) {
    length == |BlocksBytes(bs)| || length == |BlocksBytes(bs)| + |BlocksBytes(bs)| % 2
  }

  /** A Get response, under any number of VLAN tags and with any Ethernet padding, yields the payload of
      the first block of the requested kind; only a last block without payload is overlooked. */
  lemma GetFindsFirst(dst: Mac, src: Mac, tags: bytes, serviceId: u8, xid: u32, resp: u16, length: u16, bs: seq<Block>, padding: bytes,
                      option: u8, suboption: u8)
    requires IsTags(tags) && Fits(bs) && Declares(length, bs)
    ensures GetResponse(dst + src + tags + Be16(ETHERTYPE_PROFINET)
                        + (DcpHeader(DCP_GET_SET_FRAME_ID, serviceId, DCP_RESPONSE_SUCCESS, xid, resp, length) + (BlocksBytes(bs) + padding)),
                        option, suboption, xid)
            == Ok(First(Effective(bs), option, suboption))
  {
    hide BlocksBytes, Walk, First, Effective, StripEth, U16At, U32At, IsTags;
    TagsDoNotMatter(dst + src, tags, ETHERTYPE_PROFINET,
                    DcpHeader(DCP_GET_SET_FRAME_ID, serviceId, DCP_RESPONSE_SUCCESS, xid, resp, length) + (BlocksBytes(bs) + padding));
    HeaderFields(DCP_GET_SET_FRAME_ID, serviceId, DCP_RESPONSE_SUCCESS, xid, resp, length, BlocksBytes(bs) + padding);
    WalkSeesEffective(bs, padding, length);
  }

  /** What becomes of any PROFINET frame: too short for a header is an error; another frame ID or
      transaction is somebody else's, whatever its status; ours with another service type than a success is
      an error; the rest is an answer. */
  lemma GetJudgesTheHeader(macs: bytes, tags: bytes, payload: bytes, option: u8, suboption: u8, xid: u32)
    requires |macs| == 12 && IsTags(tags)
    ensures var r := GetResponse(macs + tags + Be16(ETHERTYPE_PROFINET) + payload, option, suboption, xid);
            if |payload| < 12 then r == Err
            else if U16At(payload, 0) != 0xFEFD || U32At(payload, 4) != xid then r == Ok(None)
            else (r == Err <==> payload[3] != 1)
  {
    hide StripEth, U32At, U16At, IsTags, Walk, First, Be16;
    TagsDoNotMatter(macs, tags, ETHERTYPE_PROFINET, payload);
  }

  /** Exactly when an answer that carries the requested block is reported as absent: it carries it once,
      last, and empty. */
  lemma OverlooksExactlyAnEmptyLast(bs: seq<Block>, option: u8, suboption: u8)
    ensures First(Effective(bs), option, suboption) != First(bs, option, suboption) <==>
            && bs != [] && bs[|bs| - 1].payload == []
            && bs[|bs| - 1].option == option && bs[|bs| - 1].suboption == suboption
            && First(bs[..|bs| - 1], option, suboption) == None
  {
    if bs != [] {
      FirstOfPrefix(bs, option, suboption);
    }
  }

  lemma {:induction false} FirstOfPrefix(bs: seq<Block>, option: u8, suboption: u8)
    requires bs != []
    ensures var last := bs[|bs| - 1];
            First(bs, option, suboption) ==
            match First(bs[..|bs| - 1], option, suboption)
            case Some(p) => Some(p)
            case None => if last.option == option && last.suboption == suboption then Some(last.payload) else None
  {
    if |bs| > 1 {
      FirstOfPrefix(bs[1..], option, suboption);
      assert bs[1..][..|bs| - 2] == bs[..|bs| - 1][1..];
    }
  }

  /** An Identify response yields what its blocks say, in order, about the sender of the frame. */
  lemma IdentifyLearnsAll(dst: Mac, src: Mac, tags: bytes, serviceId: u8, xid: u32, resp: u16, length: u16, bs: seq<Block>, padding: bytes)
    requires IsTags(tags) && Fits(bs) && Declares(length, bs)
    ensures IdentifyResponse(dst + src + tags + Be16(ETHERTYPE_PROFINET)
                             + (DcpHeader(DCP_IDENTIFY_RESPONSE_FRAME_ID, serviceId, DCP_RESPONSE_SUCCESS, xid, resp, length)
                                + (BlocksBytes(bs) + padding)))
            == Ok(LearnAll(Unknown(src), Effective(bs)))
  {
    hide BlocksBytes, Walk, LearnAll, Effective, StripEth, U16At, U32At, IsTags, Unknown;
    var payload := DcpHeader(DCP_IDENTIFY_RESPONSE_FRAME_ID, serviceId, DCP_RESPONSE_SUCCESS, xid, resp, length) + (BlocksBytes(bs) + padding);
    TagsDoNotMatter(dst + src, tags, ETHERTYPE_PROFINET, payload);
    HeaderFields(DCP_IDENTIFY_RESPONSE_FRAME_ID, serviceId, DCP_RESPONSE_SUCCESS, xid, resp, length, BlocksBytes(bs) + padding);
    WalkSeesEffective(bs, padding, length);
    var frame := dst + src + tags + Be16(ETHERTYPE_PROFINET) + payload;
    assert frame[6..12] == src;
  }

  /** Of the PROFINET frames exactly those with the frame ID of an Identify response, a whole header and a
      success are one. */
  lemma IdentifyJudgesTheHeader(macs: bytes, tags: bytes, payload: bytes)
    requires |macs| == 12 && IsTags(tags)
    ensures IdentifyResponse(macs + tags + Be16(ETHERTYPE_PROFINET) + payload).Ok? <==>
            |payload| >= 12 && U16At(payload, 0) == 0xFEFF && payload[3] == 1
  {
    hide StripEth, U16At, IsTags, Walk, LearnAll, Be16, Unknown;
    TagsDoNotMatter(macs, tags, ETHERTYPE_PROFINET, payload);
    assert |macs + tags + Be16(ETHERTYPE_PROFINET) + payload| >= 14;
  }

  /** A device that tells nothing is known by its address alone. */
  lemma NothingTold(mac: Mac)
    ensures LearnAll(Unknown(mac), []) == DcpDevice(mac, [], [], [0, 0, 0, 0], [0, 0, 0, 0], [0, 0, 0, 0], 0, 0, 0, None)
  {
    assert Zeros(4) == [0, 0, 0, 0];
  }

  /** The last block of a kind. */
  function LastOf(bs: seq<Block>, kind: Block -> bool): Option<Block> {
    if bs == [] then None
    else if LastOf(bs[1..], kind).Some? then LastOf(bs[1..], kind)
    else if kind(bs[0]) then Some(bs[0])
    else None
  }

  /** What the predicates select, in option and suboption numbers. */
  lemma KindsByNumber(b: Block)
    ensures IsType(b) <==> b.option == 2 && b.suboption == 1
    ensures IsName(b) <==> b.option == 2 && b.suboption == 2
    ensures IsId(b) <==> b.option == 2 && b.suboption == 3 && |b.payload| >= 4
    ensures IsRole(b) <==> b.option == 2 && b.suboption == 4 && |b.payload| >= 1
    ensures IsIp(b) <==> b.option == 1 && b.suboption == 2 && |b.payload| >= 12
  {}

  /** A text comes from the last block about it, and keeps its default only if there is none: unknown
      and unusable blocks change nothing. */
  lemma {:induction false} LastTextWins(d: DcpDevice, bs: seq<Block>)
    ensures var r := LearnAll(d, bs);
            && r.mac == d.mac
            && r.name == (match LastOf(bs, IsName) case Some(b) => b.payload case None => d.name)
            && r.deviceType == (match LastOf(bs, IsType) case Some(b) => Trimmed(b.payload) case None => d.deviceType)
    decreases |bs|
  {
    hide Trimmed, U16At;
    if bs != [] {
      LastTextWins(Learn(d, bs[0]), bs[1..]);
    }
  }

  /** So do the addresses, from the last block long enough to hold all three. */
  lemma {:induction false} LastAddressWins(d: DcpDevice, bs: seq<Block>)
    ensures var r := LearnAll(d, bs);
            match LastOf(bs, IsIp)
            case Some(b) =>
              && |b.payload| >= 12 && r.ipBlockInfo == Some(b.info)
              && r.ip == b.payload[0..4] && r.netmask == b.payload[4..8] && r.gateway == b.payload[8..12]
            case None => r.ipBlockInfo == d.ipBlockInfo && r.ip == d.ip && r.netmask == d.netmask && r.gateway == d.gateway
    decreases |bs|
  {
    hide Trimmed, U16At;
    if bs != [] {
      LastAddressWins(Learn(d, bs[0]), bs[1..]);
    }
  }

  /** And the identity and the role. */
  lemma {:induction false} LastIdentityWins(d: DcpDevice, bs: seq<Block>)
    ensures var r := LearnAll(d, bs);
            match LastOf(bs, IsId)
            case Some(b) => |b.payload| >= 4 && r.vendorId == U16At(b.payload, 0) && r.deviceId == U16At(b.payload, 2)
            case None => r.vendorId == d.vendorId && r.deviceId == d.deviceId
    ensures var r := LearnAll(d, bs);
            match LastOf(bs, IsRole)
            case Some(b) => b.payload != [] && r.role == b.payload[0]
            case None => r.role == d.role
    decreases |bs|
  {
    hide Trimmed, U16At;
    if bs != [] {
      LastIdentityWins(Learn(d, bs[0]), bs[1..]);
    }
  }
}
