/** Several records in one write (src/blocks.rs, src/rpc.rs): the payload with its aligned blocks, a
    reader that walks it the way a device must, and the parser of the device's answer. */
module WriteMultiple {
  import opened Bytes
  import opened Wrappers
  import opened Rpc

  const IOD_WRITE_RESPONSE_HEADER: u16 := 0x8008
  const IOD_WRITE_MULTIPLE_INDEX: u16 := 0xE040

  datatype Write = Write(api: u32, slot: u16, subslot: u16, index: u16, data: bytes)

  /** Bytes to the next multiple of four. */
  function Padding(n: nat): (r: nat)
    ensures r < 4 && (n + r) % 4 == 0
  {
    (4 - n % 4) % 4
  }

  function WriteBlock(arUuid: Uuid, w: Write, i: nat): (r: bytes)
    ensures |r| == 64 + |w.data|
  {
    PniodHeader(IOD_WRITE_REQUEST_HEADER, AsU16(i), arUuid, w.api, w.slot, w.subslot, w.index, AsU32(|w.data|), w.data)
  }

  /** The blocks of `writes`, the first of which is number `i`; all but the last are padded. */
  function WriteBlocks(arUuid: Uuid, writes: seq<Write>, i: nat): bytes
    decreases |writes|
  {
    if writes == [] then []
    else
      var block := WriteBlock(arUuid, writes[0], i);
      if |writes| == 1 then block
      else block + Zeros(Padding(|block|)) + WriteBlocks(arUuid, writes[1..], i + 1)
  }

  function MultiplePayload(arUuid: Uuid, seqNum: u16, writes: seq<Write>): bytes {
    var blocks := WriteBlocks(arUuid, writes, 0);
    PniodHeader(IOD_WRITE_REQUEST_HEADER, seqNum, arUuid, 0xFFFF_FFFF, 0xFFFF, 0xFFFF, IOD_WRITE_MULTIPLE_INDEX, AsU32(|blocks|), [])
    + blocks
  }

  /** One turn of the loop, with `done` written before. */
  lemma WriteBlocksStep(arUuid: Uuid, writes: seq<Write>, i: nat, done: bytes)
    requires i < |writes|
    ensures var block := WriteBlock(arUuid, writes[i], i);
            var rest := WriteBlocks(arUuid, writes[i + 1..], i + 1);
            done + WriteBlocks(arUuid, writes[i..], i) ==
            if i < |writes| - 1 then ((done + block) + Zeros((4 - |block| % 4) % 4)) + rest else (done + block) + rest
  {
    hide WriteBlock, Zeros;
    var tail := writes[i..];
    assert tail[0] == writes[i] && tail[1..] == writes[i + 1..];
    if i == |writes| - 1 {
      NoMoreBlocks(arUuid, i + 1, done + WriteBlock(arUuid, writes[i], i));
      assert writes[i + 1..] == [];
    }
  }

  lemma NoMoreBlocks(arUuid: Uuid, i: nat, done: bytes)
    ensures WriteBlocks(arUuid, [], i) == [] && done + [] == done
  {}

  method IodWriteMultiplePayload(arUuid: Uuid, seqNum: u16, writes: seq<Write>) returns (out: bytes)
    ensures out == MultiplePayload(arUuid, seqNum, writes)
  {
    hide WriteBlock, WriteBlocks, PniodHeader, Zeros;
    var blocks: bytes := [];
    assert blocks + WriteBlocks(arUuid, writes, 0) == WriteBlocks(arUuid, writes, 0) && writes[0..] == writes;
    for i := 0 to |writes|
      invariant blocks + WriteBlocks(arUuid, writes[i..], i) == WriteBlocks(arUuid, writes, 0)
    {
      var block := WriteBlock(arUuid, writes[i], i);
      WriteBlocksStep(arUuid, writes, i, blocks);
      blocks := blocks + block;
      if i < |writes| - 1 {
        blocks := blocks + Zeros((4 - |block| % 4) % 4);
      }
    }
    NoMoreBlocks(arUuid, |writes|, blocks);
    assert writes[|writes|..] == [];
    out := PniodHeader(IOD_WRITE_REQUEST_HEADER, seqNum, arUuid, 0xFFFF_FFFF, 0xFFFF, 0xFFFF, IOD_WRITE_MULTIPLE_INDEX, AsU32(|blocks|), []);
    out := out + blocks;
  }

  // -------------------------------------------------------------------------
  // Reading the payload
  // -------------------------------------------------------------------------

  datatype NumberedWrite = NumberedWrite(position: u16, arUuid: Uuid, write: Write)

  /** The writes from `data` on, walked by declared length and alignment; the last block must end
      exactly where the data does. */
  function ReadWrites(data: bytes): Option<seq<NumberedWrite>>
    decreases |data|
  {
    if data == [] then Some([])
    else
      match ParseIodHeader(data)
      case Err => None
      case Ok(h) =>
        var size := 64 + h.length;
        var next := size + Padding(size);
        if h.blockType != IOD_WRITE_REQUEST_HEADER || size > |data| then None
        else
          var w := NumberedWrite(h.sequenceNumber, h.arUuid, Write(h.api, h.slot, h.subslot, h.index, data[64..size]));
          if size == |data| then Some([w])
          else if next > |data| then None
          else
            match ReadWrites(data[next..])
            case None => None
            case Some(rest) => Some([w] + rest)
  }

  /** The writes with their positions, counted from `i` modulo 65536. */
  function Numbered(arUuid: Uuid, writes: seq<Write>, i: nat): seq<NumberedWrite>
    decreases |writes|
  {
    if writes == [] then [] else [NumberedWrite(AsU16(i), arUuid, writes[0])] + Numbered(arUuid, writes[1..], i + 1)
  }

  predicate Sendable(writes: seq<Write>) {
    forall k :: 0 <= k < |writes| ==> |writes[k].data| < 0x1_0000_0000
  }

  lemma BlockFields(arUuid: Uuid, w: Write, i: nat, post: bytes)
    requires |w.data| < 0x1_0000_0000
    ensures ParseIodHeader(WriteBlock(arUuid, w, i) + post)
            == Ok(ParsedIod(IOD_WRITE_REQUEST_HEADER, 60, AsU16(i), arUuid, w.api, w.slot, w.subslot, w.index, |w.data|, w.data + post))
    ensures (WriteBlock(arUuid, w, i) + post)[64..64 + |w.data|] == w.data
  {
    hide ParseIodHeader, Be16, Be32, BlockHeader, AsU16, AsU32;
    Fits32(|w.data|);
    var head, whole := PniodHeader(IOD_WRITE_REQUEST_HEADER, AsU16(i), arUuid, w.api, w.slot, w.subslot, w.index, |w.data|, []), w.data + post;
    var h := PniodHeader(IOD_WRITE_REQUEST_HEADER, AsU16(i), arUuid, w.api, w.slot, w.subslot, w.index, |w.data|, whole);
    assert WriteBlock(arUuid, w, i) == head + w.data && h == head + whole;
    assert WriteBlock(arUuid, w, i) + post == h;
    IodRoundTrip(IOD_WRITE_REQUEST_HEADER, AsU16(i), arUuid, w.api, w.slot, w.subslot, w.index, |w.data|, whole);
    assert h[64..64 + |w.data|] == w.data;
  }

  /** Walking the blocks recovers every write in order with its position, and ends exactly at the end. */
  lemma {:induction false} BlocksReadBack(arUuid: Uuid, writes: seq<Write>, i: nat)
    requires Sendable(writes)
    ensures ReadWrites(WriteBlocks(arUuid, writes, i)) == Some(Numbered(arUuid, writes, i))
    decreases |writes|
  {
    hide WriteBlock, ParseIodHeader;
    if writes != [] {
      var w, rest := writes[0], writes[1..];
      var block := WriteBlock(arUuid, w, i);
      assert |block| == 64 + |w.data| by { hide *; BlockSize(arUuid, w, i); }
      var data := WriteBlocks(arUuid, writes, i);
      if rest == [] {
        assert data == block + [];
        BlockFields(arUuid, w, i, []);
        var n := NumberedWrite(AsU16(i), arUuid, w);
        assert Numbered(arUuid, writes, i) == [n] + [] && [n] + [] == [n];
      } else {
        var pad, after := Zeros(Padding(|block|)), WriteBlocks(arUuid, rest, i + 1);
        assert data == block + (pad + after);
        BlockFields(arUuid, w, i, pad + after);
        BlocksReadBack(arUuid, rest, i + 1);
        assert data[|block| + |pad|..] == after;
        NotEmpty(arUuid, rest, i + 1);
      }
    }
  }

  lemma BlockSize(arUuid: Uuid, w: Write, i: nat)
    ensures |WriteBlock(arUuid, w, i)| == 64 + |w.data|
  {}

  lemma NotEmpty(arUuid: Uuid, writes: seq<Write>, i: nat)
    requires writes != []
    ensures |WriteBlocks(arUuid, writes, i)| >= 64
  {}

  function WriteMultipleRequest(c: Call, writes: seq<Write>): bytes {
    WriteRecordRequest(c, 0xFFFF_FFFF, 0xFFFF, 0xFFFF, IOD_WRITE_MULTIPLE_INDEX, MultiplePayload(c.arUuid, 0, writes))
  }

  lemma IsWriteRequest(c: Call, writes: seq<Write>)
    ensures WriteMultipleRequest(c, writes)
            == WriteRecordRequest(c, 0xFFFF_FFFF, 0xFFFF, 0xFFFF, IOD_WRITE_MULTIPLE_INDEX, MultiplePayload(c.arUuid, 0, writes))
  {}

  /** A whole request comes apart again: framing, the record addressed to no one submodule, the outer
      header whose length is that of the blocks, and every write in order. */
  lemma MultipleRequestReadsBack(c: Call, writes: seq<Write>)
    requires Sendable(writes) && 64 + |WriteBlocks(c.arUuid, writes, 0)| < 0x1_0000_0000
    ensures var r := ParseRequest(WriteMultipleRequest(c, writes));
            && r.Some? && r.value.0.numbers.sequenceNumber == c.seqNo && r.value.0.numbers.operationNumber == 3
            && r.value.2.api == 0xFFFF_FFFF && r.value.2.slot == 0xFFFF && r.value.2.subslot == 0xFFFF
            && r.value.2.index == IOD_WRITE_MULTIPLE_INDEX && r.value.2.length == |r.value.2.payload|
            && var outer := ParseIodHeader(r.value.2.payload);
               && outer.Ok? && outer.value.length == |outer.value.payload| && outer.value.index == IOD_WRITE_MULTIPLE_INDEX
               && outer.value.arUuid == c.arUuid
               && ReadWrites(outer.value.payload) == Some(Numbered(c.arUuid, writes, 0))
  {
    hide *;
    var payload := MultiplePayload(c.arUuid, 0, writes);
    IsWriteRequest(c, writes);
    PayloadReadsBack(c.arUuid, 0, writes);
    Fits32(|payload|);
    RequestsRoundTrip(c, 0xFFFF_FFFF, 0xFFFF, 0xFFFF, IOD_WRITE_MULTIPLE_INDEX, 0, payload);
  }

  lemma PayloadReadsBack(arUuid: Uuid, seqNum: u16, writes: seq<Write>)
    requires Sendable(writes) && 64 + |WriteBlocks(arUuid, writes, 0)| < 0x1_0000_0000
    ensures var payload, blocks := MultiplePayload(arUuid, seqNum, writes), WriteBlocks(arUuid, writes, 0);
            && |payload| == 64 + |blocks|
            && ParseIodHeader(payload) == Ok(ParsedIod(IOD_WRITE_REQUEST_HEADER, 60, seqNum, arUuid, 0xFFFF_FFFF, 0xFFFF, 0xFFFF,
                                                       IOD_WRITE_MULTIPLE_INDEX, |blocks|, blocks))
            && ReadWrites(blocks) == Some(Numbered(arUuid, writes, 0))
  {
    hide ParseIodHeader, WriteBlocks, ReadWrites, Numbered, Sendable;
    var blocks := WriteBlocks(arUuid, writes, 0);
    assert MultiplePayload(arUuid, seqNum, writes)
        == PniodHeader(IOD_WRITE_REQUEST_HEADER, seqNum, arUuid, 0xFFFF_FFFF, 0xFFFF, 0xFFFF, IOD_WRITE_MULTIPLE_INDEX, |blocks|, blocks);
    IodRoundTrip(IOD_WRITE_REQUEST_HEADER, seqNum, arUuid, 0xFFFF_FFFF, 0xFFFF, 0xFFFF, IOD_WRITE_MULTIPLE_INDEX, |blocks|, blocks);
    BlocksReadBack(arUuid, writes, 0);
  }

  // -------------------------------------------------------------------------
  // The response
  // -------------------------------------------------------------------------

  datatype WriteResult = WriteResult(
    seqNum: u16, api: u32, slot: u16, subslot: u16, index: u16, status: u32, additionalValue1: u16, additionalValue2: u16)

  function ResultAt(data: bytes, at: nat): WriteResult
    requires at + 56 <= |data|
  {
    WriteResult(U16At(data, at + 6), U32At(data, at + 24), U16At(data, at + 28), U16At(data, at + 30), U16At(data, at + 34),
                U32At(data, at + 44), U16At(data, at + 40), U16At(data, at + 42))
  }

  function ResultsFrom(data: bytes, end: nat, offset: nat): seq<WriteResult>
    requires end <= |data|
    decreases |data| - offset
  {
    if offset + 56 > end || U16At(data, offset) != IOD_WRITE_RESPONSE_HEADER then []
    else
      var size := 4 + U16At(data, offset + 2);
      [ResultAt(data, offset)] + ResultsFrom(data, end, offset + size + Padding(size))
  }

  function Results(data: bytes): seq<WriteResult> {
    if |data| < 64 then [] else ResultsFrom(data, Min(64 + U32At(data, 36), |data|), 64)
  }

  method ParseWriteMultipleResponse(data: bytes) returns (results: seq<WriteResult>)
    ensures results == Results(data)
  {
    hide U16At, U32At, ResultAt;
    results := [];
    if |data| < 64 {
      return;
    }
    var recordLen := U32At(data, 36);
    var offset := 64;
    var end := Min(offset + recordLen, |data|);
    while offset + 56 <= end
      invariant results + ResultsFrom(data, end, offset) == ResultsFrom(data, end, 64)
      decreases |data| - offset
    {
      if U16At(data, offset) != IOD_WRITE_RESPONSE_HEADER {
        break;
      }
      ghost var rest := ResultsFrom(data, end, offset + (4 + U16At(data, offset + 2)) + Padding(4 + U16At(data, offset + 2)));
      assert results + ([ResultAt(data, offset)] + rest) == (results + [ResultAt(data, offset)]) + rest;
      results := results + [ResultAt(data, offset)];
      var blockSize := 4 + U16At(data, offset + 2);
      var pad := (4 - blockSize % 4) % 4;
      offset := offset + (blockSize + pad);
    }
    assert ResultsFrom(data, end, offset) == [];
  }

  lemma {:induction false} ResultsCut(data: bytes, end: nat, end': nat, len: nat, offset: nat)
    requires end' <= end <= |data| && end' <= len <= |data|
    ensures ResultsFrom(data[..len], end', offset) <= ResultsFrom(data, end, offset)
    decreases |data| - offset
  {
    hide U16At, U32At;
    if offset + 56 <= end' {
      CutFields(data, len, offset);
      if U16At(data, offset) == IOD_WRITE_RESPONSE_HEADER {
        var size := 4 + U16At(data, offset + 2);
        ResultsCut(data, end, end', len, offset + size + Padding(size));
      }
    }
  }

  lemma CutFields(data: bytes, len: nat, at: nat)
    requires at + 56 <= len <= |data|
    ensures ResultAt(data[..len], at) == ResultAt(data, at)
    ensures U16At(data[..len], at) == U16At(data, at) && U16At(data[..len], at + 2) == U16At(data, at + 2)
  {}

  /** Parsing an answer cut anywhere yields a prefix of parsing the whole. */
  lemma TruncationOnlyShortens(data: bytes, len: nat)
    requires len <= |data|
    ensures Results(data[..len]) <= Results(data)
  {
    hide ResultsFrom, U32At;
    if len >= 64 {
      CutRecordLength(data, len);
      ResultsCut(data, Min(64 + U32At(data, 36), |data|), Min(64 + U32At(data, 36), len), len, 64);
    }
  }

  lemma CutRecordLength(data: bytes, len: nat)
    requires 64 <= len <= |data|
    ensures U32At(data[..len], 36) == U32At(data, 36)
  {}

  /** An entry of a device: `extra` bytes beyond the fixed fields, then padding. */
  datatype Reported = Reported(result: WriteResult, arUuid: Uuid, recordLength: u32, extra: bytes)

  function EntryBytes(e: Reported): bytes {
    var r := e.result;
    var block := BlockHeader(IOD_WRITE_RESPONSE_HEADER, AsU16(52 + |e.extra|)) + Be16(r.seqNum) + e.arUuid
      + (Be32(r.api) + Be16(r.slot) + Be16(r.subslot) + Be16(0) + Be16(r.index) + Be32(e.recordLength))
      + (Be16(r.additionalValue1) + Be16(r.additionalValue2) + Be32(r.status)) + Zeros(8) + e.extra;
    block + Zeros(Padding(|block|))
  }

  function EntriesBytes(es: seq<Reported>): bytes {
    if es == [] then [] else EntryBytes(es[0]) + EntriesBytes(es[1..])
  }

  function ReportedResults(es: seq<Reported>): (r: seq<WriteResult>) {
    if es == [] then [] else [es[0].result] + ReportedResults(es[1..])
  }

  predicate Reportable(es: seq<Reported>) {
    forall k :: 0 <= k < |es| ==> 52 + |es[k].extra| <= 0xFFFF
  }

  lemma EntryReadsBack(pre: bytes, e: Reported, post: bytes)
    requires 52 + |e.extra| <= 0xFFFF
    ensures var data := pre + EntryBytes(e) + post;
            var at, size := |pre|, 56 + |e.extra|;
            && |EntryBytes(e)| == size + Padding(size) && at + 56 <= |data|
            && U16At(data, at) == IOD_WRITE_RESPONSE_HEADER && U16At(data, at + 2) == 52 + |e.extra|
            && ResultAt(data, at) == e.result
  {
    hide ResultAt, EntryBytes, U16At, U32At, Be16, Be32, BlockHeader, Padding;
    var r := e.result;
    var head := BlockHeader(IOD_WRITE_RESPONSE_HEADER, 52 + |e.extra|) + Be16(r.seqNum);
    var address := Be32(r.api) + Be16(r.slot) + Be16(r.subslot) + Be16(0) + Be16(r.index) + Be32(e.recordLength);
    var outcome := Be16(r.additionalValue1) + Be16(r.additionalValue2) + Be32(r.status);
    var rest := Zeros(8) + e.extra + Zeros(Padding(56 + |e.extra|));
    EntryParts(e);
    HeadReadsBack(IOD_WRITE_RESPONSE_HEADER, 52 + |e.extra|, r.seqNum);
    AddressReadsBack(r.api, r.slot, r.subslot, r.index, e.recordLength);
    OutcomeReadsBack(r.additionalValue1, r.additionalValue2, r.status);
    PartsReadBack(pre, head, e.arUuid, address, outcome, rest + post);
    assert pre + EntryBytes(e) + post == pre + head + e.arUuid + address + outcome + (rest + post);
  }

  lemma EntryParts(e: Reported)
    requires 52 + |e.extra| <= 0xFFFF
    ensures var r, size := e.result, 56 + |e.extra|;
            && EntryBytes(e) == (BlockHeader(IOD_WRITE_RESPONSE_HEADER, 52 + |e.extra|) + Be16(r.seqNum)) + e.arUuid
                 + (Be32(r.api) + Be16(r.slot) + Be16(r.subslot) + Be16(0) + Be16(r.index) + Be32(e.recordLength))
                 + (Be16(r.additionalValue1) + Be16(r.additionalValue2) + Be32(r.status))
                 + (Zeros(8) + e.extra + Zeros(Padding(size)))
            && |EntryBytes(e)| == size + Padding(size)
  {
    hide Be16, Be32, BlockHeader, Zeros, Padding, AsU16;
    Fits16(52 + |e.extra|);
  }

  lemma PartsReadBack(pre: bytes, head: bytes, arUuid: Uuid, address: bytes, outcome: bytes, rest: bytes)
    requires |head| == 8 && |address| == 16 && |outcome| == 8 && |rest| >= 8
    ensures var data, at := pre + head + arUuid + address + outcome + rest, |pre|;
            && at + 56 <= |data|
            && U16At(data, at) == U16At(head, 0) && U16At(data, at + 2) == U16At(head, 2)
            && ResultAt(data, at) == WriteResult(U16At(head, 6), U32At(address, 0), U16At(address, 4), U16At(address, 6),
                                                 U16At(address, 10), U32At(outcome, 4), U16At(outcome, 0), U16At(outcome, 2))
  {
    hide U16At, U32At;
    var data, at := pre + head + arUuid + address + outcome + rest, |pre|;
    assert data[at..at + 8] == head && data[at + 24..at + 24 + 16] == address && data[at + 40..at + 40 + 8] == outcome;
    Shifted(data, at, head);
    Shifted(data, at + 24, address);
    Shifted(data, at + 40, outcome);
    assert U16At(data, at + 0) == U16At(head, 0) && U32At(data, at + 24 + 0) == U32At(address, 0) && U16At(data, at + 40 + 0) == U16At(outcome, 0);
    assert U16At(data, at + 24 + 4) == U16At(address, 4) && U16At(data, at + 24 + 6) == U16At(address, 6)
        && U16At(data, at + 24 + 10) == U16At(address, 10);
    assert U32At(data, at + 40 + 4) == U32At(outcome, 4) && U16At(data, at + 40 + 2) == U16At(outcome, 2);
  }

  lemma HeadReadsBack(blockType: u16, length: u16, seqNum: u16)
    ensures var head := BlockHeader(blockType, length) + Be16(seqNum);
            |head| == 8 && U16At(head, 0) == blockType && U16At(head, 2) == length && U16At(head, 6) == seqNum
  {
    var head := BlockHeader(blockType, length) + Be16(seqNum);
    assert head[0..2] == Be16(blockType) && head[2..4] == Be16(length) && head[6..8] == Be16(seqNum);
  }

  lemma OutcomeReadsBack(a: u16, b: u16, status: u32)
    ensures var o := Be16(a) + Be16(b) + Be32(status); |o| == 8 && U16At(o, 0) == a && U16At(o, 2) == b && U32At(o, 4) == status
  {
    var o := Be16(a) + Be16(b) + Be32(status);
    assert o[0..2] == Be16(a) && o[2..4] == Be16(b) && o[4..8] == Be32(status);
    Be16At(o, 0, a);
    Be16At(o, 2, b);
    Be32At(o, 4, status);
  }

  lemma {:induction false} EntriesReadBack(pre: bytes, es: seq<Reported>, post: bytes)
    requires Reportable(es)
    ensures ResultsFrom(pre + EntriesBytes(es) + post, |pre| + |EntriesBytes(es)|, |pre|) == ReportedResults(es)
    decreases |es|
  {
    hide U16At, ResultAt, EntryBytes;
    if es != [] {
      var e, rest := es[0], EntriesBytes(es[1..]);
      var data := pre + EntriesBytes(es) + post;
      assert data == pre + EntryBytes(e) + (rest + post);
      EntryReadsBack(pre, e, rest + post);
      assert data == (pre + EntryBytes(e)) + rest + post;
      EntriesReadBack(pre + EntryBytes(e), es[1..], post);
    }
  }

  /** Every reported result is read in order, whatever extra bytes the entries carry and whatever
      follows the declared record. */
  lemma ResponseReadsBack(header: bytes, es: seq<Reported>, post: bytes)
    requires |header| == 64 && U32At(header, 36) == |EntriesBytes(es)| && Reportable(es)
    ensures Results(header + EntriesBytes(es) + post) == ReportedResults(es)
  {
    hide ResultsFrom;
    var data := header + EntriesBytes(es) + post;
    assert U32At(data, 36) == U32At(header, 36);
    EntriesReadBack(header, es, post);
  }
}
