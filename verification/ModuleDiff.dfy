/** The connect response (src/transport.rs): the ModuleDiffBlock in which the device says what it
    withheld, the frame IDs it assigned, and the verdict on the connect. */
module ModuleDiff {
  import opened Bytes
  import opened Wrappers
  import opened Rpc
  import opened NestedCounts

  const MODULE_DIFF_BLOCK: u16 := 0x8104
  const IOCR_BLOCK_RES: u16 := 0x8102
  const AR_INFO_OK := 0
  const AR_INFO_APPLICATION_READY_PENDING := 1
  const AR_INFO_LOCKED_SUPERORDINATED := 2
  const AR_INFO_LOCKED_BY_IOS := 4
  const IDENT_INFO_OK := 0

  datatype SubmoduleDiff = SubmoduleDiff(slot: u16, subslot: u16, submoduleIdent: u32, state: u16) {
    predicate HasFields() { state >= 0x8000 }
    /** Bits 14..11. */
    function IdentInfo(): Option<nat> { if HasFields() then Some(state / 0x800 % 0x10) else None }
    /** Bits 10..7. */
    function ArInfo(): Option<nat> { if HasFields() then Some(state / 0x80 % 0x10) else None }

    predicate IsLocked() {
      ArInfo().Some? && AR_INFO_LOCKED_SUPERORDINATED <= ArInfo().value <= AR_INFO_LOCKED_BY_IOS
    }

    /** A word in the other format does not say the submodule was withheld. */
    predicate IsOurs() {
      ArInfo().Some? && IdentInfo().Some? ==>
        (ArInfo().value == AR_INFO_OK || ArInfo().value == AR_INFO_APPLICATION_READY_PENDING) && IdentInfo().value == IDENT_INFO_OK
    }
  }

  /** The two fields of a word in this format, and none in the other. */
  lemma FieldsOfState(d: SubmoduleDiff)
    ensures d.IdentInfo() == if d.state < 0x8000 then None else Some((d.state - 0x8000) / 0x800)
    ensures d.ArInfo() == if d.state < 0x8000 then None else Some(d.state % 0x800 / 0x80)
  {
    if d.state >= 0x8000 {
      HighDigit(d.state);
      LowDigit(d.state);
    }
  }

  lemma HighDigit(s: u16)
    requires s >= 0x8000
    ensures s / 0x800 % 0x10 == (s - 0x8000) / 0x800
  {
    var a := s / 0x800;
    assert (s - 0x8000) / 0x800 == a - 16 && 16 <= a < 32;
  }

  lemma LowDigit(s: u16)
    ensures s / 0x80 % 0x10 == s % 0x800 / 0x80
  {
    var a, b := s / 0x800, s % 0x800;
    assert s == a * 0x800 + b && b / 0x80 < 16;
    assert s / 0x80 == a * 16 + b / 0x80;
  }

  /** The format bit is the top one, so the states of a submodule that is ours are two blocks of 128
      and everything without the bit; a locked submodule, whatever its ident, never is. */
  lemma OursByRange(d: SubmoduleDiff)
    ensures d.IsOurs() <==> d.state < 0x8000 || 0x8000 <= d.state < 0x8100
    ensures d.IsLocked() <==> d.state >= 0x8000 && 0x100 <= d.state % 0x800 < 0x280
    ensures d.IsLocked() ==> !d.IsOurs()
  {
    hide SubmoduleDiff.IdentInfo, SubmoduleDiff.ArInfo;
    FieldsOfState(d);
    if d.state >= 0x8000 {
      OwnBlocks(d.state);
    }
  }

  lemma OwnBlocks(s: u16)
    requires s >= 0x8000
    ensures (s - 0x8000) / 0x800 == 0 && s % 0x800 / 0x80 <= 1 <==> s < 0x8100
    ensures 2 <= s % 0x800 / 0x80 <= 4 <==> 0x100 <= s % 0x800 < 0x280
  {}

  // -------------------------------------------------------------------------
  // Walking the blocks
  // -------------------------------------------------------------------------

  function BlockEnd(data: bytes, offset: nat): nat
    requires offset + 6 <= |data|
  {
    offset + 4 + U16At(data, offset + 2)
  }

  /** The entries of one block whose contents end with `b`. */
  function DiffEntries(b: bytes, offset: nat): seq<Entry> {
    if offset + 8 <= |b| then ApiWalk(DiffShape, b, offset + 8, U16At(b, offset + 6)).0 else []
  }

  /** The entries of the block at an offset, as far as the data goes. */
  function EntriesAt(data: bytes, offset: nat): seq<Entry>
    requires offset + 6 <= |data|
  {
    if U16At(data, offset) == MODULE_DIFF_BLOCK then DiffEntries(data[..Min(BlockEnd(data, offset), |data|)], offset) else []
  }

  function EntriesFrom(data: bytes, offset: nat): seq<Entry>
    decreases |data| - offset
  {
    if offset + 6 > |data| then [] else EntriesAt(data, offset) + EntriesFrom(data, BlockEnd(data, offset))
  }

  function DiffOf(e: Entry): SubmoduleDiff {
    if |e.head| == 8 && |e.sub| == 8
    then SubmoduleDiff(U16At(e.head, 0), U16At(e.sub, 0), U32At(e.sub, 2), U16At(e.sub, 6))
    else SubmoduleDiff(0, 0, 0, 0)
  }

  function DiffsOf(es: seq<Entry>): (r: seq<SubmoduleDiff>)
    ensures |r| == |es| && forall k :: 0 <= k < |r| ==> r[k] == DiffOf(es[k])
  {
    seq(|es|, k requires 0 <= k < |es| => DiffOf(es[k]))
  }

  /** Every submodule the response lists. */
  function Diffs(data: bytes): seq<SubmoduleDiff> {
    DiffsOf(EntriesFrom(data, 0))
  }

  /** The innermost loop. */
  method ReadSubs(data: bytes, end: nat, p0: nat, n: u16, slot: u16, ghost api: bytes, ghost head: bytes, found0: seq<SubmoduleDiff>)
    returns (found: seq<SubmoduleDiff>, p: nat)
    requires end <= |data| && |head| == 8 && U16At(head, 0) == slot
    ensures var (es, at) := SubWalk(DiffShape, api, head, data[..end], p0, n);
            found == found0 + DiffsOf(es) && p == at
  {
    hide SubWalk, DiffsOf, DiffOf, U16At, U32At;
    found, p := found0, p0;
    var i: nat := 0;
    ghost var b := data[..end];
    ghost var es: seq<Entry> := [];
    ghost var all := SubWalk(DiffShape, api, head, b, p0, n);
    NoDiffs(found0, all.0);
    while i < n
      invariant 0 <= i <= n && found == found0 + DiffsOf(es)
      invariant var (rest, at) := SubWalk(DiffShape, api, head, b, p, n - i);
                all == (es + rest, at)
    {
      SubWalkStep(DiffShape, api, head, b, p, n - i, es);
      if p + 8 > end {
        return;
      }
      ghost var e := Entry(api, head, b[p..p + 8]);
      DiffAt(data, end, p, e);
      DiffsPush(found0, es, e);
      found := found + [SubmoduleDiff(slot, U16At(data, p), U32At(data, p + 2), U16At(data, p + 6))];
      es := es + [e];
      p := p + 8;
      i := i + 1;
    }
    SubWalkStep(DiffShape, api, head, b, p, 0, es);
  }

  lemma DiffAt(data: bytes, end: nat, p: nat, e: Entry)
    requires |e.head| == 8 && p + 8 <= end <= |data| && e.sub == data[..end][p..p + 8]
    ensures DiffOf(e) == SubmoduleDiff(U16At(e.head, 0), U16At(data, p), U32At(data, p + 2), U16At(data, p + 6))
  {}

  lemma DiffsPush(found: seq<SubmoduleDiff>, es: seq<Entry>, e: Entry)
    ensures found + DiffsOf(es + [e]) == (found + DiffsOf(es)) + [DiffOf(e)]
  {
    hide DiffOf;
  }

  lemma DiffsAppend(a: seq<Entry>, b: seq<Entry>)
    ensures DiffsOf(a + b) == DiffsOf(a) + DiffsOf(b)
  {
    hide DiffOf;
  }

  lemma CutField(data: bytes, end: nat, at: nat)
    requires at + 2 <= end <= |data|
    ensures U16At(data[..end], at) == U16At(data, at)
  {}

  method ReadModules(data: bytes, end: nat, p0: nat, n: u16, ghost api: bytes, found0: seq<SubmoduleDiff>)
    returns (found: seq<SubmoduleDiff>, p: nat)
    requires end <= |data|
    ensures var (es, at) := ModuleWalk(DiffShape, api, data[..end], p0, n);
            found == found0 + DiffsOf(es) && p == at
  {
    hide SubWalk, ModuleWalk, DiffsOf, DiffOf, U16At;
    found, p := found0, p0;
    var i: nat := 0;
    ghost var b := data[..end];
    ghost var es: seq<Entry> := [];
    ghost var all := ModuleWalk(DiffShape, api, b, p0, n);
    NoDiffs(found0, all.0);
    while i < n
      invariant 0 <= i <= n && found == found0 + DiffsOf(es)
      invariant var (rest, at) := ModuleWalk(DiffShape, api, b, p, n - i);
                all == (es + rest, at)
    {
      ModuleWalkStep(DiffShape, api, b, p, n - i, es);
      if p + 10 > end {
        return;
      }
      ghost var head := b[p..p + 8];
      HeadField(data, end, p);
      ghost var subs := SubWalk(DiffShape, api, head, b, p + 10, U16At(data, p + 8)).0;
      DiffsAppend(es, subs);
      found, p := ReadSubs(data, end, p + 10, U16At(data, p + 8), U16At(data, p), api, head, found);
      es := es + subs;
      i := i + 1;
    }
    ModuleWalkStep(DiffShape, api, b, p, 0, es);
  }

  lemma HeadField(data: bytes, end: nat, p: nat)
    requires p + 10 <= end <= |data|
    ensures U16At(data[..end][p..p + 8], 0) == U16At(data, p) && U16At(data[..end], p + 8) == U16At(data, p + 8)
  {}

  method ReadApis(data: bytes, end: nat, p0: nat, n: u16, found0: seq<SubmoduleDiff>) returns (found: seq<SubmoduleDiff>)
    requires end <= |data|
    ensures found == found0 + DiffsOf(ApiWalk(DiffShape, data[..end], p0, n).0)
  {
    hide ModuleWalk, ApiWalk, DiffsOf, U16At;
    found := found0;
    var i: nat, p: nat := 0, p0;
    ghost var b := data[..end];
    ghost var es: seq<Entry> := [];
    ghost var all := ApiWalk(DiffShape, b, p0, n);
    NoDiffs(found0, all.0);
    while i < n
      invariant 0 <= i <= n && found == found0 + DiffsOf(es)
      invariant all == (es + ApiWalk(DiffShape, b, p, n - i).0, ApiWalk(DiffShape, b, p, n - i).1)
    {
      ApiWalkStep(DiffShape, b, p, n - i, es);
      if p + 6 > end {
        return;
      }
      CutField(data, end, p + 4);
      ghost var modules := ModuleWalk(DiffShape, b[p..p + 4], b, p + 6, U16At(data, p + 4)).0;
      DiffsAppend(es, modules);
      found, p := ReadModules(data, end, p + 6, U16At(data, p + 4), b[p..p + 4], found);
      es := es + modules;
      i := i + 1;
    }
    ApiWalkStep(DiffShape, b, p, 0, es);
  }

  lemma NoDiffs(found: seq<SubmoduleDiff>, es: seq<Entry>)
    ensures found == found + DiffsOf([]) && [] + es == es
  {}

  method ParseModuleDiffBlock(data: bytes) returns (found: seq<SubmoduleDiff>)
    ensures found == Diffs(data)
  {
    hide ApiWalk, DiffsOf, EntriesFrom;
    NoDiffs([], EntriesFrom(data, 0));
    found := [];
    var offset: nat := 0;
    ghost var es: seq<Entry> := [];
    while offset + 6 <= |data|
      invariant found == DiffsOf(es)
      invariant EntriesFrom(data, 0) == es + EntriesFrom(data, offset)
      decreases |data| - offset
    {
      var blockLength := U16At(data, offset + 2);
      ghost var block := EntriesAt(data, offset);
      EntriesFromStep(data, offset, es);
      DiffsAppend(es, block);
      if U16At(data, offset) == MODULE_DIFF_BLOCK {
        var end := Min(offset + 4 + blockLength, |data|);
        var p := offset + 6;
        if p + 2 <= end {
          assert U16At(data[..end], p) == U16At(data, p);
          found := ReadApis(data, end, p + 2, U16At(data, p), found);
        }
      }
      es := es + block;
      offset := offset + 4 + blockLength;
    }
    NothingBehind(data, offset, es);
  }

  /** One turn of the loop, with `done` found before. */
  lemma EntriesFromStep(data: bytes, offset: nat, done: seq<Entry>)
    requires offset + 6 <= |data|
    ensures done + EntriesFrom(data, offset) == (done + EntriesAt(data, offset)) + EntriesFrom(data, BlockEnd(data, offset))
  {
    hide DiffEntries;
  }

  lemma NothingBehind(data: bytes, offset: nat, done: seq<Entry>)
    requires offset + 6 > |data|
    ensures done + EntriesFrom(data, offset) == done
  {}

  // -------------------------------------------------------------------------
  // Truncation
  // -------------------------------------------------------------------------

  lemma {:induction false} EntriesCut(data: bytes, offset: nat, len: nat)
    requires len <= |data|
    ensures EntriesFrom(data[..len], offset) <= EntriesFrom(data, offset)
    decreases |data| - offset
  {
    hide ApiWalk;
    if offset + 6 <= len {
      var end := BlockEnd(data, offset);
      assert U16At(data[..len], offset) == U16At(data, offset) && BlockEnd(data[..len], offset) == end;
      if end <= len {
        assert data[..len][..end] == data[..end];
        EntriesCut(data, end, len);
      } else {
        var block := data[..Min(end, |data|)];
        assert data[..len][..len] == data[..len] == block[..len];
        if offset + 8 <= len {
          assert U16At(data[..len], offset + 6) == U16At(block, offset + 6);
          ApiWalkCut(DiffShape, block, offset + 8, U16At(block, offset + 6), len);
        }
        assert EntriesFrom(data[..len], end) == [];
      }
    }
  }

  /** Parsing a response cut anywhere yields a prefix of parsing the whole. */
  lemma TruncationOnlyShortens(data: bytes, len: nat)
    requires len <= |data|
    ensures Diffs(data[..len]) <= Diffs(data)
  {
    EntriesCut(data, 0, len);
  }

  // -------------------------------------------------------------------------
  // Well-formed responses
  // -------------------------------------------------------------------------

  /** A block of a response; for a ModuleDiffBlock the records of its APIs. */
  datatype Block =
    | DiffBlock(apis: seq<ApiRecord>)
    | IocrRes(iocrType: u16, iocrReference: u16, frameId: u16)
    | Other(blockType: u16, content: bytes)

  predicate WellFormed(b: Block) {
    match b
    case DiffBlock(apis) => ApisFit(DiffShape, apis) && 4 + |ApisBytes(apis)| <= 0xFFFF
    case IocrRes(_, _, _) => true
    case Other(t, content) => t != MODULE_DIFF_BLOCK && t != IOCR_BLOCK_RES && 2 + |content| <= 0xFFFF
  }

  lemma HeaderAndContent(b: Block)
    requires WellFormed(b)
    ensures 2 + |ContentOf(b)| <= 0xFFFF
    ensures BlockBytes(b) == BlockHeader(TypeOf(b), 2 + |ContentOf(b)|) + ContentOf(b)
  {
    hide ApisBytes, ApisFit, BlockHeader;
  }

  lemma HeaderSize(blockType: u16, length: u16)
    ensures |BlockHeader(blockType, length)| == 6
  {}

  function TypeOf(b: Block): u16 {
    match b
    case DiffBlock(_) => 0x8104
    case IocrRes(_, _, _) => 0x8102
    case Other(t, _) => t
  }

  /** What follows the block header. */
  function ContentOf(b: Block): bytes {
    match b
    case DiffBlock(apis) => Be16(AsU16(|apis|)) + ApisBytes(apis)
    case IocrRes(t, ref, id) => Be16(t) + Be16(ref) + Be16(id)
    case Other(t, content) => content
  }

  function BlockBytes(b: Block): bytes {
    BlockHeader(TypeOf(b), AsU16(2 + |ContentOf(b)|)) + ContentOf(b)
  }

  function ResponseBytes(blocks: seq<Block>): bytes {
    if blocks == [] then [] else BlockBytes(blocks[0]) + ResponseBytes(blocks[1..])
  }

  /** Every submodule of every ModuleDiffBlock, in order. */
  function Listed(blocks: seq<Block>): seq<Entry> {
    if blocks == [] then []
    else (if blocks[0].DiffBlock? then ApiEntries(blocks[0].apis) else []) + Listed(blocks[1..])
  }

  lemma HeaderFields(pre: bytes, blockType: u16, length: u16, post: bytes)
    ensures var data := pre + (BlockHeader(blockType, length) + post);
            |data| >= |pre| + 6 && U16At(data, |pre|) == blockType && U16At(data, |pre| + 2) == length
  {
    var data := pre + (BlockHeader(blockType, length) + post);
    assert data == pre + Be16(blockType) + (Be16(length) + [0x01, 0x00] + post);
    Read16(data, pre, blockType, Be16(length) + [0x01, 0x00] + post);
    assert data == (pre + Be16(blockType)) + Be16(length) + ([0x01, 0x00] + post);
    Read16(data, pre + Be16(blockType), length, [0x01, 0x00] + post);
  }

  /** Header of a well-formed block: its type, and that its length leads to its end. */
  lemma BlockAt(pre: bytes, b: Block, post: bytes)
    requires WellFormed(b)
    ensures var data := pre + BlockBytes(b) + post;
            && |data| >= |pre| + 6 && U16At(data, |pre|) == TypeOf(b) && BlockEnd(data, |pre|) == |pre| + |BlockBytes(b)|
  {
    hide BlockHeader, U16At, ContentOf, BlockBytes, WellFormed;
    var content := ContentOf(b);
    assert BlockBytes(b) == BlockHeader(TypeOf(b), 2 + |content|) + content && 2 + |content| <= 0xFFFF by { hide *; HeaderAndContent(b); }
    HeaderSize(TypeOf(b), 2 + |content|);
    assert pre + BlockBytes(b) + post == pre + (BlockHeader(TypeOf(b), 2 + |content|) + (content + post));
    HeaderFields(pre, TypeOf(b), 2 + |content|, content + post);
  }

  lemma DiffBlockEntries(pre: bytes, apis: seq<ApiRecord>, post: bytes)
    requires WellFormed(DiffBlock(apis))
    ensures DiffEntries(pre + BlockBytes(DiffBlock(apis)), |pre|) == ApiEntries(apis)
  {
    hide *;
    DiffBlockParts(apis);
    var header, records := BlockHeader(MODULE_DIFF_BLOCK, 4 + |ApisBytes(apis)|), ApisBytes(apis);
    var b := pre + BlockBytes(DiffBlock(apis));
    assert b == (pre + header) + Be16(|apis|) + records;
    Read16(b, pre + header, |apis|, records);
    assert b == (pre + header + Be16(|apis|)) + records + [];
    ApiWalkRecovers(DiffShape, pre + header + Be16(|apis|), apis, []);
    EntriesOfBlock(b, |pre|);
  }

  lemma DiffBlockParts(apis: seq<ApiRecord>)
    requires WellFormed(DiffBlock(apis))
    ensures |apis| <= 0xFFFF && 4 + |ApisBytes(apis)| <= 0xFFFF && ApisFit(DiffShape, apis)
    ensures BlockBytes(DiffBlock(apis)) == BlockHeader(MODULE_DIFF_BLOCK, 4 + |ApisBytes(apis)|) + Be16(|apis|) + ApisBytes(apis)
  {
    hide ApisBytes, BlockHeader, Be16;
    var content := Be16(|apis|) + ApisBytes(apis);
    assert ContentOf(DiffBlock(apis)) == content && |content| == 2 + |ApisBytes(apis)|;
  }

  lemma EntriesOfBlock(b: bytes, offset: nat)
    requires offset + 8 <= |b|
    ensures DiffEntries(b, offset) == ApiWalk(DiffShape, b, offset + 8, U16At(b, offset + 6)).0
  {}

  lemma ApiCount(apis: seq<ApiRecord>)
    requires WellFormed(DiffBlock(apis))
    ensures |apis| <= 0xFFFF
  {}

  lemma {:induction false} ListedFrom(pre: bytes, blocks: seq<Block>)
    requires forall k :: 0 <= k < |blocks| ==> WellFormed(blocks[k])
    ensures EntriesFrom(pre + ResponseBytes(blocks), |pre|) == Listed(blocks)
    decreases |blocks|
  {
    hide WellFormed, BlockBytes, DiffEntries, ApiEntries;
    var data := pre + ResponseBytes(blocks);
    if blocks != [] {
      var b, rest := blocks[0], ResponseBytes(blocks[1..]);
      assert data == pre + BlockBytes(b) + rest;
      BlockAt(pre, b, rest);
      ListedFrom(pre + BlockBytes(b), blocks[1..]);
      var end := |pre| + |BlockBytes(b)|;
      assert data[..end] == pre + BlockBytes(b);
      if b.DiffBlock? {
        DiffBlockEntries(pre, b.apis, rest);
      } else {
        assert U16At(data, |pre|) != MODULE_DIFF_BLOCK by { hide *; NotDiff(b); }
      }
    }
  }

  lemma NotDiff(b: Block)
    requires WellFormed(b) && !b.DiffBlock?
    ensures b.Other? ==> b.blockType != MODULE_DIFF_BLOCK
  {}

  lemma {:induction false} ListedAreWhole(blocks: seq<Block>)
    requires forall k :: 0 <= k < |blocks| ==> WellFormed(blocks[k])
    ensures forall e :: e in Listed(blocks) ==> |e.api| == 4 && |e.head| == 8 && |e.sub| == 8
  {
    hide ApiEntries, ApisFit, ApisBytes;
    if blocks != [] {
      ListedAreWhole(blocks[1..]);
      if blocks[0].DiffBlock? {
        EntriesAreWhole(DiffShape, blocks[0].apis);
      }
    }
  }

  /** On a well-formed response the parser finds every submodule of every ModuleDiffBlock, each with the
      slot it is listed under, whatever other blocks stand between. */
  lemma EverySubmoduleIsFound(blocks: seq<Block>)
    requires forall k :: 0 <= k < |blocks| ==> WellFormed(blocks[k])
    ensures Diffs(ResponseBytes(blocks)) == DiffsOf(Listed(blocks))
    ensures forall e :: e in Listed(blocks) ==> |e.api| == 4 && |e.head| == 8 && |e.sub| == 8
  {
    hide EntriesFrom, ResponseBytes, Listed, WellFormed, DiffsOf;
    ListedAreWhole(blocks);
    assert [] + ResponseBytes(blocks) == ResponseBytes(blocks);
    ListedFrom([], blocks);
  }

  // -------------------------------------------------------------------------
  // Frame IDs and the verdict
  // -------------------------------------------------------------------------

  /** The frame ID of the first IOCRBlockRes of a type from `offset` on; zero if there is none. */
  function FrameIdFrom(data: bytes, offset: nat, iocrType: u16): u16
    decreases |data| - offset
  {
    if offset + 6 > |data| then 0
    else if U16At(data, offset) == IOCR_BLOCK_RES && offset + 12 <= |data| && U16At(data, offset + 6) == iocrType
    then U16At(data, offset + 10)
    else FrameIdFrom(data, BlockEnd(data, offset), iocrType)
  }

  method ParseIocrBlockRes(data: bytes, iocrType: u16) returns (frameId: u16)
    ensures frameId == FrameIdFrom(data, 0, iocrType)
  {
    var offset := 0;
    while offset + 6 <= |data|
      invariant FrameIdFrom(data, offset, iocrType) == FrameIdFrom(data, 0, iocrType)
      decreases |data| - offset
    {
      var blockLength := U16At(data, offset + 2);
      if U16At(data, offset) == IOCR_BLOCK_RES && offset + 12 <= |data| {
        if U16At(data, offset + 6) == iocrType {
          return U16At(data, offset + 10);
        }
      }
      offset := offset + 4 + blockLength;
    }
    return 0;
  }

  datatype ConnectResult = ConnectResult(inputFrameId: u16, outputFrameId: u16, hasCyclic: bool)

  function ConnectVerdict(rpcPayload: bytes, le: bool): Result<ConnectResult> {
    match ParseNrd(rpcPayload, le)
    case Err => Err
    case Ok(nrd) =>
      if nrd.argsStatus != 0 || exists k :: 0 <= k < |Diffs(nrd.payload)| && !Diffs(nrd.payload)[k].IsOurs() then Err
      else
        var input, output := FrameIdFrom(nrd.payload, 0, 1), FrameIdFrom(nrd.payload, 0, 2);
        Ok(ConnectResult(input, output, input != 0 || output != 0))
  }

  method ParseConnectResponse(rpcPayload: bytes, le: bool) returns (r: Result<ConnectResult>)
    ensures r == ConnectVerdict(rpcPayload, le)
  {
    hide Diffs, Rd32;
    var nrd := ParseNrd(rpcPayload, le);
    if nrd.Err? || nrd.value.argsStatus != 0 {
      return Err;
    }
    var diffs := ParseModuleDiffBlock(nrd.value.payload);
    var withheld := 0;
    for k := 0 to |diffs|
      invariant withheld > 0 <==> exists j :: 0 <= j < k && !diffs[j].IsOurs()
      invariant withheld >= 0
    {
      if !diffs[k].IsOurs() {
        withheld := withheld + 1;
      }
    }
    if withheld > 0 {
      return Err;
    }
    var input := ParseIocrBlockRes(nrd.value.payload, 1);
    var output := ParseIocrBlockRes(nrd.value.payload, 2);
    return Ok(ConnectResult(input, output, input != 0 || output != 0));
  }

  function AssignedFrameId(blocks: seq<Block>, iocrType: u16): u16 {
    if blocks == [] then 0
    else if blocks[0].IocrRes? && blocks[0].iocrType == iocrType then blocks[0].frameId
    else AssignedFrameId(blocks[1..], iocrType)
  }

  lemma IocrResFields(pre: bytes, t: u16, ref: u16, id: u16, post: bytes)
    ensures var data := pre + BlockBytes(IocrRes(t, ref, id)) + post;
            |data| >= |pre| + 12 && U16At(data, |pre| + 6) == t && U16At(data, |pre| + 10) == id
  {
    hide BlockHeader;
    var data, header := pre + BlockBytes(IocrRes(t, ref, id)) + post, BlockHeader(IOCR_BLOCK_RES, 8);
    HeaderSize(IOCR_BLOCK_RES, 8);
    assert data == (pre + header) + Be16(t) + (Be16(ref) + Be16(id) + post);
    Read16(data, pre + header, t, Be16(ref) + Be16(id) + post);
    assert data == (pre + header + Be16(t) + Be16(ref)) + Be16(id) + post;
    Read16(data, pre + header + Be16(t) + Be16(ref), id, post);
  }

  lemma {:induction false} FrameIdIsAssigned(pre: bytes, blocks: seq<Block>, iocrType: u16)
    requires forall k :: 0 <= k < |blocks| ==> WellFormed(blocks[k])
    ensures FrameIdFrom(pre + ResponseBytes(blocks), |pre|, iocrType) == AssignedFrameId(blocks, iocrType)
    decreases |blocks|
  {
    hide WellFormed, BlockBytes, U16At, BlockEnd;
    if blocks != [] {
      var b, rest := blocks[0], ResponseBytes(blocks[1..]);
      var data := pre + ResponseBytes(blocks);
      assert data == pre + BlockBytes(b) + rest;
      BlockAt(pre, b, rest);
      if b.IocrRes? {
        IocrResFields(pre, b.iocrType, b.iocrReference, b.frameId, rest);
      } else {
        assert TypeOf(b) != IOCR_BLOCK_RES by { hide *; NotIocr(b); }
      }
      FrameIdIsAssigned(pre + BlockBytes(b), blocks[1..], iocrType);
    }
  }

  lemma NotIocr(b: Block)
    requires WellFormed(b) && !b.IocrRes?
    ensures TypeOf(b) != IOCR_BLOCK_RES
  {}

  /** On a well-formed response the connect succeeds exactly if the device reports status zero and owns up
      to every submodule it lists, and then the frame IDs are the assigned ones. */
  lemma ConnectSucceedsExactlyIfOurs(nrd: ParsedNrd, le: bool, blocks: seq<Block>)
    requires nrd.payload == ResponseBytes(blocks)
    requires forall k :: 0 <= k < |blocks| ==> WellFormed(blocks[k])
    ensures ConnectVerdict(NrdBytes(nrd, le), le) ==
            if nrd.argsStatus == 0 && forall k :: 0 <= k < |Listed(blocks)| ==> DiffOf(Listed(blocks)[k]).IsOurs() then
              var input, output := AssignedFrameId(blocks, 1), AssignedFrameId(blocks, 2);
              Ok(ConnectResult(input, output, input != 0 || output != 0))
            else Err
  {
    hide WellFormed, ResponseBytes, NrdBytes, ParseNrd, Diffs, DiffOf, FrameIdFrom, AssignedFrameId, Listed;
    NrdRoundTrip(nrd, le);
    EverySubmoduleIsFound(blocks);
    assert [] + ResponseBytes(blocks) == ResponseBytes(blocks);
    FrameIdIsAssigned([], blocks, 1);
    FrameIdIsAssigned([], blocks, 2);
    var diffs := Diffs(nrd.payload);
    assert forall k :: 0 <= k < |diffs| ==> diffs[k] == DiffOf(Listed(blocks)[k]);
  }

  /** A response cut behind the array header is never refused when the whole was accepted. */
  lemma CutResponseIsNotRefused(rpcPayload: bytes, le: bool, len: nat)
    requires 20 <= len <= |rpcPayload| && ConnectVerdict(rpcPayload, le).Ok?
    ensures ConnectVerdict(rpcPayload[..len], le).Ok?
  {
    hide Diffs, FrameIdFrom;
    TruncationOnlyShortens(rpcPayload[20..], len - 20);
    assert rpcPayload[..len][20..] == rpcPayload[20..][..len - 20];
    assert Rd32(rpcPayload[..len], 0, le) == Rd32(rpcPayload, 0, le);
    var cut, whole := Diffs(rpcPayload[..len][20..]), Diffs(rpcPayload[20..]);
    assert forall k :: 0 <= k < |cut| ==> cut[k] == whole[k];
  }
}
