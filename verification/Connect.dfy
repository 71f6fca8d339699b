/** The blocks of a Connect request (src/connect.rs). */
module Connect {
  import opened Bytes
  import opened Wrappers
  import opened Ethernet
  import opened Rt

  const BLOCK_AR_REQ: u16 := 0x0101
  const BLOCK_IOCR_REQ: u16 := 0x0102
  const BLOCK_ALARM_CR_REQ: u16 := 0x0103
  const BLOCK_EXPECTED_SUBMODULE: u16 := 0x0104

  const CM_INITIATOR_OBJECT_UUID: Uuid :=
    [0xDE, 0xA0, 0x00, 0x00, 0x6C, 0x97, 0x11, 0xD1, 0x82, 0x71, 0x00, 0x01, 0x76, 0x54, 0x32, 0x10]

  datatype IocrSetup = IocrSetup(
    ioSlots: seq<IoSlot>, sendClockFactor: u16, reductionRatio: u16, watchdogFactor: u16, dataHoldFactor: u16)

  /** Drop submodules without any IO data when the caller asks for it. */
  function ApplyZeroIoExclusion(slots: seq<IoSlot>, exclude: bool): seq<IoSlot> {
    if !exclude || slots == [] then slots
    else
      var last := slots[|slots| - 1];
      ApplyZeroIoExclusion(slots[..|slots| - 1], true) + if last.inputLength > 0 || last.outputLength > 0 then [last] else []
  }

  function ArBlockReq(arType: u16, arUuid: Uuid, sessionKey: u16, cmMac: Mac, arProperties: u32, name: bytes): bytes {
    BlockHeader(BLOCK_AR_REQ, AsU16(54 + |name|)) + Be16(arType) + arUuid + Be16(sessionKey) + cmMac
    + CM_INITIATOR_OBJECT_UUID + Be32(arProperties) + Be16(100) + Be16(0x8892) + Be16(AsU16(|name|)) + name
  }

  /** `transport` 0 is layer 2 and 1 is UDP; `priority` is 0 or 1. */
  function AlarmCrBlock(localAlarmReference: u16, transport: u16, priority: u16): (r: bytes)
    requires priority <= 1
    ensures |r| == 26
  {
    var lt: u16 := if transport == 0 then 0x8892 else 0x0800;
    BlockHeader(BLOCK_ALARM_CR_REQ, 22) + Be16(1) + Be16(lt) + Be32(transport * 2 + priority) + Be16(1) + Be16(3)
    + Be16(localAlarmReference) + Be16(200) + Be16(0xC000) + Be16(0xA000)
  }

  // -------------------------------------------------------------------------
  // IOCRBlockReq
  // -------------------------------------------------------------------------

  function IocrApiObject(slot: u16, subslot: u16, frameOffset: u16): (r: bytes)
    ensures |r| == 6
  {
    Be16(slot) + Be16(subslot) + Be16(frameOffset)
  }

  function ObjectEntries(objects: seq<IoDataObject>): (r: bytes)
    ensures |r| == 6 * |objects|
  {
    if objects == [] then []
    else
      var o := objects[|objects| - 1];
      ObjectEntries(objects[..|objects| - 1]) + IocrApiObject(o.slot, o.subslot, AsU16(o.frameOffset))
  }

  /** The fixed part in front of the counted entries. */
  function IocrFixed(iocrType: u16, iocrReference: u16, setup: IocrSetup, blockLength: u16, dataLength: u16): (r: bytes)
    ensures |r| == 50
  {
    BlockHeader(BLOCK_IOCR_REQ, blockLength) + Be16(iocrType) + Be16(iocrReference) + Be16(0x8892) + Be32(1)
    + Be16(dataLength)
    + Be16(if iocrType == IOCR_TYPE_INPUT then AsU16(0xC000 + iocrReference) else 0xFFFF)
    + Be16(setup.sendClockFactor) + Be16(setup.reductionRatio) + Be16(1) + Be16(0) + Be32(0xFFFF_FFFF)
    + Be16(setup.watchdogFactor) + Be16(setup.dataHoldFactor) + Be16(0xC000) + [0, 0, 0, 0, 0, 0] + Be16(1) + Be32(0)
  }

  function IocrBlock(iocrType: u16, iocrReference: u16, setup: IocrSetup): bytes {
    var data, iocs := DataObjects(iocrType, setup.ioSlots), IocsOf(iocrType, setup.ioSlots);
    IocrFixed(iocrType, iocrReference, setup, AsU16(50 + 6 * |data| + 6 * |iocs|),
              AsU16(Max(LayoutLength(iocrType, setup.ioSlots), MIN_DATA_LENGTH)))
    + Be16(AsU16(|data|)) + ObjectEntries(data) + Be16(AsU16(|iocs|)) + ObjectEntries(iocs)
  }

  lemma ObjectEntriesAppend(objects: seq<IoDataObject>, o: IoDataObject)
    ensures ObjectEntries(objects + [o]) == ObjectEntries(objects) + IocrApiObject(o.slot, o.subslot, AsU16(o.frameOffset))
  {
    assert (objects + [o])[..|objects|] == objects;
  }

  /** The IODataObject entries: submodules with data in this direction. */
  method DataEntries(iocrType: u16, slots: seq<IoSlot>) returns (objects: bytes, numObjects: u16, frameOffset: nat)
    ensures objects == ObjectEntries(DataObjects(iocrType, slots)) && numObjects == AsU16(|DataObjects(iocrType, slots)|)
    ensures frameOffset == DataEnd(iocrType, slots)
  {
    hide IocrApiObject, ObjectEntries, DataObjects, DataEnd, AsU16;
    NoObjects(iocrType, 0);
    EmptyEntries();
    Fits16(0);
    objects, numObjects, frameOffset := [], 0, 0;
    for i := 0 to |slots|
      invariant objects == ObjectEntries(DataObjects(iocrType, slots[..i]))
      invariant numObjects == AsU16(|DataObjects(iocrType, slots[..i])|)
      invariant frameOffset == DataEnd(iocrType, slots[..i])
    {
      var slot := slots[i];
      assert slots[..i + 1] == slots[..i] + [slot];
      DataObjectsAppend(iocrType, slots[..i], slot);
      var dataLen := if iocrType == 1 then slot.inputLength else slot.outputLength;
      if dataLen > 0 {
        ObjectEntriesAppend(DataObjects(iocrType, slots[..i]),
                            IoDataObject(slot.slot, slot.subslot, frameOffset, dataLen, frameOffset + dataLen, None));
        objects := objects + IocrApiObject(slot.slot, slot.subslot, AsU16(frameOffset));
        frameOffset := frameOffset + dataLen + 1;
        OneMore(|DataObjects(iocrType, slots[..i])|);
        numObjects := AsU16(numObjects + 1);
      }
    }
    assert slots[..|slots|] == slots;
  }

  lemma EmptyEntries()
    ensures ObjectEntries([]) == []
  {}

  /** Counting in 16 bits. */
  lemma OneMore(n: nat)
    ensures AsU16(AsU16(n) + 1) == AsU16(n + 1)
  {}

  /** The IOCS entries: all other submodules. */
  method IocsEntries(iocrType: u16, slots: seq<IoSlot>, dataEnd: nat) returns (iocs: bytes, iocsCount: u16, frameOffset: nat)
    ensures iocs == ObjectEntries(IocsObjects(iocrType, slots, dataEnd)) && iocsCount == AsU16(|IocsObjects(iocrType, slots, dataEnd)|)
    ensures frameOffset == dataEnd + |IocsObjects(iocrType, slots, dataEnd)|
  {
    hide IocrApiObject, ObjectEntries, IocsObjects, AsU16;
    NoObjects(iocrType, dataEnd);
    EmptyEntries();
    Fits16(0);
    iocs, iocsCount, frameOffset := [], 0, dataEnd;
    for i := 0 to |slots|
      invariant iocs == ObjectEntries(IocsObjects(iocrType, slots[..i], dataEnd))
      invariant iocsCount == AsU16(|IocsObjects(iocrType, slots[..i], dataEnd)|)
      invariant frameOffset == dataEnd + |IocsObjects(iocrType, slots[..i], dataEnd)|
    {
      var slot := slots[i];
      assert slots[..i + 1] == slots[..i] + [slot];
      IocsObjectsAppend(iocrType, slots[..i], slot, dataEnd);
      if iocrType == 1 && slot.inputLength > 0 {
        continue;
      }
      if iocrType == 2 && slot.outputLength > 0 {
        continue;
      }
      ObjectEntriesAppend(IocsObjects(iocrType, slots[..i], dataEnd),
                          IoDataObject(slot.slot, slot.subslot, frameOffset, 0, 0, Some(frameOffset)));
      iocs := iocs + IocrApiObject(slot.slot, slot.subslot, AsU16(frameOffset));
      frameOffset := frameOffset + 1;
      OneMore(|IocsObjects(iocrType, slots[..i], dataEnd)|);
      iocsCount := AsU16(iocsCount + 1);
    }
    assert slots[..|slots|] == slots;
  }

  method IocrBlockReq(iocrType: u16, iocrReference: u16, setup: IocrSetup) returns (out: bytes)
    ensures out == IocrBlock(iocrType, iocrReference, setup)
  {
    hide IocrFixed, DataObjects, IocsObjects, DataEnd;
    var objects, numObjects, frameOffset := DataEntries(iocrType, setup.ioSlots);
    var iocs, iocsCount, total := IocsEntries(iocrType, setup.ioSlots, frameOffset);
    var dataLength := AsU16(Max(total, MIN_DATA_LENGTH));
    var apiBlockLen := 4 + 2 + |objects| + 2 + |iocs|;
    out := IocrFixed(iocrType, iocrReference, setup, AsU16(46 + apiBlockLen - 4), dataLength)
           + Be16(numObjects) + objects + Be16(iocsCount) + iocs;
  }

  // -------------------------------------------------------------------------
  // What the device reads
  // -------------------------------------------------------------------------

  /** One entry of an IOCRBlockReq: slot, subslot, frame offset. */
  type Entry = (u16, u16, u16)

  /** The fixed part of an IOCRBlockReq. */
  datatype IocrHead = IocrHead(
    iocrType: u16, iocrReference: u16, lt: u16, properties: u32, dataLength: u16, frameId: u16,
    sendClockFactor: u16, reductionRatio: u16, phase: u16, sequence: u16, frameSendOffset: u32,
    watchdogFactor: u16, dataHoldFactor: u16, tagHeader: u16, multicast: bytes, apis: u16, api: u32)

  datatype IocrView = IocrView(head: IocrHead, data: seq<Entry>, iocs: seq<Entry>)

  function HeadOf(block: bytes): IocrHead
    requires |block| >= 50
  {
    IocrHead(U16At(block, 6), U16At(block, 8), U16At(block, 10), U32At(block, 12), U16At(block, 16), U16At(block, 18),
             U16At(block, 20), U16At(block, 22), U16At(block, 24), U16At(block, 26), U32At(block, 28),
             U16At(block, 32), U16At(block, 34), U16At(block, 36), block[38..44], U16At(block, 44), U32At(block, 46))
  }

  /** What the device is told besides the layout: RT_CLASS_1 over PROFINET, the timing of the setup, phase
      1 and sequence 0, no multicast, and API 0 alone. */
  function HeadTold(iocrType: u16, iocrReference: u16, setup: IocrSetup, dataLength: u16): IocrHead {
    IocrHead(iocrType, iocrReference, ETHERTYPE_PROFINET, 1, dataLength,
             if iocrType == IOCR_TYPE_INPUT then AsU16(0xC000 + iocrReference) else 0xFFFF,
             setup.sendClockFactor, setup.reductionRatio, 1, 0, 0xFFFF_FFFF, setup.watchdogFactor, setup.dataHoldFactor,
             0xC000, [0, 0, 0, 0, 0, 0], 1, 0)
  }

  function EntryAt(block: bytes, at: nat): Entry
    requires at + 6 <= |block|
  {
    (U16At(block, at), U16At(block, at + 2), U16At(block, at + 4))
  }

  function EntriesAt(block: bytes, at: nat, n: nat): seq<Entry>
    requires at + 6 * n <= |block|
  {
    if n == 0 then [] else EntriesAt(block, at, n - 1) + [EntryAt(block, at + 6 * (n - 1))]
  }

  /** Reading an IOCRBlockReq with one API by its counts. */
  function ReadIocrBlock(block: bytes): Option<IocrView> {
    if |block| < 52 then None
    else
      var n := U16At(block, 50);
      if |block| < 54 + 6 * n then None
      else
        var m := U16At(block, 52 + 6 * n);
        if |block| != 54 + 6 * n + 6 * m then None
        else Some(IocrView(HeadOf(block), EntriesAt(block, 52, n), EntriesAt(block, 54 + 6 * n, m)))
  }

  /** What the runtime believes about the same objects. */
  function EntriesOf(objects: seq<IoDataObject>): seq<Entry>
    requires forall o :: o in objects ==> o.frameOffset < 0x1_0000
  {
    if objects == [] then []
    else
      var o := objects[|objects| - 1];
      EntriesOf(objects[..|objects| - 1]) + [(o.slot, o.subslot, o.frameOffset)]
  }

  lemma EntryReadsBack(pre: bytes, slot: u16, subslot: u16, frameOffset: u16, post: bytes)
    ensures EntryAt(pre + IocrApiObject(slot, subslot, frameOffset) + post, |pre|) == (slot, subslot, frameOffset)
  {
    var data := pre + IocrApiObject(slot, subslot, frameOffset) + post;
    assert data[|pre|..|pre| + 2] == Be16(slot) && data[|pre| + 2..|pre| + 4] == Be16(subslot);
    assert data[|pre| + 4..|pre| + 6] == Be16(frameOffset);
    Be16At(data, |pre|, slot);
    Be16At(data, |pre| + 2, subslot);
    Be16At(data, |pre| + 4, frameOffset);
  }

  lemma {:induction false} EntriesReadBack(pre: bytes, objects: seq<IoDataObject>, post: bytes)
    requires forall o :: o in objects ==> o.frameOffset < 0x1_0000
    ensures EntriesAt(pre + ObjectEntries(objects) + post, |pre|, |objects|) == EntriesOf(objects)
  {
    hide IocrApiObject, EntryAt;
    if objects != [] {
      var n := |objects| - 1;
      var init, o := objects[..n], objects[n];
      var entry := IocrApiObject(o.slot, o.subslot, AsU16(o.frameOffset));
      var data := pre + ObjectEntries(objects) + post;
      assert data == pre + ObjectEntries(init) + (entry + post);
      EntriesReadBack(pre, init, entry + post);
      EntryReadsBack(pre + ObjectEntries(init), o.slot, o.subslot, o.frameOffset, post);
      assert data == (pre + ObjectEntries(init)) + entry + post;
    }
  }

  lemma IocrFixedFields(iocrType: u16, iocrReference: u16, setup: IocrSetup, blockLength: u16, dataLength: u16)
    ensures var f := IocrFixed(iocrType, iocrReference, setup, blockLength, dataLength);
            U16At(f, 0) == BLOCK_IOCR_REQ && U16At(f, 2) == blockLength
  {
    hide Be16, Be32, U16At;
    var f := IocrFixed(iocrType, iocrReference, setup, blockLength, dataLength);
    assert f[..2] == Be16(BLOCK_IOCR_REQ) && f[2..4] == Be16(blockLength);
    Be16At(f, 0, BLOCK_IOCR_REQ);
    Be16At(f, 2, blockLength);
  }

  /** Every field of the fixed part reads back as told. */
  lemma FixedReadsBack(iocrType: u16, iocrReference: u16, setup: IocrSetup, blockLength: u16, dataLength: u16)
    ensures HeadOf(IocrFixed(iocrType, iocrReference, setup, blockLength, dataLength)) == HeadTold(iocrType, iocrReference, setup, dataLength)
  {
    hide Be16, Be32, U16At, U32At, IocrFixed, HeadTold;
    var f := IocrFixed(iocrType, iocrReference, setup, blockLength, dataLength);
    var t := HeadTold(iocrType, iocrReference, setup, dataLength);
    FixedParts(iocrType, iocrReference, setup, blockLength, dataLength);
    FrontFields(f, t);
    TimingFields(f, t);
    BackFields(f, t);
  }

  lemma FixedParts(iocrType: u16, iocrReference: u16, setup: IocrSetup, blockLength: u16, dataLength: u16)
    ensures var f := IocrFixed(iocrType, iocrReference, setup, blockLength, dataLength);
            var t := HeadTold(iocrType, iocrReference, setup, dataLength);
            && f[6..20] == Be16(t.iocrType) + Be16(t.iocrReference) + Be16(t.lt) + Be32(t.properties) + Be16(t.dataLength) + Be16(t.frameId)
            && f[20..36] == Be16(t.sendClockFactor) + Be16(t.reductionRatio) + Be16(t.phase) + Be16(t.sequence) + Be32(t.frameSendOffset)
                            + Be16(t.watchdogFactor) + Be16(t.dataHoldFactor)
            && |t.multicast| == 6 && f[36..50] == Be16(t.tagHeader) + t.multicast + Be16(t.apis) + Be32(t.api)
  {
    hide Be16, Be32, BlockHeader, AsU16;
    var f := IocrFixed(iocrType, iocrReference, setup, blockLength, dataLength);
    var t := HeadTold(iocrType, iocrReference, setup, dataLength);
    var front := Be16(t.iocrType) + Be16(t.iocrReference) + Be16(t.lt) + Be32(t.properties) + Be16(t.dataLength) + Be16(t.frameId);
    var timing := Be16(t.sendClockFactor) + Be16(t.reductionRatio) + Be16(t.phase) + Be16(t.sequence) + Be32(t.frameSendOffset)
      + Be16(t.watchdogFactor) + Be16(t.dataHoldFactor);
    var back := Be16(t.tagHeader) + t.multicast + Be16(t.apis) + Be32(t.api);
    var header := BlockHeader(BLOCK_IOCR_REQ, blockLength);
    assert f == header + front + timing + back;
    Quarters(header, front, timing, back);
  }

  lemma Quarters(a: bytes, b: bytes, c: bytes, d: bytes)
    requires |a| == 6 && |b| == 14 && |c| == 16 && |d| == 14
    ensures var f := a + b + c + d; |f| == 50 && f[6..20] == b && f[20..36] == c && f[36..50] == d
  {}

  /** Fields of a part are fields of the whole. */
  lemma PartOf(f: bytes, at: nat, part: bytes)
    requires at + |part| <= |f| && part == f[at..at + |part|]
    ensures forall k: nat :: k + 2 <= |part| ==> U16At(f, at + k) == U16At(part, k)
    ensures forall k: nat :: k + 4 <= |part| ==> U32At(f, at + k) == U32At(part, k)
  {}

  lemma FrontFields(f: bytes, t: IocrHead)
    requires |f| == 50
    requires f[6..20] == Be16(t.iocrType) + Be16(t.iocrReference) + Be16(t.lt) + Be32(t.properties) + Be16(t.dataLength) + Be16(t.frameId)
    ensures U16At(f, 6) == t.iocrType && U16At(f, 8) == t.iocrReference && U16At(f, 10) == t.lt && U32At(f, 12) == t.properties
    ensures U16At(f, 16) == t.dataLength && U16At(f, 18) == t.frameId
  {
    hide Be16, Be32, U16At, U32At;
    var a, b, c, d, e, g := Be16(t.iocrType), Be16(t.iocrReference), Be16(t.lt), Be32(t.properties), Be16(t.dataLength), Be16(t.frameId);
    var part := f[6..20];
    Read16(part, [], t.iocrType, b + c + d + e + g) by { assert part == [] + a + (b + c + d + e + g); }
    Read16(part, a, t.iocrReference, c + d + e + g) by { assert part == a + b + (c + d + e + g); }
    Read16(part, a + b, t.lt, d + e + g) by { assert part == (a + b) + c + (d + e + g); }
    Read32(part, a + b + c, t.properties, e + g) by { assert part == (a + b + c) + d + (e + g); }
    Read16(part, a + b + c + d, t.dataLength, g);
    Read16(part, a + b + c + d + e, t.frameId, []) by { assert part == (a + b + c + d + e) + g + []; }
    PartOf(f, 6, part);
  }

  lemma TimingFields(f: bytes, t: IocrHead)
    requires |f| == 50
    requires f[20..36] == Be16(t.sendClockFactor) + Be16(t.reductionRatio) + Be16(t.phase) + Be16(t.sequence) + Be32(t.frameSendOffset)
                          + Be16(t.watchdogFactor) + Be16(t.dataHoldFactor)
    ensures U16At(f, 20) == t.sendClockFactor && U16At(f, 22) == t.reductionRatio && U16At(f, 24) == t.phase
    ensures U16At(f, 26) == t.sequence && U32At(f, 28) == t.frameSendOffset
    ensures U16At(f, 32) == t.watchdogFactor && U16At(f, 34) == t.dataHoldFactor
  {
    hide Be16, Be32, U16At, U32At;
    var a, b, c, d := Be16(t.sendClockFactor), Be16(t.reductionRatio), Be16(t.phase), Be16(t.sequence);
    var e, g, h := Be32(t.frameSendOffset), Be16(t.watchdogFactor), Be16(t.dataHoldFactor);
    var part := f[20..36];
    Read16(part, [], t.sendClockFactor, b + c + d + e + g + h) by { assert part == [] + a + (b + c + d + e + g + h); }
    Read16(part, a, t.reductionRatio, c + d + e + g + h) by { assert part == a + b + (c + d + e + g + h); }
    Read16(part, a + b, t.phase, d + e + g + h) by { assert part == (a + b) + c + (d + e + g + h); }
    Read16(part, a + b + c, t.sequence, e + g + h) by { assert part == (a + b + c) + d + (e + g + h); }
    Read32(part, a + b + c + d, t.frameSendOffset, g + h) by { assert part == (a + b + c + d) + e + (g + h); }
    Read16(part, a + b + c + d + e, t.watchdogFactor, h);
    Read16(part, a + b + c + d + e + g, t.dataHoldFactor, []) by { assert part == (a + b + c + d + e + g) + h + []; }
    PartOf(f, 20, part);
  }

  lemma BackFields(f: bytes, t: IocrHead)
    requires |f| == 50 && |t.multicast| == 6
    requires f[36..50] == Be16(t.tagHeader) + t.multicast + Be16(t.apis) + Be32(t.api)
    ensures U16At(f, 36) == t.tagHeader && f[38..44] == t.multicast && U16At(f, 44) == t.apis && U32At(f, 46) == t.api
  {
    hide Be16, Be32, U16At, U32At;
    var a, b, c, d := Be16(t.tagHeader), t.multicast, Be16(t.apis), Be32(t.api);
    var part := f[36..50];
    Read16(part, [], t.tagHeader, b + c + d) by { assert part == [] + a + (b + c + d); }
    Read16(part, a + b, t.apis, d);
    Read32(part, a + b + c, t.api, []) by { assert part == (a + b + c) + d + []; }
    PartOf(f, 36, part);
    assert f[38..44] == part[2..8] == b;
  }

  lemma HeadComesFirst(fixed: bytes, rest: bytes)
    requires |fixed| == 50
    ensures HeadOf(fixed + rest) == HeadOf(fixed)
  {
    assert (fixed + rest)[38..44] == fixed[38..44];
  }

  /** Every frame offset of a layout that fits 65535 bytes fits a u16. */
  lemma OffsetsFit(iocrType: u16, slots: seq<IoSlot>)
    requires LayoutLength(iocrType, slots) <= 0xFFFF
    ensures forall o :: o in DataObjects(iocrType, slots) + IocsOf(iocrType, slots) ==> o.frameOffset < 0xFFFF
    ensures |DataObjects(iocrType, slots)| + |IocsOf(iocrType, slots)| <= 0xFFFF
  {
    var all := DataObjects(iocrType, slots) + IocsOf(iocrType, slots);
    LayoutTiles(iocrType, slots);
    TilingIsPartition(all, 0, LayoutLength(iocrType, slots));
    forall k | 0 <= k < |all|
      ensures all[k].frameOffset < 0xFFFF
    {
      assert Owns(all[k], Start(all[k])) && Owned(all, Start(all[k]));
    }
    AtLeastAByteEach(all, 0, LayoutLength(iocrType, slots));
  }

  lemma {:induction false} AtLeastAByteEach(objects: seq<IoDataObject>, from: nat, to: nat)
    requires Tiles(objects, from, to)
    ensures from + |objects| <= to
    decreases |objects|
  {
    if objects != [] {
      AtLeastAByteEach(objects[..|objects| - 1], from, Start(objects[|objects| - 1]));
    }
  }

  /** The device reads from the block the timing and addressing of the setup, and exactly the objects the
      runtime lays out. */
  lemma BlockReadsAsLayout(iocrType: u16, iocrReference: u16, setup: IocrSetup)
    requires LayoutLength(iocrType, setup.ioSlots) <= 0xFFFF
    ensures var data, iocs := DataObjects(iocrType, setup.ioSlots), IocsOf(iocrType, setup.ioSlots);
            && (forall o :: o in data + iocs ==> o.frameOffset < 0xFFFF)
            && ReadIocrBlock(IocrBlock(iocrType, iocrReference, setup)) == Some(IocrView(
                 HeadTold(iocrType, iocrReference, setup, Max(LayoutLength(iocrType, setup.ioSlots), MIN_DATA_LENGTH)),
                 EntriesOf(data), EntriesOf(iocs)))
  {
    hide IocrFixed, DataObjects, IocsObjects, DataEnd, ReadIocrBlock, EntriesOf, ObjectEntries, Be16, U16At, LayoutLength, HeadOf, HeadTold;
    OffsetsFit(iocrType, setup.ioSlots);
    var data, iocs := DataObjects(iocrType, setup.ioSlots), IocsOf(iocrType, setup.ioSlots);
    var dataLength := Max(LayoutLength(iocrType, setup.ioSlots), MIN_DATA_LENGTH);
    var fixed := IocrFixed(iocrType, iocrReference, setup, AsU16(50 + 6 * |data| + 6 * |iocs|), dataLength);
    FixedReadsBack(iocrType, iocrReference, setup, AsU16(50 + 6 * |data| + 6 * |iocs|), dataLength);
    CountedEntriesReadBack(fixed, data, iocs);
  }

  lemma ReadBlock(block: bytes, n: nat, m: nat)
    requires |block| == 54 + 6 * n + 6 * m && U16At(block, 50) == n && U16At(block, 52 + 6 * n) == m
    ensures ReadIocrBlock(block) == Some(IocrView(HeadOf(block), EntriesAt(block, 52, n), EntriesAt(block, 54 + 6 * n, m)))
  {
    hide U16At, EntriesAt, HeadOf;
  }

  lemma EntriesSize(objects: seq<IoDataObject>)
    ensures |ObjectEntries(objects)| == 6 * |objects|
  {}

  /** Counted entries behind the fixed part read back. */
  lemma CountedEntriesReadBack(fixed: bytes, data: seq<IoDataObject>, iocs: seq<IoDataObject>)
    requires |fixed| == 50 && |data| + |iocs| <= 0xFFFF
    requires (forall o :: o in data ==> o.frameOffset < 0xFFFF) && (forall o :: o in iocs ==> o.frameOffset < 0xFFFF)
    ensures var block := fixed + Be16(|data|) + ObjectEntries(data) + Be16(|iocs|) + ObjectEntries(iocs);
            ReadIocrBlock(block) == Some(IocrView(HeadOf(fixed), EntriesOf(data), EntriesOf(iocs)))
  {
    hide *;
    var block := fixed + Be16(|data|) + ObjectEntries(data) + Be16(|iocs|) + ObjectEntries(iocs);
    EntriesSize(data);
    EntriesSize(iocs);
    CountsReadBack(fixed, |data|, ObjectEntries(data), |iocs|, ObjectEntries(iocs));
    EntriesStand(fixed, data, iocs);
    ReadBlock(block, |data|, |iocs|);
  }

  lemma CountsReadBack(fixed: bytes, n: u16, a: bytes, m: u16, b: bytes)
    requires |fixed| == 50
    ensures var block := fixed + Be16(n) + a + Be16(m) + b;
            && |block| == 54 + |a| + |b|
            && HeadOf(block) == HeadOf(fixed)
            && U16At(block, 50) == n && U16At(block, 52 + |a|) == m
  {
    hide Be16, U16At, HeadOf;
    var block := fixed + Be16(n) + a + Be16(m) + b;
    assert block == fixed + (Be16(n) + a + Be16(m) + b);
    HeadComesFirst(fixed, Be16(n) + a + Be16(m) + b);
    assert block == fixed + Be16(n) + (a + Be16(m) + b);
    Read16(block, fixed, n, a + Be16(m) + b);
    Read16(block, fixed + Be16(n) + a, m, b);
  }

  lemma EntriesStand(fixed: bytes, data: seq<IoDataObject>, iocs: seq<IoDataObject>)
    requires |fixed| == 50 && |data| + |iocs| <= 0xFFFF
    requires (forall o :: o in data ==> o.frameOffset < 0xFFFF) && (forall o :: o in iocs ==> o.frameOffset < 0xFFFF)
    ensures var block := fixed + Be16(|data|) + ObjectEntries(data) + Be16(|iocs|) + ObjectEntries(iocs);
            && EntriesAt(block, 52, |data|) == EntriesOf(data)
            && EntriesAt(block, 54 + 6 * |data|, |iocs|) == EntriesOf(iocs)
  {
    hide EntriesAt, EntriesOf, ObjectEntries, Be16;
    var a, b, n, m := ObjectEntries(data), ObjectEntries(iocs), Be16(|data|), Be16(|iocs|);
    var block := fixed + n + a + m + b;
    assert block == (fixed + n) + a + (m + b);
    EntriesReadBack(fixed + n, data, m + b);
    assert block == (fixed + n + a + m) + b + [];
    EntriesReadBack(fixed + n + a + m, iocs, []);
  }

  /** The device runs at the timing of the configuration, under its type and reference. */
  predicate SameTiming(head: IocrHead, config: IocrConfig, setup: IocrSetup) {
    && head.sendClockFactor == config.sendClockFactor && head.reductionRatio == config.reductionRatio
    && head.watchdogFactor == config.watchdogFactor && head.dataHoldFactor == setup.dataHoldFactor
    && head.phase == 1 && head.sequence == 0
    && head.iocrType == config.iocrType && head.iocrReference == config.iocrReference
  }

  /** What the device is told and what the runtime works with are the same, in both directions: same
      timing, same data entries, same consumer status entries on the output side, same length. */
  lemma LayoutAgreement(setup: IocrSetup, inputFrameId: u16, outputFrameId: u16)
    requires LayoutLength(IOCR_TYPE_INPUT, setup.ioSlots) <= 0xFFFF && LayoutLength(IOCR_TYPE_OUTPUT, setup.ioSlots) <= 0xFFFF
    ensures var scf, rr, wd := setup.sendClockFactor, setup.reductionRatio, setup.watchdogFactor;
            var input := InputConfig(setup.ioSlots, inputFrameId, scf, rr, wd);
            var output := OutputConfig(setup.ioSlots, outputFrameId, scf, rr, wd);
            var told := ReadIocrBlock(IocrBlock(IOCR_TYPE_INPUT, 1, setup));
            var toldOut := ReadIocrBlock(IocrBlock(IOCR_TYPE_OUTPUT, 2, setup));
            && (forall o :: o in input.objects + output.objects ==> o.frameOffset < 0xFFFF)
            && told.Some? && told.value.data == EntriesOf(input.objects) && told.value.head.dataLength == input.dataLength
            && toldOut.Some? && toldOut.value.data + toldOut.value.iocs == EntriesOf(output.objects)
            && toldOut.value.head.dataLength == output.dataLength
            && input.dataLength == Max(LayoutLength(1, setup.ioSlots), 40) && output.dataLength == Max(LayoutLength(2, setup.ioSlots), 40)
            && SameTiming(told.value.head, input, setup) && SameTiming(toldOut.value.head, output, setup)
  {
    hide IocrBlock, ReadIocrBlock;
    BlockReadsAsLayout(IOCR_TYPE_INPUT, 1, setup);
    BlockReadsAsLayout(IOCR_TYPE_OUTPUT, 2, setup);
    EntriesOfAppend(DataObjects(IOCR_TYPE_OUTPUT, setup.ioSlots), IocsOf(IOCR_TYPE_OUTPUT, setup.ioSlots));
  }

  lemma {:induction false} EntriesOfAppend(a: seq<IoDataObject>, b: seq<IoDataObject>)
    requires forall o :: o in a + b ==> o.frameOffset < 0x1_0000
    ensures EntriesOf(a + b) == EntriesOf(a) + EntriesOf(b)
    decreases |b|
  {
    if b == [] {
      assert a + b == a;
    } else {
      assert (a + b)[..|a + b| - 1] == a + b[..|b| - 1];
      EntriesOfAppend(a, b[..|b| - 1]);
    }
  }

  /** Told and runtime layout partition the frame, with nothing but padding behind. */
  lemma LayoutPartitionsFrame(iocrType: u16, setup: IocrSetup)
    requires iocrType == IOCR_TYPE_INPUT || iocrType == IOCR_TYPE_OUTPUT
    ensures var all := DataObjects(iocrType, setup.ioSlots) + IocsOf(iocrType, setup.ioSlots);
            && LayoutLength(iocrType, setup.ioSlots) == SumLengths(iocrType, setup.ioSlots) + |setup.ioSlots|
            && (forall p :: Owned(all, p) <==> 0 <= p < SumLengths(iocrType, setup.ioSlots) + |setup.ioSlots|)
            && (forall p, j, k :: 0 <= j < |all| && 0 <= k < |all| && Owns(all[j], p) && Owns(all[k], p) ==> j == k)
  {
    LayoutTiles(iocrType, setup.ioSlots);
    LayoutLengthIsSum(iocrType, setup.ioSlots, DataEnd(iocrType, setup.ioSlots));
    TilingIsPartition(DataObjects(iocrType, setup.ioSlots) + IocsOf(iocrType, setup.ioSlots), 0, LayoutLength(iocrType, setup.ioSlots));
  }

  /** The last submodule is kept if it has data. */
  lemma {:induction false} ExclusionStep(slots: seq<IoSlot>)
    ensures ApplyZeroIoExclusion(slots, true) ==
            if slots == [] then []
            else
              var init, last := slots[..|slots| - 1], slots[|slots| - 1];
              if last.inputLength > 0 || last.outputLength > 0 then ApplyZeroIoExclusion(init, true) + [last]
              else ApplyZeroIoExclusion(init, true)
  {}

  /** Excluding submodules without IO data from one side only never moves process data: their status
      bytes stand behind all of it. */
  lemma {:induction false} ExclusionKeepsData(iocrType: u16, slots: seq<IoSlot>)
    ensures DataObjects(iocrType, ApplyZeroIoExclusion(slots, true)) == DataObjects(iocrType, slots)
    ensures DataEnd(iocrType, ApplyZeroIoExclusion(slots, true)) == DataEnd(iocrType, slots)
  {
    hide DataObjects, DataEnd, ApplyZeroIoExclusion;
    ExclusionStep(slots);
    if slots != [] {
      var init, last := slots[..|slots| - 1], slots[|slots| - 1];
      ExclusionKeepsData(iocrType, init);
      assert slots == init + [last];
      DataObjectsAppend(iocrType, init, last);
      DataObjectsAppend(iocrType, ApplyZeroIoExclusion(init, true), last);
    }
  }

  // -------------------------------------------------------------------------
  // The other two fixed blocks
  // -------------------------------------------------------------------------

  datatype ArView = ArView(
    arType: u16, arUuid: bytes, sessionKey: u16, cmMac: bytes, objectUuid: bytes, properties: u32,
    timeoutFactor: u16, udpPort: u16, name: bytes)

  /** An ARBlockReq read field by field; its length and that of the name must be right. */
  function ReadArBlock(block: bytes): Option<ArView> {
    if |block| < 58 || U16At(block, 0) != BLOCK_AR_REQ || |block| != 4 + U16At(block, 2) || |block| != 58 + U16At(block, 56) then None
    else Some(ArView(U16At(block, 6), block[8..24], U16At(block, 24), block[26..32], block[32..48], U32At(block, 48),
                     U16At(block, 52), U16At(block, 54), block[58..]))
  }

  /** The device reads from the block what the controller put there, the fixed object UUID, the activity
      timeout of 10 s and the RT port included. */
  lemma ArReadsBack(arType: u16, arUuid: Uuid, sessionKey: u16, cmMac: Mac, arProperties: u32, name: bytes)
    requires 54 + |name| <= 0xFFFF
    ensures ReadArBlock(ArBlockReq(arType, arUuid, sessionKey, cmMac, arProperties, name))
            == Some(ArView(arType, arUuid, sessionKey, cmMac, CM_INITIATOR_OBJECT_UUID, arProperties, 100, ETHERTYPE_PROFINET, name))
  {
    hide Be16, Be32, U16At, U32At, BlockHeader;
    var uuid := CM_INITIATOR_OBJECT_UUID;
    var block := ArBlockReq(arType, arUuid, sessionKey, cmMac, arProperties, name);
    var header := BlockHeader(BLOCK_AR_REQ, 54 + |name|);
    var ids := Be16(arType) + arUuid + Be16(sessionKey) + cmMac + uuid;
    var tail := Be32(arProperties) + Be16(100) + Be16(0x8892) + Be16(|name|);
    assert AsU16(54 + |name|) == 54 + |name| && AsU16(|name|) == |name| by { hide *; Fits16(54 + |name|); Fits16(|name|); }
    assert block == header + (ids + tail + name);
    HeaderFields(block, BLOCK_AR_REQ, 54 + |name|, ids + tail + name);
    assert block == header + ids + (tail + name);
    ArIds(block, header, arType, arUuid, sessionKey, cmMac, tail + name);
    assert block == (header + ids) + tail + name;
    ArTail(block, header + ids, arProperties, name);
  }

  lemma HeaderFields(block: bytes, blockType: u16, length: u16, rest: bytes)
    requires block == BlockHeader(blockType, length) + rest
    ensures |block| >= 4 && U16At(block, 0) == blockType && U16At(block, 2) == length
  {
    hide Be16, U16At;
    assert block == [] + Be16(blockType) + (Be16(length) + [0x01, 0x00] + rest);
    Read16(block, [], blockType, Be16(length) + [0x01, 0x00] + rest);
    assert block == Be16(blockType) + Be16(length) + ([0x01, 0x00] + rest);
    Read16(block, Be16(blockType), length, [0x01, 0x00] + rest);
  }

  lemma ArIds(block: bytes, header: bytes, arType: u16, arUuid: Uuid, sessionKey: u16, cmMac: Mac, rest: bytes)
    requires |header| == 6
    requires block == header + (Be16(arType) + arUuid + Be16(sessionKey) + cmMac + CM_INITIATOR_OBJECT_UUID) + rest
    ensures |block| >= 48 && U16At(block, 6) == arType && block[8..24] == arUuid && U16At(block, 24) == sessionKey
    ensures block[26..32] == cmMac && block[32..48] == CM_INITIATOR_OBJECT_UUID
  {
    hide Be16, U16At;
    var a, c, uuid := Be16(arType), Be16(sessionKey), CM_INITIATOR_OBJECT_UUID;
    assert block == header + a + (arUuid + c + cmMac + uuid + rest);
    Read16(block, header, arType, arUuid + c + cmMac + uuid + rest);
    assert block == (header + a + arUuid) + c + (cmMac + uuid + rest);
    Read16(block, header + a + arUuid, sessionKey, cmMac + uuid + rest);
  }

  lemma ArTail(block: bytes, pre: bytes, arProperties: u32, name: bytes)
    requires |pre| == 48 && |name| <= 0xFFFF
    requires block == pre + (Be32(arProperties) + Be16(100) + Be16(0x8892) + Be16(|name|)) + name
    ensures |block| == 58 + |name| && U32At(block, 48) == arProperties && U16At(block, 52) == 100 && U16At(block, 54) == 0x8892
    ensures U16At(block, 56) == |name| && block[58..] == name
  {
    hide Be16, Be32, U16At, U32At;
    var a, b, c, d := Be32(arProperties), Be16(100), Be16(0x8892), Be16(|name|);
    assert block == pre + a + (b + c + d + name);
    Read32(block, pre, arProperties, b + c + d + name);
    assert block == (pre + a) + b + (c + d + name);
    Read16(block, pre + a, 100, c + d + name);
    assert block == (pre + a + b) + c + (d + name);
    Read16(block, pre + a + b, 0x8892, d + name);
    assert block == (pre + a + b + c) + d + name;
    Read16(block, pre + a + b + c, |name|, name);
  }

  datatype AlarmCrView = AlarmCrView(
    crType: u16, lt: u16, properties: u32, rtaTimeoutFactor: u16, rtaRetries: u16, reference: u16, maxDataLength: u16,
    tagHigh: u16, tagLow: u16)

  function ReadAlarmCrBlock(block: bytes): Option<AlarmCrView> {
    if |block| != 26 || U16At(block, 0) != BLOCK_ALARM_CR_REQ || U16At(block, 2) != 22 then None
    else Some(AlarmCrView(U16At(block, 6), U16At(block, 8), U32At(block, 10), U16At(block, 14), U16At(block, 16), U16At(block, 18),
                          U16At(block, 20), U16At(block, 22), U16At(block, 24)))
  }

  /** The device is told the controller's alarm reference and the timing of the listener's defaults: a
      timeout factor of 1, which is 100 ms, and 3 retries. */
  lemma AlarmCrReadsBack(reference: u16, transport: u16, priority: u16)
    requires priority <= 1
    ensures ReadAlarmCrBlock(AlarmCrBlock(reference, transport, priority))
            == Some(AlarmCrView(1, if transport == 0 then 0x8892 else 0x0800, transport * 2 + priority, 1, 3,
                                reference, 200, 0xC000, 0xA000))
  {
    hide Be16, Be32, U16At, U32At, BlockHeader;
    var block, lt: u16 := AlarmCrBlock(reference, transport, priority), if transport == 0 then 0x8892 else 0x0800;
    var header := BlockHeader(BLOCK_ALARM_CR_REQ, 22);
    var front := Be16(1) + Be16(lt) + Be32(transport * 2 + priority) + Be16(1);
    var back := Be16(3) + Be16(reference) + Be16(200) + Be16(0xC000) + Be16(0xA000);
    assert block == header + (front + back);
    HeaderFields(block, BLOCK_ALARM_CR_REQ, 22, front + back);
    assert block == header + front + back;
    CrFront(block, header, lt, transport * 2 + priority, back);
    CrBack(block, header + front, reference);
  }

  lemma CrFront(block: bytes, pre: bytes, lt: u16, properties: u32, rest: bytes)
    requires |pre| == 6 && block == pre + (Be16(1) + Be16(lt) + Be32(properties) + Be16(1)) + rest
    ensures |block| >= 16 && U16At(block, 6) == 1 && U16At(block, 8) == lt && U32At(block, 10) == properties && U16At(block, 14) == 1
  {
    hide Be16, Be32, U16At, U32At;
    var a, b, c, d := Be16(1), Be16(lt), Be32(properties), Be16(1);
    assert block == pre + a + (b + c + d + rest);
    Read16(block, pre, 1, b + c + d + rest);
    assert block == (pre + a) + b + (c + d + rest);
    Read16(block, pre + a, lt, c + d + rest);
    assert block == (pre + a + b) + c + (d + rest);
    Read32(block, pre + a + b, properties, d + rest);
    assert block == (pre + a + b + c) + d + rest;
    Read16(block, pre + a + b + c, 1, rest);
  }

  lemma CrBack(block: bytes, pre: bytes, reference: u16)
    requires |pre| == 16 && block == pre + (Be16(3) + Be16(reference) + Be16(200) + Be16(0xC000) + Be16(0xA000))
    ensures |block| == 26 && U16At(block, 16) == 3 && U16At(block, 18) == reference && U16At(block, 20) == 200
    ensures U16At(block, 22) == 0xC000 && U16At(block, 24) == 0xA000
  {
    hide Be16, U16At;
    var a, b, c, d, e := Be16(3), Be16(reference), Be16(200), Be16(0xC000), Be16(0xA000);
    assert block == pre + a + (b + c + d + e);
    Read16(block, pre, 3, b + c + d + e);
    assert block == (pre + a) + b + (c + d + e);
    Read16(block, pre + a, reference, c + d + e);
    assert block == (pre + a + b) + c + (d + e);
    Read16(block, pre + a + b, 200, d + e);
    assert block == (pre + a + b + c) + d + e;
    Read16(block, pre + a + b + c, 0xC000, e);
    assert block == (pre + a + b + c + d) + e + [];
    Read16(block, pre + a + b + c + d, 0xA000, []);
  }

  // -------------------------------------------------------------------------
  // Consumer status under exclusion
  // -------------------------------------------------------------------------

  /** The submodules the exclusion leaves. */
  predicate Retained(s: IoSlot) {
    s.inputLength > 0 || s.outputLength > 0
  }

  function Kept(slots: seq<IoSlot>): seq<IoSlot> {
    ApplyZeroIoExclusion(slots, true)
  }

  function Excluded(slots: seq<IoSlot>): nat {
    if slots == [] then 0 else Excluded(slots[..|slots| - 1]) + if Retained(slots[|slots| - 1]) then 0 else 1
  }

  /** How many submodules have a consumer status byte in a direction. */
  function StatusCount(iocrType: u16, slots: seq<IoSlot>): nat {
    if slots == [] then 0
    else StatusCount(iocrType, slots[..|slots| - 1]) + if NeedsIocs(iocrType, slots[|slots| - 1]) then 1 else 0
  }

  /** Where the status byte of a submodule stands: behind all data and the status bytes before it. */
  function StatusOffset(iocrType: u16, slots: seq<IoSlot>, i: nat): nat
    requires i < |slots|
  {
    DataEnd(iocrType, slots) + StatusCount(iocrType, slots[..i])
  }

  lemma {:induction false} StatusesCounted(iocrType: u16, slots: seq<IoSlot>, at: nat)
    ensures |IocsObjects(iocrType, slots, at)| == StatusCount(iocrType, slots)
  {
    if slots != [] {
      StatusesCounted(iocrType, slots[..|slots| - 1], at);
    }
  }

  /** The runtime, and by `LayoutAgreement` the device, has the status byte there. */
  lemma {:induction false} StatusIsThere(iocrType: u16, slots: seq<IoSlot>, i: nat, at: nat)
    requires i < |slots| && NeedsIocs(iocrType, slots[i])
    ensures var k := StatusCount(iocrType, slots[..i]);
            && k < |IocsObjects(iocrType, slots, at)|
            && IocsObjects(iocrType, slots, at)[k] == IoDataObject(slots[i].slot, slots[i].subslot, at + k, 0, 0, Some(at + k))
  {
    var n := |slots| - 1;
    StatusesCounted(iocrType, slots[..n], at);
    if i < n {
      StatusIsThere(iocrType, slots[..n], i, at);
      assert slots[..n][..i] == slots[..i];
    }
  }

  lemma {:induction false} StatusesLost(iocrType: u16, slots: seq<IoSlot>)
    ensures StatusCount(iocrType, Kept(slots)) + Excluded(slots) == StatusCount(iocrType, slots)
  {
    if slots != [] {
      var init, last := slots[..|slots| - 1], slots[|slots| - 1];
      StatusesLost(iocrType, init);
      if Retained(last) {
        assert Kept(slots) == Kept(init) + [last];
        assert (Kept(init) + [last])[..|Kept(init)|] == Kept(init);
      } else {
        assert Kept(slots) == Kept(init);
      }
    }
  }

  /** A retained submodule stands behind the retained ones before it. */
  lemma {:induction false} KeptAt(slots: seq<IoSlot>, i: nat)
    requires i < |slots| && Retained(slots[i])
    ensures var p := |Kept(slots[..i])|;
            p < |Kept(slots)| && Kept(slots)[p] == slots[i] && Kept(slots)[..p] == Kept(slots[..i])
  {
    var init, last := slots[..|slots| - 1], slots[|slots| - 1];
    if i < |init| {
      KeptAt(init, i);
      assert init[..i] == slots[..i];
      assert Kept(slots) == Kept(init) + if Retained(last) then [last] else [];
    } else {
      assert init == slots[..i] && Kept(slots) == Kept(init) + [last];
    }
  }

  /** Exclusion moves the status byte of a retained submodule forward by the number of submodules
      excluded before it. */
  lemma ExclusionShiftsStatus(iocrType: u16, slots: seq<IoSlot>, i: nat)
    requires i < |slots| && Retained(slots[i])
    ensures var p := |Kept(slots[..i])|;
            && p < |Kept(slots)| && Kept(slots)[p] == slots[i]
            && StatusOffset(iocrType, Kept(slots), p) + Excluded(slots[..i]) == StatusOffset(iocrType, slots, i)
  {
    KeptAt(slots, i);
    ExclusionKeepsData(iocrType, slots);
    StatusesLost(iocrType, slots[..i]);
  }

  /** The status byte of a retained submodule stays where it was. */
  predicate StatusStays(iocrType: u16, slots: seq<IoSlot>, i: nat)
    requires i < |slots|
  {
    var p := |Kept(slots[..i])|;
    p < |Kept(slots)| && StatusOffset(iocrType, Kept(slots), p) == StatusOffset(iocrType, slots, i)
  }

  lemma {:induction false} SomeExcluded(slots: seq<IoSlot>)
    ensures Excluded(slots) > 0 <==> exists j :: 0 <= j < |slots| && !Retained(slots[j])
  {
    if slots != [] {
      var n := |slots| - 1;
      SomeExcluded(slots[..n]);
      assert forall j :: 0 <= j < n ==> slots[..n][j] == slots[j];
    }
  }

  /** One-sided exclusion leaves every status byte of a direction where it was exactly if no excluded
      submodule stands before a retained one that has a status byte in that direction. */
  lemma ExclusionKeepsStatusExactlyIf(iocrType: u16, slots: seq<IoSlot>)
    ensures (forall i :: 0 <= i < |slots| && Retained(slots[i]) && NeedsIocs(iocrType, slots[i]) ==> StatusStays(iocrType, slots, i))
            <==> !exists i, j :: 0 <= j < i < |slots| && !Retained(slots[j]) && Retained(slots[i]) && NeedsIocs(iocrType, slots[i])
  {
    hide Kept, StatusOffset;
    forall i | 0 <= i < |slots| && Retained(slots[i])
      ensures StatusStays(iocrType, slots, i) <==> !exists j :: 0 <= j < i && !Retained(slots[j])
    {
      ExclusionShiftsStatus(iocrType, slots, i);
      SomeExcluded(slots[..i]);
      assert forall j :: 0 <= j < i ==> slots[..i][j] == slots[j];
    }
  }

  /** In particular one empty submodule in front is enough. */
  lemma EmptyInFrontMovesStatus(iocrType: u16, empty: IoSlot, s: IoSlot)
    requires !Retained(empty) && Retained(s)
    ensures !StatusStays(iocrType, [empty, s], 1)
  {
    hide StatusOffset, Kept;
    ExclusionShiftsStatus(iocrType, [empty, s], 1);
    assert [empty, s][..1] == [empty] && [empty][..0] == [];
    assert Excluded([empty]) == 1;
  }

  /** For example, an empty submodule in front moves the status byte of an input behind it. */
  lemma ExclusionMovesConsumerStatus()
    ensures var slots := [IoSlot(1, 1, 0, 0, 0, 0), IoSlot(2, 1, 0, 0, 4, 0)];
            && IocsOf(IOCR_TYPE_OUTPUT, slots) == [IoDataObject(1, 1, 0, 0, 0, Some(0)), IoDataObject(2, 1, 1, 0, 0, Some(1))]
            && IocsOf(IOCR_TYPE_OUTPUT, ApplyZeroIoExclusion(slots, true)) == [IoDataObject(2, 1, 0, 0, 0, Some(0))]
  {
    var a, b := IoSlot(1, 1, 0, 0, 0, 0), IoSlot(2, 1, 0, 0, 4, 0);
    assert [a, b][..1] == [a] && [a][..0] == [] && [b][..0] == [];
    assert ApplyZeroIoExclusion([a], true) == [];
    assert ApplyZeroIoExclusion([a, b], true) == [b];
    assert DataEnd(IOCR_TYPE_OUTPUT, [a]) == 0 && DataEnd(IOCR_TYPE_OUTPUT, [a, b]) == 0 && DataEnd(IOCR_TYPE_OUTPUT, [b]) == 0;
    assert IocsObjects(IOCR_TYPE_OUTPUT, [a], 0) == [IoDataObject(1, 1, 0, 0, 0, Some(0))];
  }
}
