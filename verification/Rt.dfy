/** RT_CLASS_1 frames and the IOCR configuration of the runtime (src/rt.rs). */
module Rt {
  import opened Bytes
  import opened Wrappers
  import opened Ethernet

  const IOCR_TYPE_INPUT: u16 := 1
  const IOCR_TYPE_OUTPUT: u16 := 2
  const DATA_STATUS_STATE: u8 := 0x01
  const DATA_STATUS_VALID: u8 := 0x04
  const DATA_STATUS_PROVIDER_RUN: u8 := 0x10
  const DATA_STATUS_STATION_OK: u8 := 0x20
  const IOXS_GOOD: u8 := 0x80
  const IOXS_BAD: u8 := 0x00
  const MIN_DATA_LENGTH := 40

  datatype RtFrame = RtFrame(frameId: u16, cycleCounter: u16, dataStatus: u8, transferStatus: u8, payload: bytes) {
    /** DataStatus bit 2. */
    predicate IsValid() { dataStatus / 0x04 % 2 == 1 }
    /** DataStatus bit 4. */
    predicate IsRunning() { dataStatus / 0x10 % 2 == 1 }
    /** DataStatus bit 7. */
    predicate IsIgnored() { dataStatus / 0x80 % 2 == 1 }

    function ToBytes(): bytes {
      Be16(frameId) + payload + Be16(cycleCounter) + [dataStatus, transferStatus]
    }
  }

  function FrameFromBytes(data: bytes): Result<RtFrame> {
    var n := |data|;
    if n < 6 then Err
    else Ok(RtFrame(U16At(data, 0), U16At(data, n - 4), data[n - 2], data[n - 1], data[2..n - 4]))
  }

  const VLAN_TAG_RT: bytes := [0x81, 0x00, 0xC0, 0x00]

  function BuildEthernetFrame(dst: Mac, src: Mac, frame: RtFrame): bytes {
    dst + src + VLAN_TAG_RT + Be16(ETHERTYPE_PROFINET) + frame.ToBytes()
  }

  function ParseEthernetFrame(data: bytes): Option<RtFrame> {
    if |data| < 18 then None
    else
      var at := SkipFrom(data, 12);
      if |data| < at + 2 || U16At(data, at) != ETHERTYPE_PROFINET then None
      else match FrameFromBytes(data[at + 2..]) case Err => None case Ok(f) => Some(f)
  }

  /** A frame reads back, under any number of VLAN tags and none. */
  lemma FrameRoundTrip(dst: Mac, src: Mac, tags: bytes, f: RtFrame)
    requires IsTags(tags)
    ensures ParseEthernetFrame(dst + src + tags + Be16(ETHERTYPE_PROFINET) + f.ToBytes()) == Some(f)
  {
    hide SkipFrom, IsTags, Be16, U16At, FrameFromBytes, RtFrame.ToBytes;
    TagsDoNotMatter(dst + src, tags, ETHERTYPE_PROFINET, f.ToBytes());
    BytesRoundTrip(f);
    ParseIsStrip(dst + src + tags + Be16(ETHERTYPE_PROFINET) + f.ToBytes());
  }

  /** Of frames with whole tags exactly those with the PROFINET EtherType and room for an RT header parse. */
  lemma ParsesExactlyProfinet(macs: bytes, tags: bytes, ethertype: u16, payload: bytes)
    requires |macs| == 12 && IsTags(tags) && !IsTpid(ethertype)
    ensures ParseEthernetFrame(macs + tags + Be16(ethertype) + payload).Some? <==> ethertype == 0x8892 && |payload| >= 6
  {
    hide Be16, U16At, IsTags;
    var rest := Be16(ethertype) + payload;
    var data := macs + tags + Be16(ethertype) + payload;
    assert data == macs + tags + rest && data == (macs + tags) + Be16(ethertype) + payload;
    Read16(rest, [], ethertype, payload) by { assert rest == [] + Be16(ethertype) + payload; }
    SkipsExactlyTheTags(macs, tags, rest);
    Read16(data, macs + tags, ethertype, payload);
  }

  lemma ParseIsStrip(data: bytes)
    ensures |data| >= 18 && StripEth(data, ETHERTYPE_PROFINET).Ok? ==>
              ParseEthernetFrame(data) ==
              match FrameFromBytes(StripEth(data, ETHERTYPE_PROFINET).value) case Err => None case Ok(f) => Some(f)
  {
    hide FrameFromBytes, SkipFrom;
  }

  lemma BytesRoundTrip(f: RtFrame)
    ensures |f.ToBytes()| >= 6 && FrameFromBytes(f.ToBytes()) == Ok(f)
  {
    hide Be16, U16At;
    var body := f.ToBytes();
    var status := [f.dataStatus, f.transferStatus];
    assert body == [] + Be16(f.frameId) + (f.payload + Be16(f.cycleCounter) + status);
    Read16(body, [], f.frameId, f.payload + Be16(f.cycleCounter) + status);
    assert body == (Be16(f.frameId) + f.payload) + Be16(f.cycleCounter) + status;
    Read16(body, Be16(f.frameId) + f.payload, f.cycleCounter, status);
    var n := |body|;
    assert body[2..n - 4] == f.payload;
    assert body[n - 2] == status[0] && body[n - 1] == status[1];
  }

  lemma BuiltFrameRoundTrip(dst: Mac, src: Mac, f: RtFrame)
    ensures ParseEthernetFrame(BuildEthernetFrame(dst, src, f)) == Some(f)
  {
    assert VLAN_TAG_RT[4..] == [] && IsTags(VLAN_TAG_RT[4..]) && U16At(VLAN_TAG_RT, 0) == TPID_8021Q;
    FrameRoundTrip(dst, src, VLAN_TAG_RT, f);
  }

  // -------------------------------------------------------------------------
  // IOCR configuration
  // -------------------------------------------------------------------------

  datatype IoDataObject = IoDataObject(
    slot: u16, subslot: u16, frameOffset: nat, dataLength: nat, iopsOffset: nat, iocsOffset: Option<nat>)

  datatype IocrConfig = IocrConfig(
    iocrType: u16, iocrReference: u16, frameId: u16, sendClockFactor: u16, reductionRatio: u16, phase: u16,
    watchdogFactor: u16, dataLength: nat, objects: seq<IoDataObject>)
  {
    function CycleTimeUs(): nat { (reductionRatio as nat) * (sendClockFactor as nat) * 125 / 4 }
    function WatchdogTimeUs(): nat { (watchdogFactor as nat) * CycleTimeUs() }
  }

  datatype IoSlot = IoSlot(slot: u16, subslot: u16, moduleIdent: u32, submoduleIdent: u32, inputLength: nat, outputLength: nat)

  /** Bytes a submodule exchanges in the direction of an IOCR type. */
  function DataLen(iocrType: u16, s: IoSlot): nat {
    if iocrType == IOCR_TYPE_INPUT then s.inputLength else s.outputLength
  }

  // -------------------------------------------------------------------------
  // The layout the runtime uses
  // -------------------------------------------------------------------------

  /** First offset behind the data objects of a list of slots. */
  function DataEnd(iocrType: u16, slots: seq<IoSlot>): nat {
    if slots == [] then 0
    else
      var last := slots[|slots| - 1];
      DataEnd(iocrType, slots[..|slots| - 1]) + if DataLen(iocrType, last) > 0 then DataLen(iocrType, last) + 1 else 0
  }

  function DataObjects(iocrType: u16, slots: seq<IoSlot>): seq<IoDataObject> {
    if slots == [] then []
    else
      var init, s := slots[..|slots| - 1], slots[|slots| - 1];
      var at, len := DataEnd(iocrType, init), DataLen(iocrType, s);
      DataObjects(iocrType, init) + if len > 0 then [IoDataObject(s.slot, s.subslot, at, len, at + len, None)] else []
  }

  /** Whether a submodule gets a consumer status byte in an IOCR: it has no data in its direction. */
  predicate NeedsIocs(iocrType: u16, s: IoSlot) {
    !(iocrType == IOCR_TYPE_INPUT && s.inputLength > 0) && !(iocrType == IOCR_TYPE_OUTPUT && s.outputLength > 0)
  }

  /** Consumer-status objects, one byte each, from offset `at` on. */
  function IocsObjects(iocrType: u16, slots: seq<IoSlot>, at: nat): seq<IoDataObject> {
    if slots == [] then []
    else
      var before, s := IocsObjects(iocrType, slots[..|slots| - 1], at), slots[|slots| - 1];
      before + if NeedsIocs(iocrType, s) then [IoDataObject(s.slot, s.subslot, at + |before|, 0, 0, Some(at + |before|))] else []
  }

  function IocsOf(iocrType: u16, slots: seq<IoSlot>): seq<IoDataObject> {
    IocsObjects(iocrType, slots, DataEnd(iocrType, slots))
  }

  lemma NoObjects(iocrType: u16, at: nat)
    ensures DataObjects(iocrType, []) == [] && DataEnd(iocrType, []) == 0 && IocsObjects(iocrType, [], at) == []
  {}

  lemma DataObjectsAppend(iocrType: u16, slots: seq<IoSlot>, s: IoSlot)
    ensures var before, at, len := DataObjects(iocrType, slots), DataEnd(iocrType, slots), DataLen(iocrType, s);
            if len > 0 then
              && DataObjects(iocrType, slots + [s]) == before + [IoDataObject(s.slot, s.subslot, at, len, at + len, None)]
              && DataEnd(iocrType, slots + [s]) == at + len + 1
            else
              DataObjects(iocrType, slots + [s]) == before && DataEnd(iocrType, slots + [s]) == at
  {
    assert (slots + [s])[..|slots|] == slots;
  }

  lemma IocsObjectsAppend(iocrType: u16, slots: seq<IoSlot>, s: IoSlot, at: nat)
    ensures var before := IocsObjects(iocrType, slots, at);
            IocsObjects(iocrType, slots + [s], at) ==
            if NeedsIocs(iocrType, s) then before + [IoDataObject(s.slot, s.subslot, at + |before|, 0, 0, Some(at + |before|))]
            else before
  {
    assert (slots + [s])[..|slots|] == slots;
  }

  /** Total bytes of an IOCR: data, a provider status byte per data object, and a consumer status
      byte per other submodule. */
  function LayoutLength(iocrType: u16, slots: seq<IoSlot>): nat {
    DataEnd(iocrType, slots) + |IocsOf(iocrType, slots)|
  }

  function InputConfig(slots: seq<IoSlot>, frameId: u16, scf: u16, rr: u16, wd: u16): IocrConfig {
    IocrConfig(IOCR_TYPE_INPUT, 1, frameId, scf, rr, 0, wd, Max(LayoutLength(IOCR_TYPE_INPUT, slots), MIN_DATA_LENGTH),
               DataObjects(IOCR_TYPE_INPUT, slots))
  }

  function OutputConfig(slots: seq<IoSlot>, frameId: u16, scf: u16, rr: u16, wd: u16): IocrConfig {
    IocrConfig(IOCR_TYPE_OUTPUT, 2, frameId, scf, rr, 0, wd, Max(LayoutLength(IOCR_TYPE_OUTPUT, slots), MIN_DATA_LENGTH),
               DataObjects(IOCR_TYPE_OUTPUT, slots) + IocsOf(IOCR_TYPE_OUTPUT, slots))
  }

  /** The input half of `build_iocr_configs`: only data objects are kept, the rest is counted. */
  method BuildInput(slots: seq<IoSlot>) returns (objects: seq<IoDataObject>, frameOffset: nat)
    ensures objects == DataObjects(IOCR_TYPE_INPUT, slots) && frameOffset == LayoutLength(IOCR_TYPE_INPUT, slots)
  {
    hide DataObjects, DataEnd, IocsObjects;
    NoObjects(IOCR_TYPE_INPUT, 0);
    objects, frameOffset := [], 0;
    for i := 0 to |slots|
      invariant objects == DataObjects(IOCR_TYPE_INPUT, slots[..i]) && frameOffset == DataEnd(IOCR_TYPE_INPUT, slots[..i])
    {
      var s := slots[i];
      assert slots[..i + 1] == slots[..i] + [s];
      DataObjectsAppend(IOCR_TYPE_INPUT, slots[..i], s);
      if s.inputLength > 0 {
        objects := objects + [IoDataObject(s.slot, s.subslot, frameOffset, s.inputLength, frameOffset + s.inputLength, None)];
        frameOffset := frameOffset + s.inputLength + 1;
      }
    }
    ghost var dataEnd := frameOffset;
    NoObjects(IOCR_TYPE_INPUT, dataEnd);
    assert slots[..|slots|] == slots;
    for i := 0 to |slots|
      invariant frameOffset == dataEnd + |IocsObjects(IOCR_TYPE_INPUT, slots[..i], dataEnd)|
    {
      assert slots[..i + 1] == slots[..i] + [slots[i]];
      IocsObjectsAppend(IOCR_TYPE_INPUT, slots[..i], slots[i], dataEnd);
      if slots[i].inputLength == 0 {
        frameOffset := frameOffset + 1;
      }
    }
  }

  /** The output half: consumer-status objects follow the data objects. */
  method BuildOutput(slots: seq<IoSlot>) returns (objects: seq<IoDataObject>, frameOffset: nat)
    ensures objects == DataObjects(IOCR_TYPE_OUTPUT, slots) + IocsOf(IOCR_TYPE_OUTPUT, slots)
    ensures frameOffset == LayoutLength(IOCR_TYPE_OUTPUT, slots)
  {
    hide DataObjects, DataEnd, IocsObjects;
    NoObjects(IOCR_TYPE_OUTPUT, 0);
    objects, frameOffset := [], 0;
    for i := 0 to |slots|
      invariant objects == DataObjects(IOCR_TYPE_OUTPUT, slots[..i]) && frameOffset == DataEnd(IOCR_TYPE_OUTPUT, slots[..i])
    {
      var s := slots[i];
      assert slots[..i + 1] == slots[..i] + [s];
      DataObjectsAppend(IOCR_TYPE_OUTPUT, slots[..i], s);
      if s.outputLength > 0 {
        objects := objects + [IoDataObject(s.slot, s.subslot, frameOffset, s.outputLength, frameOffset + s.outputLength, None)];
        frameOffset := frameOffset + s.outputLength + 1;
      }
    }
    ghost var dataEnd := frameOffset;
    NoObjects(IOCR_TYPE_OUTPUT, dataEnd);
    assert slots[..|slots|] == slots;
    for i := 0 to |slots|
      invariant objects == DataObjects(IOCR_TYPE_OUTPUT, slots) + IocsObjects(IOCR_TYPE_OUTPUT, slots[..i], dataEnd)
      invariant frameOffset == dataEnd + |IocsObjects(IOCR_TYPE_OUTPUT, slots[..i], dataEnd)|
    {
      var s := slots[i];
      assert slots[..i + 1] == slots[..i] + [s];
      IocsObjectsAppend(IOCR_TYPE_OUTPUT, slots[..i], s, dataEnd);
      if s.outputLength == 0 {
        objects := objects + [IoDataObject(s.slot, s.subslot, frameOffset, 0, 0, Some(frameOffset))];
        frameOffset := frameOffset + 1;
      }
    }
  }

  method BuildIocrConfigs(slots: seq<IoSlot>, inputFrameId: u16, outputFrameId: u16, scf: u16, rr: u16, wd: u16)
    returns (input: IocrConfig, output: IocrConfig)
    ensures input == InputConfig(slots, inputFrameId, scf, rr, wd)
    ensures output == OutputConfig(slots, outputFrameId, scf, rr, wd)
  {
    var inputObjects, inputLength := BuildInput(slots);
    input := IocrConfig(IOCR_TYPE_INPUT, 1, inputFrameId, scf, rr, 0, wd, Max(inputLength, MIN_DATA_LENGTH), inputObjects);
    var outputObjects, outputLength := BuildOutput(slots);
    output := IocrConfig(IOCR_TYPE_OUTPUT, 2, outputFrameId, scf, rr, 0, wd, Max(outputLength, MIN_DATA_LENGTH), outputObjects);
  }

  // -------------------------------------------------------------------------
  // Tiling
  // -------------------------------------------------------------------------

  /** The bytes an object owns: its data and provider status, or its consumer status. */
  function Start(o: IoDataObject): nat {
    o.frameOffset
  }

  function End(o: IoDataObject): nat {
    if o.dataLength > 0 then o.iopsOffset + 1 else o.frameOffset + 1
  }

  /** Objects of the two kinds the layout knows. */
  predicate Shaped(o: IoDataObject) {
    if o.dataLength > 0 then o.iopsOffset == o.frameOffset + o.dataLength && o.iocsOffset == None
    else o.iocsOffset == Some(o.frameOffset)
  }

  /** The objects follow one another without gap or overlap from `from` to `to`. */
  predicate Tiles(objects: seq<IoDataObject>, from: nat, to: nat) {
    && (forall k :: 0 <= k < |objects| ==> Shaped(objects[k]))
    && (if objects == [] then from == to
        else
          && Start(objects[0]) == from && End(objects[|objects| - 1]) == to
          && forall k :: 0 < k < |objects| ==> Start(objects[k]) == End(objects[k - 1]))
  }

  lemma TilesAppend(a: seq<IoDataObject>, b: seq<IoDataObject>, from: nat, mid: nat, to: nat)
    requires Tiles(a, from, mid) && Tiles(b, mid, to)
    ensures Tiles(a + b, from, to)
  {}

  lemma NothingTiles(at: nat)
    ensures Tiles([], at, at)
  {}

  lemma PushTile(objects: seq<IoDataObject>, o: IoDataObject, from: nat, to: nat)
    requires Tiles(objects, from, to) && Shaped(o) && Start(o) == to
    ensures Tiles(objects + [o], from, End(o))
  {}

  lemma {:induction false} DataObjectsTile(iocrType: u16, slots: seq<IoSlot>)
    ensures Tiles(DataObjects(iocrType, slots), 0, DataEnd(iocrType, slots))
  {
    hide DataObjects, DataEnd, Tiles;
    NoObjects(iocrType, 0);
    if slots == [] {
      NothingTiles(0);
    } else {
      var init, last := slots[..|slots| - 1], slots[|slots| - 1];
      assert slots == init + [last];
      DataObjectsTile(iocrType, init);
      DataObjectsAppend(iocrType, init, last);
      var next, len := DataEnd(iocrType, init), DataLen(iocrType, last);
      if len > 0 {
        PushTile(DataObjects(iocrType, init), IoDataObject(last.slot, last.subslot, next, len, next + len, None), 0, next);
      }
    }
  }

  lemma {:induction false} IocsObjectsTile(iocrType: u16, slots: seq<IoSlot>, at: nat)
    ensures Tiles(IocsObjects(iocrType, slots, at), at, at + |IocsObjects(iocrType, slots, at)|)
  {
    hide IocsObjects, Tiles;
    NoObjects(iocrType, at);
    if slots == [] {
      NothingTiles(at);
    } else {
      var init, last := slots[..|slots| - 1], slots[|slots| - 1];
      assert slots == init + [last];
      IocsObjectsTile(iocrType, init, at);
      IocsObjectsAppend(iocrType, init, last, at);
      var before := IocsObjects(iocrType, init, at);
      var next := at + |before|;
      PushTile(before, IoDataObject(last.slot, last.subslot, next, 0, 0, Some(next)), at, next);
    }
  }

  /** Data with its provider status, and consumer status bytes, in both directions. */
  lemma LayoutTiles(iocrType: u16, slots: seq<IoSlot>)
    ensures Tiles(DataObjects(iocrType, slots) + IocsOf(iocrType, slots), 0, LayoutLength(iocrType, slots))
  {
    DataObjectsTile(iocrType, slots);
    IocsObjectsTile(iocrType, slots, DataEnd(iocrType, slots));
    TilesAppend(DataObjects(iocrType, slots), IocsOf(iocrType, slots), 0, DataEnd(iocrType, slots), LayoutLength(iocrType, slots));
  }

  predicate Owns(o: IoDataObject, p: int) {
    Start(o) <= p < End(o)
  }

  predicate Owned(objects: seq<IoDataObject>, p: int) {
    exists k :: 0 <= k < |objects| && Owns(objects[k], p)
  }

  /** In a tiling, later objects lie behind earlier ones. */
  lemma {:induction false} TilesInOrder(objects: seq<IoDataObject>, from: nat, to: nat, j: nat, k: nat)
    requires Tiles(objects, from, to) && j < k < |objects|
    ensures End(objects[j]) <= Start(objects[k])
    decreases k
  {
    if j < k - 1 {
      TilesInOrder(objects, from, to, j, k - 1);
    }
  }

  lemma {:induction false} TilesCover(objects: seq<IoDataObject>, from: nat, to: nat, p: int) returns (k: nat)
    requires Tiles(objects, from, to) && from <= p < to
    ensures k < |objects| && Owns(objects[k], p)
    decreases |objects|
  {
    var n := |objects| - 1;
    if p >= Start(objects[n]) {
      k := n;
    } else {
      k := TilesCover(objects[..n], from, Start(objects[n]), p);
    }
  }

  /** A tiling is an exact partition: each byte of the range has one owner, and nothing is outside. */
  lemma TilingIsPartition(objects: seq<IoDataObject>, from: nat, to: nat)
    requires Tiles(objects, from, to)
    ensures forall p :: Owned(objects, p) <==> from <= p < to
    ensures forall p, j, k :: 0 <= j < |objects| && 0 <= k < |objects| && Owns(objects[j], p) && Owns(objects[k], p) ==> j == k
  {
    forall p, j, k | 0 <= j < |objects| && 0 <= k < |objects| && Owns(objects[j], p) && Owns(objects[k], p)
      ensures j == k
    {
      if j < k {
        TilesInOrder(objects, from, to, j, k);
      } else if k < j {
        TilesInOrder(objects, from, to, k, j);
      }
    }
    forall p | from <= p < to
      ensures Owned(objects, p)
    {
      var k := TilesCover(objects, from, to, p);
    }
    forall k | 0 <= k < |objects|
      ensures from <= Start(objects[k]) && End(objects[k]) <= to
    {
      if k > 0 {
        TilesInOrder(objects, from, to, 0, k);
      }
      if k < |objects| - 1 {
        TilesInOrder(objects, from, to, k, |objects| - 1);
      }
    }
    forall p | Owned(objects, p)
      ensures from <= p < to
    {
      var k :| 0 <= k < |objects| && Owns(objects[k], p);
    }
  }

  /** Sum of the data lengths of a direction. */
  function SumLengths(iocrType: u16, slots: seq<IoSlot>): nat {
    if slots == [] then 0 else SumLengths(iocrType, slots[..|slots| - 1]) + DataLen(iocrType, slots[|slots| - 1])
  }

  /** Every submodule costs one status byte beside its data. */
  lemma {:induction false} LayoutLengthIsSum(iocrType: u16, slots: seq<IoSlot>, at: nat)
    requires iocrType == IOCR_TYPE_INPUT || iocrType == IOCR_TYPE_OUTPUT
    ensures DataEnd(iocrType, slots) + |IocsObjects(iocrType, slots, at)| == SumLengths(iocrType, slots) + |slots|
  {
    if slots != [] {
      LayoutLengthIsSum(iocrType, slots[..|slots| - 1], at);
    }
  }
}
