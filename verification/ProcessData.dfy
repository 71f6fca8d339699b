/** Process data end to end: what the device is told about its layout in the Connect request, what the
    runtime does with it, and where an application finds its bytes. */
module ProcessData {
  import opened Bytes
  import opened Wrappers
  import opened Ethernet
  import opened Rt
  import opened Connect
  import opened DataBuilder
  import opened Cyclic
  import opened CyclicRuns

  /** No submodule is listed twice. */
  predicate DistinctSlots(slots: seq<IoSlot>) {
    forall i, j :: 0 <= i < j < |slots| ==> slots[i].slot != slots[j].slot || slots[i].subslot != slots[j].subslot
  }

  predicate DistinctObjects(objects: seq<IoDataObject>) {
    forall i, j :: 0 <= i < j < |objects| ==> objects[i].slot != objects[j].slot || objects[i].subslot != objects[j].subslot
  }

  predicate Listed(slots: seq<IoSlot>, o: IoDataObject) {
    exists i :: 0 <= i < |slots| && slots[i].slot == o.slot && slots[i].subslot == o.subslot
  }

  lemma {:induction false} ObjectsComeFromSlots(iocrType: u16, slots: seq<IoSlot>)
    requires DistinctSlots(slots)
    ensures DistinctObjects(DataObjects(iocrType, slots))
    ensures forall k :: 0 <= k < |DataObjects(iocrType, slots)| ==> Listed(slots, DataObjects(iocrType, slots)[k])
  {
    if slots != [] {
      var n := |slots| - 1;
      var init := slots[..n];
      ObjectsComeFromSlots(iocrType, init);
      assert forall i :: 0 <= i < n ==> init[i] == slots[i];
      forall k | 0 <= k < |DataObjects(iocrType, init)|
        ensures Listed(slots, DataObjects(iocrType, init)[k])
        ensures DataObjects(iocrType, init)[k].slot != slots[n].slot || DataObjects(iocrType, init)[k].subslot != slots[n].subslot
      {
        var i :| 0 <= i < |init| && init[i].slot == DataObjects(iocrType, init)[k].slot && init[i].subslot == DataObjects(iocrType, init)[k].subslot;
        assert slots[i] == init[i];
      }
    }
  }

  /** The object of a submodule with data: right behind those of the submodules listed before it. */
  function ObjectOf(iocrType: u16, slots: seq<IoSlot>, i: nat): IoDataObject
    requires i < |slots|
  {
    var at, len := DataEnd(iocrType, slots[..i]), DataLen(iocrType, slots[i]);
    IoDataObject(slots[i].slot, slots[i].subslot, at, len, at + len, None)
  }

  lemma {:induction false} ObjectIsThere(iocrType: u16, slots: seq<IoSlot>, i: nat)
    requires i < |slots| && DataLen(iocrType, slots[i]) > 0
    ensures var k := |DataObjects(iocrType, slots[..i])|;
            k < |DataObjects(iocrType, slots)| && DataObjects(iocrType, slots)[k] == ObjectOf(iocrType, slots, i)
  {
    var n := |slots| - 1;
    if i < n {
      ObjectIsThere(iocrType, slots[..n], i);
      assert slots[..n][..i] == slots[..i];
    }
  }

  // -------------------------------------------------------------------------
  // Towards the controller
  // -------------------------------------------------------------------------

  /** Extraction files every object's own bytes under its own submodule. */
  lemma {:induction false} ExtractFilesEachObject(e: Extraction, objects: seq<IoDataObject>, payload: bytes, k: nat)
    requires DistinctObjects(objects) && k < |objects| && Carried(objects[k], payload)
    ensures var o, inputs := objects[k], Extract(e, objects, payload).inputs;
            && (o.slot, o.subslot) in inputs
            && inputs[(o.slot, o.subslot)] == InputEntry(payload[o.frameOffset..o.frameOffset + o.dataLength], payload[o.iopsOffset])
  {
    var n := |objects| - 1;
    if k < n {
      ExtractFilesEachObject(e, objects[..n], payload, k);
    }
  }

  /** What the data callback is told: the bytes of every object the payload carries with bit 7 of its status
      set, in the order of the layout. */
  function DataReports(objects: seq<IoDataObject>, payload: bytes): seq<(Key, bytes)> {
    if objects == [] then []
    else
      var init, o := objects[..|objects| - 1], objects[|objects| - 1];
      DataReports(init, payload)
      + if o.iopsOffset < |payload| && o.frameOffset + o.dataLength <= |payload| && payload[o.iopsOffset] / 0x80 == 1
        then [((o.slot, o.subslot), payload[o.frameOffset..o.frameOffset + o.dataLength])] else []
  }

  lemma {:induction false} ExtractReports(e: Extraction, objects: seq<IoDataObject>, payload: bytes)
    ensures Extract(e, objects, payload).dataLog == e.dataLog + DataReports(objects, payload)
  {
    if objects != [] {
      ExtractReports(e, objects[..|objects| - 1], payload);
    }
  }

  /** An accepted frame reports exactly its usable objects, and leaves the entries of submodules it carries
      nothing for. */
  lemma AcceptedReports(setup: Setup, c: Shared, f: RtFrame, now: int, key: Key)
    requires NotBefore(c, now)
    ensures var c' := Accepted(setup, c, f, now);
            && c'.dataLog == c.dataLog + DataReports(setup.input.objects, f.payload)
            && ((forall o :: o in setup.input.objects && (o.slot, o.subslot) == key ==> !Carried(o, f.payload)) ==>
                  (key in c'.inputs <==> key in c.inputs) && (key in c.inputs ==> c'.inputs[key] == c.inputs[key]))
  {
    hide Extract, DataReports, Accepted;
    AcceptedExtracts(setup, c, f, now);
    var e := Extraction(c.inputs, c.statusLog, c.dataLog);
    ExtractReports(e, setup.input.objects, f.payload);
    if forall o :: o in setup.input.objects && (o.slot, o.subslot) == key ==> !Carried(o, f.payload) {
      ExtractLeavesOthers(e, setup.input.objects, f.payload, key);
    }
  }

  lemma {:induction false} ExtractLeavesOthers(e: Extraction, objects: seq<IoDataObject>, payload: bytes, key: Key)
    requires forall o :: o in objects && (o.slot, o.subslot) == key ==> !Carried(o, payload)
    ensures var inputs := Extract(e, objects, payload).inputs;
            (key in inputs <==> key in e.inputs) && (key in e.inputs ==> inputs[key] == e.inputs[key])
  {
    if objects != [] {
      var n := |objects| - 1;
      assert forall o :: o in objects[..n] ==> o in objects;
      assert objects[n] in objects;
      ExtractLeavesOthers(e, objects[..n], payload, key);
    }
  }

  /** Of the told data entries, one names the submodule's offset. */
  predicate Tells(told: Option<IocrView>, s: IoSlot, offset: nat) {
    told.Some? && exists k :: 0 <= k < |told.value.data| && told.value.data[k] == (s.slot, s.subslot, offset)
  }

  lemma {:induction false} EntriesOfAt(objects: seq<IoDataObject>, k: nat)
    requires (forall o :: o in objects ==> o.frameOffset < 0x1_0000) && k < |objects|
    ensures |EntriesOf(objects)| == |objects|
    ensures EntriesOf(objects)[k] == (objects[k].slot, objects[k].subslot, objects[k].frameOffset)
  {
    var n := |objects| - 1;
    if k < n {
      EntriesOfAt(objects[..n], k);
    } else if n > 0 {
      EntriesOfAt(objects[..n], 0);
    }
  }

  lemma DeviceIsTold(iocrType: u16, iocrReference: u16, setup: IocrSetup, i: nat)
    requires LayoutLength(iocrType, setup.ioSlots) <= 0xFFFF && i < |setup.ioSlots| && DataLen(iocrType, setup.ioSlots[i]) > 0
    ensures Tells(ReadIocrBlock(IocrBlock(iocrType, iocrReference, setup)), setup.ioSlots[i], DataEnd(iocrType, setup.ioSlots[..i]))
  {
    hide ReadIocrBlock, IocrBlock, EntriesOf, DataObjects;
    BlockReadsAsLayout(iocrType, iocrReference, setup);
    ObjectIsThere(iocrType, setup.ioSlots, i);
    var k := |DataObjects(iocrType, setup.ioSlots[..i])|;
    EntriesOfAt(DataObjects(iocrType, setup.ioSlots), k);
    var told := ReadIocrBlock(IocrBlock(iocrType, iocrReference, setup));
    assert told.value.data[k] == (setup.ioSlots[i].slot, setup.ioSlots[i].subslot, DataEnd(iocrType, setup.ioSlots[..i]));
  }

  /** Data a device puts at the offset it was told for a submodule arrives, with its status, under that
      submodule: from the Connect request over the accepted frame to the input map. */
  lemma InputArrivesAsTold(iocr: IocrSetup, setup: Setup, frameId: u16, c: Shared, f: RtFrame, now: int, i: nat)
    requires DistinctSlots(iocr.ioSlots) && LayoutLength(IOCR_TYPE_INPUT, iocr.ioSlots) <= 0xFFFF
    requires setup.input == InputConfig(iocr.ioSlots, frameId, iocr.sendClockFactor, iocr.reductionRatio, iocr.watchdogFactor)
    requires NotBefore(c, now) && i < |iocr.ioSlots| && iocr.ioSlots[i].inputLength > 0
    requires DataEnd(IOCR_TYPE_INPUT, iocr.ioSlots[..i]) + iocr.ioSlots[i].inputLength < |f.payload|
    ensures var s, offset := iocr.ioSlots[i], DataEnd(IOCR_TYPE_INPUT, iocr.ioSlots[..i]);
            var inputs := Accepted(setup, c, f, now).inputs;
            && Tells(ReadIocrBlock(IocrBlock(IOCR_TYPE_INPUT, 1, iocr)), s, offset)
            && (s.slot, s.subslot) in inputs
            && inputs[(s.slot, s.subslot)] == InputEntry(f.payload[offset..offset + s.inputLength], f.payload[offset + s.inputLength])
  {
    hide Extract, ReadIocrBlock, IocrBlock, DataObjects, TrackCycleCounter, AllIocsSet, StatsAccepted, LayoutLength, Tells;
    var slots := iocr.ioSlots;
    DeviceIsTold(IOCR_TYPE_INPUT, 1, iocr, i);
    ObjectIsThere(IOCR_TYPE_INPUT, slots, i);
    ObjectsComeFromSlots(IOCR_TYPE_INPUT, slots);
    BuiltLayoutIsSound(slots, frameId, iocr.sendClockFactor, iocr.reductionRatio, iocr.watchdogFactor);
    var o := setup.input.objects[|DataObjects(IOCR_TYPE_INPUT, slots[..i])|];
    assert o in setup.input.objects;
    var st := c.stats.(framesReceived := c.stats.framesReceived + 1);
    var c1 := c.(stats := StatsAccepted(st, setup.input.CycleTimeUs(), now));
    var c3 := TrackCycleCounter(if c1.state == Fault then Transition(c1, Running) else c1, setup.RxStep(), f.cycleCounter);
    ExtractFilesEachObject(Extraction(c3.inputs, c3.statusLog, c3.dataLog), setup.input.objects, f.payload,
                           |DataObjects(IOCR_TYPE_INPUT, slots[..i])|);
  }

  // -------------------------------------------------------------------------
  // Towards the device
  // -------------------------------------------------------------------------

  /** Bytes of the image a write of `data` to an object reaches. */
  predicate Touched(o: IoDataObject, data: bytes, p: nat) {
    o.frameOffset <= p < o.frameOffset + Min(|data|, o.dataLength) || p == o.iopsOffset
  }

  /** Data an application sets for a submodule is in the next frame at the offset the device was told,
      with its status GOOD; every other byte of the image stays. */
  lemma OutputArrivesAsTold(iocr: IocrSetup, setup: Setup, frameId: u16, c: Shared, status: u8, i: nat, data: bytes)
    requires DistinctSlots(iocr.ioSlots) && LayoutLength(IOCR_TYPE_OUTPUT, iocr.ioSlots) <= 0xFFFF
    requires setup.output == OutputConfig(iocr.ioSlots, frameId, iocr.sendClockFactor, iocr.reductionRatio, iocr.watchdogFactor)
    requires Sized(c.buffers, setup.output) && Coherent(c.buffers) && !OutputWritesLocked(c.state)
    requires i < |iocr.ioSlots| && iocr.ioSlots[i].outputLength > 0
    ensures InBounds(setup.output)
    ensures var s, offset := iocr.ioSlots[i], DataEnd(IOCR_TYPE_OUTPUT, iocr.ioSlots[..i]);
            var o := ObjectOf(IOCR_TYPE_OUTPUT, iocr.ioSlots, i);
            var written := SetOutputData(setup, c, s.slot, s.subslot, data);
            && Tells(ReadIocrBlock(IocrBlock(IOCR_TYPE_OUTPUT, 2, iocr)), s, offset)
            && written.Ok?
            && (forall p: nat :: p < setup.output.dataLength && !Touched(o, data, p) ==>
                  p < |written.value.buffers.write| && written.value.buffers.write[p] == c.buffers.write[p])
            && FrameHolds(NextOutputFrame(setup, written.value, status).1, frameId, o, data)
  {
    hide ReadIocrBlock, IocrBlock, DataObjects, IocsOf, Tells, FrameHolds, LayoutLength;
    var slots := iocr.ioSlots;
    DeviceIsTold(IOCR_TYPE_OUTPUT, 2, iocr, i);
    BuiltLayoutIsSound(slots, frameId, iocr.sendClockFactor, iocr.reductionRatio, iocr.watchdogFactor);
    FindsOwnObject(slots, i, IocsOf(IOCR_TYPE_OUTPUT, slots));
    WriteIsHeld(setup, c, slots[i].slot, slots[i].subslot, data, ObjectOf(IOCR_TYPE_OUTPUT, slots, i), status);
  }

  lemma FindsOwnObject(slots: seq<IoSlot>, i: nat, more: seq<IoDataObject>)
    requires DistinctSlots(slots) && i < |slots| && slots[i].outputLength > 0
    ensures var objects := DataObjects(IOCR_TYPE_OUTPUT, slots) + more;
            var k := Find(objects, slots[i].slot, slots[i].subslot);
            k < |objects| && objects[k] == ObjectOf(IOCR_TYPE_OUTPUT, slots, i)
  {
    hide DataObjects;
    ObjectIsThere(IOCR_TYPE_OUTPUT, slots, i);
    ObjectsComeFromSlots(IOCR_TYPE_OUTPUT, slots);
    var data, k := DataObjects(IOCR_TYPE_OUTPUT, slots), |DataObjects(IOCR_TYPE_OUTPUT, slots[..i])|;
    var objects := data + more;
    assert objects[k] == data[k];
    assert forall j :: 0 <= j < k ==> objects[j] == data[j];
  }

  lemma WriteIsHeld(setup: Setup, c: Shared, slot: u16, subslot: u16, data: bytes, o: IoDataObject, status: u8)
    requires InBounds(setup.output) && Sized(c.buffers, setup.output) && Coherent(c.buffers) && !OutputWritesLocked(c.state)
    requires var k := Find(setup.output.objects, slot, subslot); k < |setup.output.objects| && setup.output.objects[k] == o
    requires Shaped(o) && o.dataLength > 0
    ensures var written := SetOutputData(setup, c, slot, subslot, data);
            && written.Ok?
            && (forall p: nat :: p < setup.output.dataLength && !Touched(o, data, p) ==>
                  p < |written.value.buffers.write| && written.value.buffers.write[p] == c.buffers.write[p])
            && FrameHolds(NextOutputFrame(setup, written.value, status).1, setup.output.frameId, o, data)
  {
    hide BuildEthernetFrame, ParseEthernetFrame;
    assert o in setup.output.objects;
    var c' := SetOutputData(setup, c, slot, subslot, data).value;
    var counter: u16 := (c'.cycleCounter + setup.TxStep()) % 0x1_0000;
    BuiltFrameRoundTrip(setup.dstMac, setup.srcMac, RtFrame(setup.output.frameId, counter, status, 0, c'.buffers.write));
  }

  /** A write is refused exactly when the state locks the image or no submodule has that address. */
  lemma WriteRefusedExactlyIf(setup: Setup, c: Shared, slot: u16, subslot: u16, data: bytes)
    requires InBounds(setup.output) && Sized(c.buffers, setup.output)
    ensures SetOutputData(setup, c, slot, subslot, data) == Err <==>
            || c.state == Stopping || c.state == Stopped || c.state == Fault
            || forall o :: o in setup.output.objects ==> o.slot != slot || o.subslot != subslot
  {
    var objects := setup.output.objects;
    var k := Find(objects, slot, subslot);
    if k < |objects| {
      assert objects[k] in objects;
    }
  }
}
