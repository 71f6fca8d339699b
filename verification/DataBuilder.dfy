/** The double-buffered output image (src/rt.rs, CyclicDataBuilder). */
module DataBuilder {
  import opened Bytes
  import opened Wrappers
  import opened Rt

  datatype Buffers = Buffers(write: bytes, send: bytes, dirty: bool)

  /** Every byte an object names lies inside the image; anything else panics in the source. */
  predicate InBounds(config: IocrConfig) {
    forall o :: o in config.objects ==>
      && o.frameOffset + o.dataLength <= config.dataLength
      && (o.dataLength > 0 ==> o.iopsOffset < config.dataLength)
      && (o.iocsOffset.Some? ==> o.iocsOffset.value < config.dataLength)
  }

  predicate Sized(b: Buffers, config: IocrConfig) {
    |b.write| == |b.send| == config.dataLength
  }

  /** Index of the first object of a submodule, or the number of objects. */
  function Find(objects: seq<IoDataObject>, slot: u16, subslot: u16): (r: nat)
    ensures r <= |objects|
    ensures r < |objects| ==> objects[r].slot == slot && objects[r].subslot == subslot
    ensures forall k :: 0 <= k < r ==> objects[k].slot != slot || objects[k].subslot != subslot
  {
    if objects == [] || (objects[0].slot == slot && objects[0].subslot == subslot) then 0
    else 1 + Find(objects[1..], slot, subslot)
  }

  /** The buffer with `data` written at `at`. */
  function Overwrite(buffer: bytes, at: nat, data: bytes): (r: bytes)
    requires at + |data| <= |buffer|
    ensures |r| == |buffer|
    ensures forall p :: 0 <= p < |buffer| ==> r[p] == if at <= p < at + |data| then data[p - at] else buffer[p]
  {
    buffer[..at] + data + buffer[at + |data|..]
  }

  predicate HasIocsAt(objects: seq<IoDataObject>, p: nat) {
    exists k :: 0 <= k < |objects| && objects[k].iocsOffset == Some(p)
  }

  predicate HasIopsAt(objects: seq<IoDataObject>, p: nat) {
    exists k :: 0 <= k < |objects| && objects[k].dataLength > 0 && objects[k].iopsOffset == p
  }

  /** The buffer with every consumer status byte set. */
  function WithIocs(buffer: bytes, objects: seq<IoDataObject>, status: u8): (r: bytes) {
    seq(|buffer|, p requires 0 <= p < |buffer| => if HasIocsAt(objects, p) then status else buffer[p])
  }

  /** The buffer with every provider status byte set. */
  function WithIops(buffer: bytes, objects: seq<IoDataObject>, status: u8): (r: bytes) {
    seq(|buffer|, p requires 0 <= p < |buffer| => if HasIopsAt(objects, p) then status else buffer[p])
  }

  function DataSet(b: Buffers, config: IocrConfig, slot: u16, subslot: u16, data: bytes): Result<Buffers>
    requires InBounds(config) && Sized(b, config)
  {
    var k := Find(config.objects, slot, subslot);
    if k == |config.objects| then Err
    else
      var o := config.objects[k];
      Ok(b.(write := Overwrite(b.write, o.frameOffset, data[..Min(|data|, o.dataLength)]), dirty := true))
  }

  function IopsSet(b: Buffers, config: IocrConfig, slot: u16, subslot: u16, status: u8): Buffers
    requires InBounds(config) && Sized(b, config)
  {
    var k := Find(config.objects, slot, subslot);
    if k == |config.objects| || config.objects[k].dataLength == 0 then b
    else b.(write := b.write[config.objects[k].iopsOffset := status], dirty := true)
  }

  function IocsSet(b: Buffers, config: IocrConfig, slot: u16, subslot: u16, status: u8): Buffers
    requires InBounds(config) && Sized(b, config)
  {
    var k := Find(config.objects, slot, subslot);
    if k == |config.objects| || config.objects[k].iocsOffset.None? then b
    else b.(write := b.write[config.objects[k].iocsOffset.value := status], dirty := true)
  }

  function AllIopsSet(b: Buffers, config: IocrConfig, status: u8): Buffers {
    b.(write := WithIops(b.write, config.objects, status), dirty := true)
  }

  /** Marks the image dirty only if a byte changed. */
  function AllIocsSet(b: Buffers, config: IocrConfig, status: u8): Buffers {
    var write := WithIocs(b.write, config.objects, status);
    b.(write := write, dirty := b.dirty || write != b.write)
  }

  function Swapped(b: Buffers): Buffers {
    if b.dirty then b.(send := b.write, dirty := false) else b
  }

  /** What makes skipping the copy correct. */
  predicate Coherent(b: Buffers) {
    !b.dirty ==> b.send == b.write
  }

  class CyclicDataBuilder {
    const config: IocrConfig
    const writeBuffer: array<u8>
    const sendBuffer: array<u8>
    var dirty: bool

    ghost predicate Valid()
      reads this
    {
      && InBounds(config) && writeBuffer != sendBuffer
      && writeBuffer.Length == sendBuffer.Length == config.dataLength
    }

    ghost function View(): Buffers
      reads this, writeBuffer, sendBuffer
    {
      Buffers(writeBuffer[..], sendBuffer[..], dirty)
    }

    constructor (cfg: IocrConfig)
      requires InBounds(cfg)
      ensures Valid() && config == cfg && fresh(writeBuffer) && fresh(sendBuffer)
      ensures View() == Buffers(Zeros(cfg.dataLength), Zeros(cfg.dataLength), false)
    {
      config := cfg;
      writeBuffer := new u8[cfg.dataLength](_ => 0);
      sendBuffer := new u8[cfg.dataLength](_ => 0);
      dirty := false;
    }

    method FindObject(slot: u16, subslot: u16) returns (k: nat)
      ensures k == Find(config.objects, slot, subslot)
    {
      k := 0;
      while k < |config.objects| && !(config.objects[k].slot == slot && config.objects[k].subslot == subslot)
        invariant k <= |config.objects|
        invariant forall j :: 0 <= j < k ==> config.objects[j].slot != slot || config.objects[j].subslot != subslot
      {
        k := k + 1;
      }
    }

    /** Data longer than the object is cut, shorter data writes a prefix. */
    method SetData(slot: u16, subslot: u16, data: bytes) returns (ok: bool)
      requires Valid()
      modifies this, writeBuffer
      ensures Valid() && ok == DataSet(old(View()), config, slot, subslot, data).Ok?
      ensures View() == if ok then DataSet(old(View()), config, slot, subslot, data).value else old(View())
    {
      var k := FindObject(slot, subslot);
      if k == |config.objects| {
        return false;
      }
      var o := config.objects[k];
      var n := Min(|data|, o.dataLength);
      forall i | 0 <= i < n {
        writeBuffer[o.frameOffset + i] := data[i];
      }
      dirty := true;
      return true;
    }

    method GetData(slot: u16, subslot: u16) returns (r: Result<bytes>)
      requires Valid()
      ensures var k := Find(config.objects, slot, subslot);
              r == if k == |config.objects| then Err
                   else Ok(writeBuffer[config.objects[k].frameOffset..config.objects[k].frameOffset + config.objects[k].dataLength])
    {
      var k := FindObject(slot, subslot);
      if k == |config.objects| {
        return Err;
      }
      var o := config.objects[k];
      return Ok(writeBuffer[o.frameOffset..o.frameOffset + o.dataLength]);
    }

    method SetIops(slot: u16, subslot: u16, status: u8)
      requires Valid()
      modifies this, writeBuffer
      ensures Valid() && View() == IopsSet(old(View()), config, slot, subslot, status)
    {
      var k := FindObject(slot, subslot);
      if k < |config.objects| && config.objects[k].dataLength > 0 {
        writeBuffer[config.objects[k].iopsOffset] := status;
        dirty := true;
      }
    }

    method SetIocs(slot: u16, subslot: u16, status: u8)
      requires Valid()
      modifies this, writeBuffer
      ensures Valid() && View() == IocsSet(old(View()), config, slot, subslot, status)
    {
      var k := FindObject(slot, subslot);
      if k < |config.objects| && config.objects[k].iocsOffset.Some? {
        writeBuffer[config.objects[k].iocsOffset.value] := status;
        dirty := true;
      }
    }

    method SetAllIops(status: u8)
      requires Valid()
      modifies this, writeBuffer
      ensures Valid() && View() == AllIopsSet(old(View()), config, status)
    {
      for k := 0 to |config.objects|
        invariant forall p :: 0 <= p < writeBuffer.Length ==>
                    writeBuffer[p] == if HasIopsAt(config.objects[..k], p) then status else old(writeBuffer[p])
      {
        var o := config.objects[k];
        assert config.objects[..k + 1] == config.objects[..k] + [o];
        if o.dataLength > 0 {
          writeBuffer[o.iopsOffset] := status;
        }
        forall p | 0 <= p < writeBuffer.Length
          ensures HasIopsAt(config.objects[..k + 1], p) <==> HasIopsAt(config.objects[..k], p) || (o.dataLength > 0 && o.iopsOffset == p)
        {
          IopsOneMore(config.objects, k, p);
        }
      }
      assert config.objects[..|config.objects|] == config.objects;
      dirty := true;
    }

    /** Writes only the status bytes that differ. */
    method SetAllIocs(status: u8)
      requires Valid()
      modifies this, writeBuffer
      ensures Valid() && View() == AllIocsSet(old(View()), config, status)
    {
      for k := 0 to |config.objects|
        invariant forall p :: 0 <= p < writeBuffer.Length ==>
                    writeBuffer[p] == if HasIocsAt(config.objects[..k], p) then status else old(writeBuffer[p])
        invariant dirty == (old(dirty) || writeBuffer[..] != old(writeBuffer[..]))
      {
        var o := config.objects[k];
        if o.iocsOffset.Some? {
          var off := o.iocsOffset.value;
          if writeBuffer[off] != status {
            assert !HasIocsAt(config.objects[..k], off);
            writeBuffer[off] := status;
            dirty := true;
            assert writeBuffer[..][off] != old(writeBuffer[..])[off];
          }
        }
        forall p | 0 <= p < writeBuffer.Length
          ensures HasIocsAt(config.objects[..k + 1], p) <==> HasIocsAt(config.objects[..k], p) || o.iocsOffset == Some(p)
        {
          IocsOneMore(config.objects, k, p);
        }
      }
      assert config.objects[..|config.objects|] == config.objects;
      assert writeBuffer[..] == WithIocs(old(writeBuffer[..]), config.objects, status);
    }

    method Clear()
      requires Valid()
      modifies this, writeBuffer
      ensures Valid() && View() == old(View()).(write := Zeros(config.dataLength), dirty := true)
    {
      forall p | 0 <= p < writeBuffer.Length {
        writeBuffer[p] := 0;
      }
      dirty := true;
    }

    method Swap()
      requires Valid()
      modifies this, sendBuffer
      ensures Valid() && View() == Swapped(old(View()))
    {
      if dirty {
        forall p | 0 <= p < sendBuffer.Length {
          sendBuffer[p] := writeBuffer[p];
        }
        dirty := false;
        assert sendBuffer[..] == writeBuffer[..];
      }
    }

    method Build() returns (payload: bytes)
      requires Valid()
      ensures payload == View().send
    {
      payload := sendBuffer[..];
    }

    method Load(payload: bytes)
      requires Valid()
      modifies this, writeBuffer
      ensures Valid()
      ensures View() == old(View()).(write := Overwrite(old(writeBuffer[..]), 0, payload[..Min(|payload|, config.dataLength)]), dirty := true)
    {
      var n := Min(|payload|, writeBuffer.Length);
      forall p | 0 <= p < n {
        writeBuffer[p] := payload[p];
      }
      dirty := true;
    }
  }

  lemma IopsOneMore(objects: seq<IoDataObject>, k: nat, p: nat)
    requires k < |objects|
    ensures HasIopsAt(objects[..k + 1], p) <==> HasIopsAt(objects[..k], p) || (objects[k].dataLength > 0 && objects[k].iopsOffset == p)
  {
    var more := objects[..k + 1];
    assert more[k] == objects[k];
    assert forall j :: 0 <= j < k ==> more[j] == objects[..k][j];
  }

  lemma IocsOneMore(objects: seq<IoDataObject>, k: nat, p: nat)
    requires k < |objects|
    ensures HasIocsAt(objects[..k + 1], p) <==> HasIocsAt(objects[..k], p) || objects[k].iocsOffset == Some(p)
  {
    var more := objects[..k + 1];
    assert more[k] == objects[k];
    assert forall j :: 0 <= j < k ==> more[j] == objects[..k][j];
  }

  // -------------------------------------------------------------------------
  // What the writes mean
  // -------------------------------------------------------------------------

  /** Every write, of data or status, leaves an image that the next swap sends as it is, and a swap leaves
      nothing to send. */
  lemma WritesAreSent(b: Buffers, config: IocrConfig, slot: u16, subslot: u16, data: bytes, status: u8)
    requires InBounds(config) && Sized(b, config) && Coherent(b)
    ensures DataSet(b, config, slot, subslot, data).Ok? ==> Coherent(DataSet(b, config, slot, subslot, data).value)
    ensures Coherent(IopsSet(b, config, slot, subslot, status)) && Coherent(IocsSet(b, config, slot, subslot, status))
    ensures Coherent(AllIopsSet(b, config, status)) && Coherent(AllIocsSet(b, config, status))
    ensures !Swapped(b).dirty && Swapped(b).send == Swapped(b).write == b.write
  {}

  /** A consumer status byte of one submodule: the byte its first object names, if it names one, and no
      other. */
  lemma IocsSetsOneByte(b: Buffers, config: IocrConfig, slot: u16, subslot: u16, status: u8, k: nat)
    requires InBounds(config) && Sized(b, config)
    requires k < |config.objects| && config.objects[k].slot == slot && config.objects[k].subslot == subslot
    requires forall j :: 0 <= j < k ==> config.objects[j].slot != slot || config.objects[j].subslot != subslot
    ensures var b', at := IocsSet(b, config, slot, subslot, status), config.objects[k].iocsOffset;
            if at == None then b' == b
            else
              && b'.dirty && b'.send == b.send && |b'.write| == |b.write|
              && forall p :: 0 <= p < |b.write| ==> b'.write[p] == if at == Some(p) then status else b.write[p]
  {
    assert Find(config.objects, slot, subslot) == k;
  }

  // -------------------------------------------------------------------------
  // Layouts whose status bytes are nobody's data
  // -------------------------------------------------------------------------

  /** A byte of some object's data or provider status. */
  predicate IsProcessByte(objects: seq<IoDataObject>, p: nat) {
    exists k :: 0 <= k < |objects| && objects[k].dataLength > 0
      && (objects[k].frameOffset <= p < objects[k].frameOffset + objects[k].dataLength || objects[k].iopsOffset == p)
  }

  /** Consumer status bytes carry no process data and no provider status. */
  predicate Separated(config: IocrConfig) {
    forall k :: 0 <= k < |config.objects| && config.objects[k].iocsOffset.Some? ==>
      !IsProcessByte(config.objects, config.objects[k].iocsOffset.value)
  }

  /** The layouts the controller is built with are in bounds and separated. */
  lemma BuiltLayoutIsSound(slots: seq<IoSlot>, frameId: u16, scf: u16, rr: u16, wd: u16)
    ensures var output := OutputConfig(slots, frameId, scf, rr, wd);
            InBounds(output) && Separated(output)
    ensures InBounds(InputConfig(slots, frameId, scf, rr, wd))
  {
    LayoutTiles(IOCR_TYPE_OUTPUT, slots);
    var output := OutputConfig(slots, frameId, scf, rr, wd);
    TiledIsSound(output.objects, LayoutLength(IOCR_TYPE_OUTPUT, slots), output);
    DataObjectsTile(IOCR_TYPE_INPUT, slots);
    var input := InputConfig(slots, frameId, scf, rr, wd);
    TiledIsSound(input.objects, DataEnd(IOCR_TYPE_INPUT, slots), input);
  }

  lemma TiledIsSound(objects: seq<IoDataObject>, to: nat, config: IocrConfig)
    requires Tiles(objects, 0, to) && config.objects == objects && to <= config.dataLength
    ensures InBounds(config) && Separated(config)
  {
    TilingIsPartition(objects, 0, to);
    forall k | 0 <= k < |objects|
      ensures 0 <= Start(objects[k]) < End(objects[k]) <= to
    {
      assert Owns(objects[k], Start(objects[k])) && Owns(objects[k], End(objects[k]) - 1);
      assert Owned(objects, Start(objects[k])) && Owned(objects, End(objects[k]) - 1);
    }
    forall p: nat | HasIocsAt(objects, p) && IsProcessByte(objects, p)
      ensures false
    {
      var j :| 0 <= j < |objects| && objects[j].iocsOffset == Some(p);
      var k :| 0 <= k < |objects| && objects[k].dataLength > 0
        && (objects[k].frameOffset <= p < objects[k].frameOffset + objects[k].dataLength || objects[k].iopsOffset == p);
      assert Owns(objects[j], p) && Owns(objects[k], p);
    }
  }

  /** Updating consumer status never touches process data. */
  lemma IocsLeaveProcessData(buffer: bytes, config: IocrConfig, status: u8, p: nat)
    requires Separated(config) && p < |buffer| && IsProcessByte(config.objects, p)
    ensures WithIocs(buffer, config.objects, status)[p] == buffer[p]
  {}
}
