/** AlarmNotification PDUs: header, item dispatch by User Structure Identifier, and the item loop
    (src/alarms.rs), with the AlarmAck the listener answers (src/alarm_listener.rs). */
module Alarms {
  import opened Bytes
  import opened Wrappers

  const BLOCK_ALARM_NOTIFICATION_HIGH: u16 := 0x0001
  const USI_CHANNEL_DIAGNOSIS: u16 := 0x8000
  const USI_EXT_CHANNEL_DIAGNOSIS: u16 := 0x8002
  const USI_QUALIFIED_CHANNEL_DIAGNOSIS: u16 := 0x8003
  const USI_MAINTENANCE: u16 := 0x8100
  const USI_UPLOAD: u16 := 0x8200
  const USI_IPARAMETER: u16 := 0x8201
  const USI_RS_ALARM_LOW: u16 := 0x8300
  const USI_RS_ALARM_HIGH: u16 := 0x8301
  const USI_RS_ALARM_SUBMODULE: u16 := 0x8302
  const USI_PE_ALARM: u16 := 0x8310
  const USI_PRAL_ALARM: u16 := 0x8320

  datatype AlarmItem =
    | Diagnosis(usi: u16, channelNumber: u16, channelProperties: u16, channelErrorType: u16,
                extChannelErrorType: u16, extChannelAddValue: u32, qualifiedChannelQualifier: u32)
    | Maintenance(blockType: u16, blockLength: u16, blockVersion: u16, maintenanceStatus: u32)
    | UploadRetrieval(usi: u16, blockType: u16, blockLength: u16, blockVersion: u16, urRecordIndex: u32, urRecordLength: u32)
    | Pe(blockType: u16, blockLength: u16, blockVersion: u16, peOperationalMode: u8)
    | Rs(usi: u16, rsAlarmInfo: u16)
    | Pral(channelNumber: u16, pralChannelProperties: u16, pralReason: u16, pralExtReason: u16, pralReasonAddValue: bytes)
    | Generic(usi: u16, rawData: bytes)

  predicate IsDiagnosis(usi: u16) {
    usi == USI_CHANNEL_DIAGNOSIS || IsExtended(usi)
  }

  predicate IsExtended(usi: u16) {
    usi == USI_EXT_CHANNEL_DIAGNOSIS || usi == USI_QUALIFIED_CHANNEL_DIAGNOSIS
  }

  predicate IsUpload(usi: u16) {
    usi == USI_UPLOAD || usi == USI_IPARAMETER
  }

  predicate IsRs(usi: u16) {
    usi == USI_RS_ALARM_LOW || usi == USI_RS_ALARM_HIGH || usi == USI_RS_ALARM_SUBMODULE
  }

  /** Bytes an item of this kind occupies after its USI; for an open-ended kind, the least. */
  function FixedLength(usi: u16): nat {
    if IsDiagnosis(usi) then
      (if usi == USI_QUALIFIED_CHANNEL_DIAGNOSIS then 16 else if usi == USI_EXT_CHANNEL_DIAGNOSIS then 12 else 6)
    else if usi == USI_MAINTENANCE then 12
    else if IsUpload(usi) then 16
    else if IsRs(usi) then 2
    else if usi == USI_PE_ALARM then 7
    else if usi == USI_PRAL_ALARM then 8
    else 0
  }

  function DiagnosisFields(body: bytes, usi: u16): AlarmItem
    requires IsDiagnosis(usi) && FixedLength(usi) <= |body|
  {
    var ext := IsExtended(usi);
    Diagnosis(usi, U16At(body, 0), U16At(body, 2), U16At(body, 4),
              if ext then U16At(body, 6) else 0,
              if ext then U32At(body, 8) else 0,
              if usi == USI_QUALIFIED_CHANNEL_DIAGNOSIS then U32At(body, 12) else 0)
  }

  function MaintenanceFields(body: bytes): AlarmItem
    requires 12 <= |body|
  {
    Maintenance(U16At(body, 0), U16At(body, 2), U16At(body, 4), U32At(body, 8))
  }

  function UploadRetrievalFields(body: bytes, usi: u16): AlarmItem
    requires 16 <= |body|
  {
    UploadRetrieval(usi, U16At(body, 0), U16At(body, 2), U16At(body, 4), U32At(body, 8), U32At(body, 12))
  }

  function PeFields(body: bytes): AlarmItem
    requires 7 <= |body|
  {
    Pe(U16At(body, 0), U16At(body, 2), U16At(body, 4), body[6])
  }

  function PralFields(body: bytes): AlarmItem
    requires 8 <= |body|
  {
    Pral(U16At(body, 0), U16At(body, 2), U16At(body, 4), U16At(body, 6), body[8..])
  }

  /** The item whose fields, after the USI, start `body`. */
  function ItemFields(usi: u16, body: bytes): AlarmItem
    requires FixedLength(usi) <= |body|
  {
    if IsDiagnosis(usi) then DiagnosisFields(body, usi)
    else if usi == USI_MAINTENANCE then MaintenanceFields(body)
    else if IsUpload(usi) then UploadRetrievalFields(body, usi)
    else if IsRs(usi) then Rs(usi, U16At(body, 0))
    else if usi == USI_PE_ALARM then PeFields(body)
    else if usi == USI_PRAL_ALARM then PralFields(body)
    else Generic(usi, body)
  }

  /** Whether the kind takes everything up to the end of the payload: manufacturer-specific and
      unknown USIs, and the pull request item with its additional value. */
  predicate TakesAll(usi: u16) {
    usi == USI_PRAL_ALARM || FixedLength(usi) == 0
  }

  /** The item that starts `data`, the payload from the current offset on, and how many bytes it
      takes. The parsers of the source test each group of fields as they come to it; a short item
      fails at one test or another, so one test decides. */
  function ParseAlarmItem(data: bytes): (r: Result<(AlarmItem, nat)>)
    ensures r.Ok? ==> 2 <= r.value.1 <= |data|
  {
    if |data| < 2 || |data| < 2 + FixedLength(U16At(data, 0)) then Err
    else
      var usi := U16At(data, 0);
      Ok((ItemFields(usi, data[2..]), if TakesAll(usi) then |data| else 2 + FixedLength(usi)))
  }

  /** The items of a payload, up to the first that does not parse. */
  function Items(payload: bytes): seq<AlarmItem>
    decreases |payload|
  {
    match ParseAlarmItem(payload)
    case Err => []
    case Ok((item, used)) => [item] + Items(payload[used..])
  }

  datatype AlarmNotification = AlarmNotification(
    blockType: u16, versionHigh: u8, versionLow: u8, alarmType: u16, api: u32, slotNumber: u16, subslotNumber: u16,
    moduleIdentNumber: u32, submoduleIdentNumber: u32,
    alarmSequenceNumber: u16, channelDiagnosis: bool, manufacturerSpecific: bool,
    submoduleDiagnosisState: bool, arDiagnosisState: bool,
    items: seq<AlarmItem>, rawPayload: bytes)
  {
    predicate IsHighPriority() { blockType == BLOCK_ALARM_NOTIFICATION_HIGH }
  }

  const ALARM_HEADER_LEN := 26

  predicate Bit(v: u16, weight: nat)
    requires weight > 0
  {
    v / weight % 2 == 1
  }

  /** The block without anything behind its end, when its length is plausible. */
  function CutToBlock(data: bytes): bytes
    requires |data| >= ALARM_HEADER_LEN
  {
    var blockEnd := 4 + U16At(data, 2);
    if ALARM_HEADER_LEN <= blockEnd < |data| then data[..blockEnd] else data
  }

  function Decoded(data: bytes, items: seq<AlarmItem>): AlarmNotification
    requires |data| >= ALARM_HEADER_LEN
  {
    var specifier := U16At(data, 24);
    AlarmNotification(
      U16At(data, 0), data[4], data[5], U16At(data, 6), U32At(data, 8), U16At(data, 12), U16At(data, 14),
      U32At(data, 16), U32At(data, 20),
      specifier % 0x800, Bit(specifier, 0x800), Bit(specifier, 0x1000), Bit(specifier, 0x2000), Bit(specifier, 0x8000),
      items, data[ALARM_HEADER_LEN..])
  }

  function Parsed(data: bytes): Result<AlarmNotification> {
    if |data| < ALARM_HEADER_LEN then Err
    else
      var block := CutToBlock(data);
      Ok(Decoded(block, Items(block[ALARM_HEADER_LEN..])))
  }

  /** A PDU whose BlockLength is right. */
  predicate WellSized(data: bytes) {
    |data| >= ALARM_HEADER_LEN && 4 + U16At(data, 2) == |data|
  }

  /** Whatever stands behind it is not read. */
  lemma PaddingDoesNotMatter(data: bytes, padding: bytes)
    requires WellSized(data)
    ensures Parsed(data + padding) == Parsed(data)
  {
    hide Items, Decoded;
    assert U16At(data + padding, 2) == U16At(data, 2);
    assert (data + padding)[..|data|] == data;
    if padding == [] {
      assert data + padding == data;
    }
  }

  /** Bytes behind a USI, by its number; zero where everything up to the end is taken. */
  function LeastLength(usi: u16): nat {
    match usi
    case 0x8000 => 6
    case 0x8002 => 12
    case 0x8003 => 16
    case 0x8100 => 12
    case 0x8200 => 16
    case 0x8201 => 16
    case 0x8300 => 2
    case 0x8301 => 2
    case 0x8302 => 2
    case 0x8310 => 7
    case 0x8320 => 8
    case _ => 0
  }

  /** Which kind of item a USI selects, when it is too short, and how far it reaches: 0x8001, 0x8202 and any
      other number are manufacturer-specific. */
  lemma KindByUsi(data: bytes)
    requires |data| >= 2
    ensures var usi, r := U16At(data, 0), ParseAlarmItem(data);
            && (r.Ok? <==> |data| >= 2 + LeastLength(usi))
            && (r.Ok? ==>
                  var (item, used) := r.value;
                  && used == (if LeastLength(usi) == 0 || usi == 0x8320 then |data| else 2 + LeastLength(usi))
                  && (item.Diagnosis? <==> usi == 0x8000 || usi == 0x8002 || usi == 0x8003)
                  && (item.Maintenance? <==> usi == 0x8100)
                  && (item.UploadRetrieval? <==> usi == 0x8200 || usi == 0x8201)
                  && (item.Rs? <==> 0x8300 <= usi <= 0x8302)
                  && (item.Pe? <==> usi == 0x8310)
                  && (item.Pral? <==> usi == 0x8320))
  {}

  /** The item loop: stop at the first item that does not parse, keeping what there is. */
  method ParseItems(payload: bytes) returns (items: seq<AlarmItem>)
    ensures items == Items(payload)
  {
    hide Items, ItemFields, FixedLength;
    items := [];
    var offset := 0;
    assert payload[offset..] == payload;
    assert items + Items(payload) == Items(payload);
    while offset < |payload|
      invariant 0 <= offset <= |payload|
      invariant items + Items(payload[offset..]) == Items(payload)
      decreases |payload| - offset
    {
      var rest := payload[offset..];
      ItemsStep(rest, items);
      var parsed := ParseAlarmItem(rest);
      if parsed.Err? {
        break;
      }
      var (item, used) := parsed.value;
      assert rest[used..] == payload[offset + used..];
      items, offset := items + [item], offset + used;
    }
    ItemsStep(payload[offset..], items);
  }

  /** One turn of the item loop, with `done` read before. */
  lemma ItemsStep(rest: bytes, done: seq<AlarmItem>)
    ensures var parsed := ParseAlarmItem(rest);
            done + Items(rest) ==
            if parsed.Err? then done else (done + [parsed.value.0]) + Items(rest[parsed.value.1..])
  {
    hide ItemFields, FixedLength;
  }

  method ParseAlarmNotification(input: bytes) returns (r: Result<AlarmNotification>)
    ensures r == Parsed(input)
  {
    if |input| < ALARM_HEADER_LEN {
      return Err;
    }
    var blockEnd := 4 + U16At(input, 2);
    var data := if ALARM_HEADER_LEN <= blockEnd < |input| then input[..blockEnd] else input;
    var items := ParseItems(data[ALARM_HEADER_LEN..]);
    return Ok(Decoded(data, items));
  }

  // -------------------------------------------------------------------------
  // The encoder of the other side
  // -------------------------------------------------------------------------

  function Usi(item: AlarmItem): u16 {
    match item
    case Maintenance(_, _, _, _) => USI_MAINTENANCE
    case Pe(_, _, _, _) => USI_PE_ALARM
    case Pral(_, _, _, _, _) => USI_PRAL_ALARM
    case _ => item.usi
  }

  /** Items that can be written down and read back: the USI selects the kind, and a diagnosis has
      no fields its USI does not announce. */
  predicate Encodable(item: AlarmItem) {
    match item
    case Diagnosis(usi, _, _, _, extType, extValue, qualifier) =>
      && IsDiagnosis(usi)
      && (IsExtended(usi) || (extType == 0 && extValue == 0))
      && (usi == USI_QUALIFIED_CHANNEL_DIAGNOSIS || qualifier == 0)
    case UploadRetrieval(usi, _, _, _, _, _) => IsUpload(usi)
    case Rs(usi, _) => IsRs(usi)
    case Generic(usi, _) => FixedLength(usi) == 0
    case _ => true
  }

  /** A kind that takes everything up to the end of the payload. */
  predicate OpenEnded(item: AlarmItem) {
    item.Generic? || item.Pral?
  }

  function ItemBody(item: AlarmItem): bytes {
    match item
    case Diagnosis(usi, number, properties, error, extType, extValue, qualifier) =>
      Be16(number) + Be16(properties) + Be16(error)
      + (if IsExtended(usi) then Be16(extType) + Be32(extValue) else [])
      + (if usi == USI_QUALIFIED_CHANNEL_DIAGNOSIS then Be32(qualifier) else [])
    case Maintenance(blockType, length, version, status) =>
      Be16(blockType) + Be16(length) + Be16(version) + [0, 0] + Be32(status)
    case UploadRetrieval(_, blockType, length, version, index, recordLength) =>
      Be16(blockType) + Be16(length) + Be16(version) + [0, 0] + Be32(index) + Be32(recordLength)
    case Pe(blockType, length, version, mode) => Be16(blockType) + Be16(length) + Be16(version) + [mode]
    case Rs(_, info) => Be16(info)
    case Pral(number, properties, reason, extReason, addValue) =>
      Be16(number) + Be16(properties) + Be16(reason) + Be16(extReason) + addValue
    case Generic(_, raw) => raw
  }

  function ItemBytes(item: AlarmItem): bytes {
    Be16(Usi(item)) + ItemBody(item)
  }

  function ItemsBytes(items: seq<AlarmItem>): bytes {
    if items == [] then [] else ItemBytes(items[0]) + ItemsBytes(items[1..])
  }

  lemma ThreeReadBack(data: bytes, u: u16, v: u16, w: u16, post: bytes)
    requires data == (Be16(u) + Be16(v) + Be16(w)) + post
    ensures |data| >= 6 && U16At(data, 0) == u && U16At(data, 2) == v && U16At(data, 4) == w
  {
    hide Be16, U16At;
    var a, b, c := Be16(u), Be16(v), Be16(w);
    assert data == [] + a + (b + c + post);
    Read16(data, [], u, b + c + post);
    assert data == a + b + (c + post);
    Read16(data, a, v, c + post);
    assert data == (a + b) + c + post;
    Read16(data, a + b, w, post);
  }

  lemma PairReadsBack(data: bytes, pre: bytes, v: u16, w: u32, post: bytes)
    requires data == pre + (Be16(v) + Be32(w)) + post
    ensures |data| >= |pre| + 6 && U16At(data, |pre|) == v && U32At(data, |pre| + 2) == w
  {
    hide Be16, Be32, U16At, U32At;
    var a, b := Be16(v), Be32(w);
    assert data == pre + a + (b + post);
    Read16(data, pre, v, b + post);
    assert data == (pre + a) + b + post;
    Read32(data, pre + a, w, post);
  }

  lemma DiagnosisReadsBack(item: AlarmItem, post: bytes)
    requires Encodable(item) && item.Diagnosis?
    ensures |ItemBody(item)| == FixedLength(item.usi)
    ensures DiagnosisFields(ItemBody(item) + post, item.usi) == item
  {
    hide Be16, Be32, U16At, U32At;
    var data, qualified := ItemBody(item) + post, item.usi == USI_QUALIFIED_CHANNEL_DIAGNOSIS;
    var head := Be16(item.channelNumber) + Be16(item.channelProperties) + Be16(item.channelErrorType);
    var ext := if IsExtended(item.usi) then Be16(item.extChannelErrorType) + Be32(item.extChannelAddValue) else [];
    var qualifier := if qualified then Be32(item.qualifiedChannelQualifier) else [];
    assert data == head + (ext + qualifier + post);
    ThreeReadBack(data, item.channelNumber, item.channelProperties, item.channelErrorType, ext + qualifier + post);
    if IsExtended(item.usi) {
      assert data == head + ext + (qualifier + post);
      PairReadsBack(data, head, item.extChannelErrorType, item.extChannelAddValue, qualifier + post);
    }
    if qualified {
      assert data == (head + ext) + qualifier + post;
      Read32(data, head + ext, item.qualifiedChannelQualifier, post);
    }
  }

  lemma BlockItemsReadBack(item: AlarmItem, post: bytes)
    requires item.Maintenance? || item.UploadRetrieval? || item.Pe?
    ensures item.Maintenance? ==> |ItemBody(item)| == 12 && MaintenanceFields(ItemBody(item) + post) == item
    ensures item.UploadRetrieval? ==> |ItemBody(item)| == 16 && UploadRetrievalFields(ItemBody(item) + post, item.usi) == item
    ensures item.Pe? ==> |ItemBody(item)| == 7 && PeFields(ItemBody(item) + post) == item
  {
    hide Be16, Be32, U16At, U32At;
    var data := ItemBody(item) + post;
    match item
    case Maintenance(blockType, length, version, status) =>
      var head := Be16(blockType) + Be16(length) + Be16(version);
      assert data == head + ([0, 0] + Be32(status) + post);
      ThreeReadBack(data, blockType, length, version, [0, 0] + Be32(status) + post);
      assert data == (head + [0, 0]) + Be32(status) + post;
      Read32(data, head + [0, 0], status, post);
    case UploadRetrieval(_, blockType, length, version, index, recordLength) =>
      var head := Be16(blockType) + Be16(length) + Be16(version);
      assert data == head + ([0, 0] + Be32(index) + Be32(recordLength) + post);
      ThreeReadBack(data, blockType, length, version, [0, 0] + Be32(index) + Be32(recordLength) + post);
      assert data == (head + [0, 0]) + Be32(index) + (Be32(recordLength) + post);
      Read32(data, head + [0, 0], index, Be32(recordLength) + post);
      assert data == (head + [0, 0] + Be32(index)) + Be32(recordLength) + post;
      Read32(data, head + [0, 0] + Be32(index), recordLength, post);
    case Pe(blockType, length, version, mode) =>
      assert data == (Be16(blockType) + Be16(length) + Be16(version)) + ([mode] + post);
      ThreeReadBack(data, blockType, length, version, [mode] + post);
  }

  lemma PralReadsBack(item: AlarmItem)
    requires item.Pral?
    ensures |ItemBody(item)| >= 8 && PralFields(ItemBody(item)) == item
  {
    assert ItemBody(item)[8..] == item.pralReasonAddValue;
  }

  /** The fields of each kind read back, whatever follows; those of an open-ended one at the end. */
  lemma FieldsReadBack(item: AlarmItem, post: bytes)
    requires Encodable(item) && (OpenEnded(item) ==> post == [])
    ensures FixedLength(Usi(item)) <= |ItemBody(item)|
    ensures TakesAll(Usi(item)) == OpenEnded(item)
    ensures OpenEnded(item) || FixedLength(Usi(item)) == |ItemBody(item)|
    ensures ItemFields(Usi(item), ItemBody(item) + post) == item
  {
    match item
    case Diagnosis(_, _, _, _, _, _, _) => DiagnosisReadsBack(item, post);
    case Maintenance(_, _, _, _) => BlockItemsReadBack(item, post);
    case UploadRetrieval(_, _, _, _, _, _) => BlockItemsReadBack(item, post);
    case Pe(_, _, _, _) => BlockItemsReadBack(item, post);
    case Rs(_, info) =>
    case Pral(_, _, _, _, _) =>
      PralReadsBack(item);
      assert ItemBody(item) + post == ItemBody(item);
    case Generic(_, raw) =>
      assert ItemBody(item) + post == raw;
  }

  lemma ItemReadsBack(item: AlarmItem, post: bytes)
    requires Encodable(item) && (OpenEnded(item) ==> post == [])
    ensures ParseAlarmItem(ItemBytes(item) + post) == Ok((item, |ItemBytes(item)|))
  {
    hide ItemBody, ItemFields, Usi, FixedLength, TakesAll, Encodable, OpenEnded, Be16, U16At;
    FieldsReadBack(item, post);
    var data := ItemBytes(item) + post;
    assert data == [] + Be16(Usi(item)) + (ItemBody(item) + post);
    Read16(data, [], Usi(item), ItemBody(item) + post);
    assert data[2..] == ItemBody(item) + post;
  }

  /** Items that can be written one after the other: only the last may be open-ended. */
  predicate EncodableList(items: seq<AlarmItem>)
    decreases |items|
  {
    items == [] || (Encodable(items[0]) && (|items| > 1 ==> !OpenEnded(items[0])) && EncodableList(items[1..]))
  }

  lemma FirstItemReadsBack(item: AlarmItem, rest: bytes)
    requires Encodable(item) && (OpenEnded(item) ==> rest == [])
    ensures Items(ItemBytes(item) + rest) == [item] + Items(rest)
  {
    ItemReadsBack(item, rest);
    assert (ItemBytes(item) + rest)[|ItemBytes(item)|..] == rest;
  }

  /** A list of items followed by a tail that parses to nothing reads back as the list. */
  lemma {:induction false} ItemsReadBack(items: seq<AlarmItem>, tail: bytes)
    requires EncodableList(items) && ParseAlarmItem(tail) == Err
    requires tail != [] && items != [] ==> !OpenEnded(items[|items| - 1])
    ensures Items(ItemsBytes(items) + tail) == items
    decreases |items|
  {
    hide ItemFields, ItemBytes;
    if items == [] {
      assert ItemsBytes(items) + tail == tail;
    } else {
      var rest := ItemsBytes(items[1..]) + tail;
      assert ItemsBytes(items) + tail == ItemBytes(items[0]) + rest;
      if |items| == 1 {
        assert items[1..] == [] && rest == tail;
      }
      FirstItemReadsBack(items[0], rest);
      ItemsReadBack(items[1..], tail);
      assert [items[0]] + items[1..] == items;
    }
  }

  // -------------------------------------------------------------------------
  // Whole notifications
  // -------------------------------------------------------------------------

  function Weight(b: bool, weight: u16): u16 {
    if b then weight else 0
  }

  /** AlarmSpecifier of the decoded bits, bit 14 clear. */
  function Specifier(n: AlarmNotification): u16 {
    n.alarmSequenceNumber % 0x800 + Weight(n.channelDiagnosis, 0x800) + Weight(n.manufacturerSpecific, 0x1000)
    + Weight(n.submoduleDiagnosisState, 0x2000) + Weight(n.arDiagnosisState, 0x8000)
  }

  function HeaderBytes(n: AlarmNotification, blockLength: u16, specifier: u16): bytes {
    Be16(n.blockType) + Be16(blockLength) + [n.versionHigh, n.versionLow] + Be16(n.alarmType) + Be32(n.api)
    + Be16(n.slotNumber) + Be16(n.subslotNumber) + Be32(n.moduleIdentNumber) + Be32(n.submoduleIdentNumber)
    + Be16(specifier)
  }

  predicate EncodableNotification(n: AlarmNotification) {
    && n.alarmSequenceNumber < 0x800
    && EncodableList(n.items)
    && n.rawPayload == ItemsBytes(n.items)
    && ALARM_HEADER_LEN + |n.rawPayload| - 4 < 0x1_0000
  }

  /** The PDU with a correct BlockLength. */
  function NotificationBytes(n: AlarmNotification): bytes
    requires EncodableNotification(n)
  {
    HeaderBytes(n, ALARM_HEADER_LEN + |n.rawPayload| - 4, Specifier(n)) + n.rawPayload
  }

  lemma SpecifierBits(n: AlarmNotification)
    requires n.alarmSequenceNumber < 0x800
    ensures var s := Specifier(n);
            && s % 0x800 == n.alarmSequenceNumber
            && Bit(s, 0x800) == n.channelDiagnosis && Bit(s, 0x1000) == n.manufacturerSpecific
            && Bit(s, 0x2000) == n.submoduleDiagnosisState && Bit(s, 0x8000) == n.arDiagnosisState
  {
    var flags := Weight(n.channelDiagnosis, 1) + Weight(n.manufacturerSpecific, 2) + Weight(n.submoduleDiagnosisState, 4)
      + Weight(n.arDiagnosisState, 16);
    assert Specifier(n) == n.alarmSequenceNumber + flags * 0x800;
    FlagsAbove(n.alarmSequenceNumber, flags);
  }

  /** Bits above a sequence number, read one by one. */
  lemma FlagsAbove(low: nat, flags: nat)
    requires low < 0x800
    ensures var s := low + flags * 0x800;
            s % 0x800 == low && s / 0x800 == flags && s / 0x1000 == flags / 2 && s / 0x2000 == flags / 4 && s / 0x8000 == flags / 16
  {}

  lemma HeaderReadsBack(n: AlarmNotification, blockLength: u16, specifier: u16, payload: bytes)
    ensures var data := HeaderBytes(n, blockLength, specifier) + payload;
            && |HeaderBytes(n, blockLength, specifier)| == ALARM_HEADER_LEN
            && U16At(data, 0) == n.blockType && U16At(data, 2) == blockLength
            && data[4] == n.versionHigh && data[5] == n.versionLow
            && U16At(data, 6) == n.alarmType && U32At(data, 8) == n.api
            && U16At(data, 12) == n.slotNumber && U16At(data, 14) == n.subslotNumber
            && U32At(data, 16) == n.moduleIdentNumber && U32At(data, 20) == n.submoduleIdentNumber
            && U16At(data, 24) == specifier
            && data[ALARM_HEADER_LEN..] == payload
  {
    hide Be16, Be32, U16At, U32At, HeaderBytes;
    var data := HeaderBytes(n, blockLength, specifier) + payload;
    var front := Be16(n.blockType) + Be16(blockLength) + [n.versionHigh, n.versionLow] + Be16(n.alarmType);
    var middle := Be32(n.api) + Be16(n.slotNumber) + Be16(n.subslotNumber);
    var back := Be32(n.moduleIdentNumber) + Be32(n.submoduleIdentNumber) + Be16(specifier);
    HeaderThirds(n, blockLength, specifier);
    assert data == front + (middle + back + payload);
    FrontReadsBack(data, n, blockLength, middle + back + payload);
    assert data == front + middle + (back + payload);
    MiddleReadsBack(data, front, n, back + payload);
    assert data == (front + middle) + back + payload;
    BackReadsBack(data, front + middle, n, specifier, payload);
  }

  lemma HeaderThirds(n: AlarmNotification, blockLength: u16, specifier: u16)
    ensures var front := Be16(n.blockType) + Be16(blockLength) + [n.versionHigh, n.versionLow] + Be16(n.alarmType);
            var middle := Be32(n.api) + Be16(n.slotNumber) + Be16(n.subslotNumber);
            var back := Be32(n.moduleIdentNumber) + Be32(n.submoduleIdentNumber) + Be16(specifier);
            && |front| == |middle| == 8 && |back| == 10 && HeaderBytes(n, blockLength, specifier) == front + middle + back
  {
    hide Be16, Be32;
  }

  lemma FrontReadsBack(data: bytes, n: AlarmNotification, blockLength: u16, post: bytes)
    requires data == (Be16(n.blockType) + Be16(blockLength) + [n.versionHigh, n.versionLow] + Be16(n.alarmType)) + post
    ensures |data| >= 8 && U16At(data, 0) == n.blockType && U16At(data, 2) == blockLength
    ensures data[4] == n.versionHigh && data[5] == n.versionLow && U16At(data, 6) == n.alarmType
  {
    hide Be16, U16At;
    var a, b, c, d := Be16(n.blockType), Be16(blockLength), [n.versionHigh, n.versionLow], Be16(n.alarmType);
    assert data == [] + a + (b + c + d + post);
    Read16(data, [], n.blockType, b + c + d + post);
    assert data == a + b + (c + d + post);
    Read16(data, a, blockLength, c + d + post);
    assert data == (a + b + c) + d + post;
    Read16(data, a + b + c, n.alarmType, post);
  }

  lemma MiddleReadsBack(data: bytes, pre: bytes, n: AlarmNotification, post: bytes)
    requires data == pre + (Be32(n.api) + Be16(n.slotNumber) + Be16(n.subslotNumber)) + post
    ensures var at := |pre|;
            && |data| >= at + 8 && U32At(data, at) == n.api && U16At(data, at + 4) == n.slotNumber && U16At(data, at + 6) == n.subslotNumber
  {
    hide Be16, Be32, U16At, U32At;
    var e, f, g := Be32(n.api), Be16(n.slotNumber), Be16(n.subslotNumber);
    assert data == pre + e + (f + g + post);
    Read32(data, pre, n.api, f + g + post);
    assert data == (pre + e) + f + (g + post);
    Read16(data, pre + e, n.slotNumber, g + post);
    assert data == (pre + e + f) + g + post;
    Read16(data, pre + e + f, n.subslotNumber, post);
  }

  lemma BackReadsBack(data: bytes, pre: bytes, n: AlarmNotification, specifier: u16, post: bytes)
    requires data == pre + (Be32(n.moduleIdentNumber) + Be32(n.submoduleIdentNumber) + Be16(specifier)) + post
    ensures var at := |pre|;
            && |data| >= at + 10 && U32At(data, at) == n.moduleIdentNumber && U32At(data, at + 4) == n.submoduleIdentNumber
            && U16At(data, at + 8) == specifier
  {
    hide Be16, Be32, U16At, U32At;
    var h, i, j := Be32(n.moduleIdentNumber), Be32(n.submoduleIdentNumber), Be16(specifier);
    assert data == pre + h + (i + j + post);
    Read32(data, pre, n.moduleIdentNumber, i + j + post);
    assert data == (pre + h) + i + (j + post);
    Read32(data, pre + h, n.submoduleIdentNumber, j + post);
    assert data == (pre + h + i) + j + post;
    Read16(data, pre + h + i, specifier, post);
  }

  /** What the header of a built PDU says, whatever payload stands behind it. */
  lemma DecodedHeader(n: AlarmNotification, blockLength: u16, payload: bytes, items: seq<AlarmItem>)
    requires n.alarmSequenceNumber < 0x800
    ensures var data := HeaderBytes(n, blockLength, Specifier(n)) + payload;
            |data| >= ALARM_HEADER_LEN && Decoded(data, items) == n.(items := items, rawPayload := payload)
  {
    HeaderReadsBack(n, blockLength, Specifier(n), payload);
    SpecifierBits(n);
  }

  /** The block ends where BlockLength says, and where the data ends if that comes first. */
  lemma BlockEnds(n: AlarmNotification, blockLength: u16, payload: bytes, padding: bytes)
    requires n.alarmSequenceNumber < 0x800
    requires padding == [] ==> ALARM_HEADER_LEN + |payload| - 4 <= blockLength
    requires padding != [] ==> ALARM_HEADER_LEN + |payload| - 4 == blockLength
    ensures var head := HeaderBytes(n, blockLength, Specifier(n));
            && |head| == ALARM_HEADER_LEN
            && CutToBlock(head + payload + padding) == head + payload
            && (head + payload)[ALARM_HEADER_LEN..] == payload
  {
    var head := HeaderBytes(n, blockLength, Specifier(n));
    HeaderReadsBack(n, blockLength, Specifier(n), payload);
    HeaderReadsBack(n, blockLength, Specifier(n), payload + padding);
    assert head + payload + padding == head + (payload + padding);
    assert (head + payload + padding)[..|head + payload|] == head + payload;
    assert padding == [] ==> head + payload + padding == head + payload;
  }

  lemma EmptyTail()
    ensures ParseAlarmItem([]) == Err
  {}

  /** Round trip, whatever padding follows the block. */
  lemma NotificationRoundTrip(n: AlarmNotification, padding: bytes)
    requires EncodableNotification(n)
    ensures Parsed(NotificationBytes(n) + padding) == Ok(n)
  {
    hide ItemsBytes, Items, HeaderBytes, Decoded, Specifier, EncodableList, CutToBlock;
    var blockLength := ALARM_HEADER_LEN + |n.rawPayload| - 4;
    BlockEnds(n, blockLength, n.rawPayload, padding);
    EmptyTail();
    ItemsReadBack(n.items, []);
    assert ItemsBytes(n.items) + [] == n.rawPayload;
    DecodedHeader(n, blockLength, n.rawPayload, n.items);
  }

  /** How long a PDU is that lacks all but `cut` bytes of its last item. */
  function LengthCut(n: AlarmNotification, cut: nat): (r: int)
    requires n.items != []
  {
    ALARM_HEADER_LEN + |ItemsBytes(n.items[..|n.items| - 1])| + cut
  }

  /** A PDU cut inside the part of its last item that every item of its kind must have: exactly the
      items before it are kept. */
  lemma TruncatedLastItem(n: AlarmNotification, cut: nat)
    requires EncodableNotification(n) && n.items != []
    requires cut < 2 + FixedLength(Usi(n.items[|n.items| - 1]))
    ensures LengthCut(n, cut) < |NotificationBytes(n)|
    ensures Parsed(NotificationBytes(n)[..LengthCut(n, cut)])
         == Ok(n.(items := n.items[..|n.items| - 1], rawPayload := NotificationBytes(n)[ALARM_HEADER_LEN..LengthCut(n, cut)]))
  {
    hide ItemFields, ItemBytes, ParseAlarmItem, Items, ItemsBytes, HeaderBytes, Decoded, Specifier, FixedLength, Usi, EncodableList, CutToBlock,
      OpenEnded, Encodable;
    var init, last := n.items[..|n.items| - 1], n.items[|n.items| - 1];
    SplitLast(n.items);
    TailHasNoItem(last, cut);
    TruncatedBytes(n, cut);
    var payload, blockLength := ItemsBytes(init) + ItemBytes(last)[..cut], ALARM_HEADER_LEN + |n.rawPayload| - 4;
    BlockEnds(n, blockLength, payload, []);
    var head := HeaderBytes(n, blockLength, Specifier(n));
    assert head + payload + [] == head + payload;
    ItemsReadBack(init, ItemBytes(last)[..cut]);
    DecodedHeader(n, blockLength, payload, init);
  }

  lemma HeaderSize(n: AlarmNotification, blockLength: u16, specifier: u16)
    ensures |HeaderBytes(n, blockLength, specifier)| == ALARM_HEADER_LEN
  {}

  lemma TruncatedBytes(n: AlarmNotification, cut: nat)
    requires EncodableNotification(n) && n.items != [] && cut <= |ItemBytes(n.items[|n.items| - 1])|
    ensures var payload := ItemsBytes(n.items[..|n.items| - 1]) + ItemBytes(n.items[|n.items| - 1])[..cut];
            && LengthCut(n, cut) <= |NotificationBytes(n)|
            && |payload| <= |n.rawPayload|
            && NotificationBytes(n)[..LengthCut(n, cut)]
               == HeaderBytes(n, ALARM_HEADER_LEN + |n.rawPayload| - 4, Specifier(n)) + payload
            && NotificationBytes(n)[ALARM_HEADER_LEN..LengthCut(n, cut)] == payload
  {
    hide ItemBytes, ItemsBytes, HeaderBytes, Specifier, EncodableList;
    var init, last := n.items[..|n.items| - 1], n.items[|n.items| - 1];
    SplitLast(n.items);
    var specifier, blockLength := Specifier(n), ALARM_HEADER_LEN + |n.rawPayload| - 4;
    HeaderSize(n, blockLength, specifier);
    var head, first, tail := HeaderBytes(n, blockLength, specifier), ItemsBytes(init), ItemBytes(last);
    assert NotificationBytes(n) == head + (first + tail);
    assert (head + (first + tail))[..|head| + |first| + cut] == head + (first + tail[..cut]);
  }

  lemma TailHasNoItem(item: AlarmItem, cut: nat)
    requires Encodable(item) && cut < 2 + FixedLength(Usi(item))
    ensures cut < |ItemBytes(item)| && ParseAlarmItem(ItemBytes(item)[..cut]) == Err
  {
    hide ItemFields;
    FieldsReadBack(item, []);
    assert cut >= 2 ==> U16At(ItemBytes(item)[..cut], 0) == Usi(item);
  }

  lemma NoItems()
    ensures ItemsBytes([]) == [] && EncodableList([])
  {}

  lemma {:induction false} FirstOfItems(items: seq<AlarmItem>)
    requires items != []
    ensures ItemsBytes(items) == ItemBytes(items[0]) + ItemsBytes(items[1..])
    ensures EncodableList(items) <==> Encodable(items[0]) && (|items| > 1 ==> !OpenEnded(items[0])) && EncodableList(items[1..])
  {
    hide ItemBytes, Encodable, OpenEnded;
  }

  lemma {:induction false} SplitLast(items: seq<AlarmItem>)
    requires items != []
    ensures ItemsBytes(items) == ItemsBytes(items[..|items| - 1]) + ItemBytes(items[|items| - 1])
    ensures EncodableList(items) ==> EncodableList(items[..|items| - 1]) && Encodable(items[|items| - 1])
    ensures EncodableList(items) && |items| > 1 ==> !OpenEnded(items[|items| - 2])
    decreases |items|
  {
    hide *;
    NoItems();
    FirstOfItems(items);
    var init := items[..|items| - 1];
    if |items| > 1 {
      SplitLast(items[1..]);
      assert items[1..][..|items| - 2] == init[1..] && init[0] == items[0];
      FirstOfItems(init);
    } else {
      assert items[1..] == [] && init == [];
    }
  }

  // -------------------------------------------------------------------------
  // AlarmAck
  // -------------------------------------------------------------------------

  /** AlarmAck-PDU: header, the alarm's address, its specifier, PNIOStatus OK. */
  function AlarmAck(n: AlarmNotification): bytes {
    Be16(if n.IsHighPriority() then 0x8001 else 0x8002) + Be16(18) + [0x01, 0x00] + Be16(n.alarmType) + Be32(n.api)
    + Be16(n.slotNumber) + Be16(n.subslotNumber) + Be16(Specifier(n)) + Be32(0)
  }

  /** The fields of an AlarmAck. */
  lemma AckFields(n: AlarmNotification)
    ensures var ack := AlarmAck(n);
            && |ack| == 22
            && U16At(ack, 0) == (if n.IsHighPriority() then 0x8001 else 0x8002)
            && U16At(ack, 16) == Specifier(n)
            && ack[2..6] == [0, 18, 1, 0] && ack[18..22] == [0, 0, 0, 0]
            && ack[6..16] == Be16(n.alarmType) + Be32(n.api) + Be16(n.slotNumber) + Be16(n.subslotNumber)
  {
    var ack := AlarmAck(n);
    assert ack[16..18] == Be16(Specifier(n)) && ack[2..4] == Be16(18) == [0, 18] && ack[18..22] == Be32(0) == [0, 0, 0, 0];
    assert ack[2..6] == ack[2..4] + [1, 0];
  }

  /** The fields of a received notification that its AlarmAck repeats. */
  lemma ReceivedFields(data: bytes, n: AlarmNotification)
    requires Parsed(data) == Ok(n)
    ensures |data| >= 26 && ALARM_HEADER_LEN == 26
    ensures n.IsHighPriority() == (U16At(data, 0) == BLOCK_ALARM_NOTIFICATION_HIGH)
    ensures n.alarmType == U16At(data, 6) && n.api == U32At(data, 8)
    ensures n.slotNumber == U16At(data, 12) && n.subslotNumber == U16At(data, 14)
    ensures var s := U16At(data, 24);
            Specifier(n) == s % 0x800 % 0x800 + Weight(Bit(s, 0x800), 0x800) + Weight(Bit(s, 0x1000), 0x1000)
                            + Weight(Bit(s, 0x2000), 0x2000) + Weight(Bit(s, 0x8000), 0x8000)
  {
    hide Items, Bit, Weight, CutToBlock, U16At, U32At;
    CutKeepsHeader(data);
    SameField(CutToBlock(data), data, 0);
    SameField(CutToBlock(data), data, 6);
    SameField(CutToBlock(data), data, 8);
    SameField(CutToBlock(data), data, 12);
    SameField(CutToBlock(data), data, 14);
    SameField(CutToBlock(data), data, 24);
  }

  lemma SameField(a: bytes, b: bytes, at: nat)
    requires |a| >= 26 && |b| >= 26 && forall k :: 0 <= k < 26 ==> a[k] == b[k]
    requires at <= 24
    ensures U16At(a, at) == U16At(b, at) && (at <= 22 ==> U32At(a, at) == U32At(b, at))
  {}

  /** The AlarmAck of a received PDU carries the received AlarmSpecifier with only bit 14 cleared, the
      alarm's type and address unchanged, its own length, version 1.0 and a PNIOStatus of OK. */
  lemma AckReproducesSpecifier(data: bytes, n: AlarmNotification)
    requires Parsed(data) == Ok(n)
    ensures |data| >= ALARM_HEADER_LEN
    ensures var ack, specifier := AlarmAck(n), U16At(data, 24);
            && |ack| == 22
            && U16At(ack, 16) == specifier - Weight(Bit(specifier, 0x4000), 0x4000)
            && ack[6..16] == data[6..16]
            && U16At(ack, 0) == (if U16At(data, 0) == BLOCK_ALARM_NOTIFICATION_HIGH then 0x8001 else 0x8002)
            && ack[2..6] == [0, 18, 1, 0] && ack[18..22] == [0, 0, 0, 0]
  {
    hide *;
    ReceivedFields(data, n);
    AckFields(n);
    SpecifierRebuilt(U16At(data, 24));
    AddressBytes(data);
  }

  lemma CutKeepsHeader(data: bytes)
    requires |data| >= ALARM_HEADER_LEN
    ensures |CutToBlock(data)| >= ALARM_HEADER_LEN && forall k :: 0 <= k < 26 ==> CutToBlock(data)[k] == data[k]
  {}

  lemma AddressBytes(data: bytes)
    requires |data| >= ALARM_HEADER_LEN
    ensures data[6..16] == Be16(U16At(data, 6)) + Be32(U32At(data, 8)) + Be16(U16At(data, 12)) + Be16(U16At(data, 14))
  {
    FieldIsBytes16(data, 6);
    FieldIsBytes32(data, 8);
    FieldIsBytes16(data, 12);
    FieldIsBytes16(data, 14);
    assert data[6..16] == data[6..8] + data[8..12] + data[12..14] + data[14..16];
  }

  lemma SpecifierRebuilt(s: u16)
    ensures s % 0x800 % 0x800 + Weight(Bit(s, 0x800), 0x800) + Weight(Bit(s, 0x1000), 0x1000) + Weight(Bit(s, 0x2000), 0x2000)
            + Weight(Bit(s, 0x8000), 0x8000) == s - Weight(Bit(s, 0x4000), 0x4000)
  {
    var flags := s / 0x800;
    assert s / 0x1000 == flags / 2 && s / 0x2000 == flags / 4 && s / 0x4000 == flags / 8 && s / 0x8000 == flags / 16;
    FiveBits(flags);
  }

  lemma FiveBits(q: nat)
    requires q < 32
    ensures q == q % 2 + q / 2 % 2 * 2 + q / 4 % 2 * 4 + q / 8 % 2 * 8 + q / 16 % 2 * 16
  {
    Halves(q);
    FourBits(q / 2);
  }

  lemma Halves(q: nat)
    ensures q == q / 2 * 2 + q % 2 && q / 4 == q / 2 / 2 && q / 8 == q / 2 / 4 && q / 16 == q / 2 / 8
  {}

  lemma FourBits(q: nat)
    requires q < 16
    ensures q == q % 2 + q / 2 % 2 * 2 + q / 4 % 2 * 4 + q / 8 % 2 * 8
  {
    Halves(q);
    var a := q / 2;
    assert a == a % 2 + a / 2 % 2 * 2 + a / 4 * 4;
  }
}
