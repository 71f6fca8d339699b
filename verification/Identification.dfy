/** RealIdentificationData and I&M0FilterData (src/im.rs): the same records read by a tolerant parser,
    which lists what it can, and by a strict one, which fails on the first short record. */
module Identification {
  import opened Bytes
  import opened Wrappers
  import opened NestedCounts

  datatype SlotInfo = SlotInfo(api: u32, slot: u16, subslot: u16, moduleIdent: u32, submoduleIdent: u32)

  predicate Whole(e: Entry) {
    |e.api| == 4 && |e.head| == 6 && |e.sub| == 6
  }

  function InfoOf(e: Entry): SlotInfo {
    if Whole(e) then SlotInfo(U32At(e.api, 0), U16At(e.head, 0), U16At(e.sub, 0), U32At(e.head, 2), U32At(e.sub, 2))
    else SlotInfo(0, 0, 0, 0, 0)
  }

  function InfosOf(es: seq<Entry>): (r: seq<SlotInfo>)
    ensures |r| == |es| && forall k :: 0 <= k < |r| ==> r[k] == InfoOf(es[k])
  {
    seq(|es|, k requires 0 <= k < |es| => InfoOf(es[k]))
  }

  const NO_API: bytes := [0, 0, 0, 0]

  /** Whether the record counts APIs: both version bytes of its header are at least 1. */
  predicate CountsApis(data: bytes) {
    |data| >= 6 && data[4] >= 1 && data[5] >= 1
  }

  function EntriesIn(data: bytes): seq<Entry> {
    var offset := if |data| >= 6 then 6 else 0;
    if |data| < offset + 2 then []
    else if CountsApis(data) then ApiWalk(IdentificationShape, data, offset + 2, U16At(data, offset)).0
    else ModuleWalk(IdentificationShape, NO_API, data, offset + 2, U16At(data, offset)).0
  }

  function RealIdentification(data: bytes): seq<SlotInfo> {
    InfosOf(EntriesIn(data))
  }

  lemma InfosAppend(a: seq<Entry>, b: seq<Entry>)
    ensures InfosOf(a + b) == InfosOf(a) + InfosOf(b)
  {
    hide InfoOf;
  }

  /** A whole record lists every slot once, in order: with the API level if both version bytes, the fifth and
      sixth of its header, are at least 1, and without one, under API 0, if not. */
  lemma WholeRecordIsListed(header: bytes, apis: seq<ApiRecord>, modules: seq<ModuleRecord>, post: bytes)
    requires |header| == 6
    ensures header[4] >= 1 && header[5] >= 1 && ApisFit(IdentificationShape, apis) ==>
              RealIdentification(header + (Be16(AsU16(|apis|)) + ApisBytes(apis) + post)) == InfosOf(ApiEntries(apis))
    ensures (header[4] == 0 || header[5] == 0) && ModulesFit(IdentificationShape, modules) ==>
              RealIdentification(header + (Be16(AsU16(|modules|)) + ModulesBytes(modules) + post))
              == InfosOf(ModuleEntries([0, 0, 0, 0], modules))
    ensures ApisFit(IdentificationShape, apis) ==> forall e :: e in ApiEntries(apis) ==> |e.api| == 4 && |e.head| == 6 && |e.sub| == 6
  {
    hide InfosOf, ApiEntries, ApisFit, ModulesFit;
    if ApisFit(IdentificationShape, apis) {
      EntriesAreWhole(IdentificationShape, apis);
    }
    if header[4] >= 1 && header[5] >= 1 && ApisFit(IdentificationShape, apis) {
      ApisFound(header, apis, post);
    }
    if (header[4] == 0 || header[5] == 0) && ModulesFit(IdentificationShape, modules) {
      ModulesFound(header, modules, post);
    }
  }

  lemma ApisFound(header: bytes, apis: seq<ApiRecord>, post: bytes)
    requires |header| == 6 && header[4] >= 1 && header[5] >= 1 && ApisFit(IdentificationShape, apis)
    ensures EntriesIn(header + (Be16(AsU16(|apis|)) + ApisBytes(apis) + post)) == ApiEntries(apis)
  {
    hide ApisFit, ApiWalk, ModuleWalk, ApisBytes, ApiEntries, Be16, U16At;
    var n, items := |apis|, ApisBytes(apis);
    assert n <= 0xFFFF && AsU16(n) == n by { hide *; ApiCount(apis); Fits16(n); }
    var data := header + (Be16(n) + items + post);
    assert data == header + Be16(n) + (items + post);
    Read16(data, header, n, items + post);
    assert data == (header + Be16(n)) + items + post;
    ApiWalkRecovers(IdentificationShape, header + Be16(n), apis, post);
  }

  lemma ApiCount(apis: seq<ApiRecord>)
    requires ApisFit(IdentificationShape, apis)
    ensures |apis| <= 0xFFFF
  {}

  lemma ModulesFound(header: bytes, modules: seq<ModuleRecord>, post: bytes)
    requires |header| == 6 && (header[4] == 0 || header[5] == 0) && ModulesFit(IdentificationShape, modules)
    ensures EntriesIn(header + (Be16(AsU16(|modules|)) + ModulesBytes(modules) + post)) == ModuleEntries([0, 0, 0, 0], modules)
  {
    hide ModulesFit, ApiWalk, ModuleWalk, ModulesBytes, ModuleEntries, Be16, U16At;
    var n, items := |modules|, ModulesBytes(modules);
    assert n <= 0xFFFF && AsU16(n) == n by { hide *; ModuleCount(modules); Fits16(n); }
    var data := header + (Be16(n) + items + post);
    assert data == header + Be16(n) + (items + post);
    Read16(data, header, n, items + post);
    assert data == (header + Be16(n)) + items + post;
    ModuleWalkRecovers(IdentificationShape, NO_API, header + Be16(n), modules, post);
  }

  lemma ModuleCount(modules: seq<ModuleRecord>)
    requires ModulesFit(IdentificationShape, modules)
    ensures |modules| <= 0xFFFF
  {}

  /** Cutting the record anywhere yields a prefix of the slots. */
  lemma TruncationOnlyShortens(data: bytes, len: nat)
    requires len <= |data|
    ensures RealIdentification(data[..len]) <= RealIdentification(data)
  {
    hide ApiWalk;
    assert EntriesIn(data[..len]) <= EntriesIn(data) by {
      if len >= 8 {
        var n := U16At(data, 6);
        assert U16At(data[..len], 6) == n;
        if CountsApis(data) {
          ApiWalkCut(IdentificationShape, data, 8, n, len);
        } else {
          ModuleWalkCut(IdentificationShape, NO_API, data, 8, n, len);
        }
      }
    }
  }

  // -------------------------------------------------------------------------
  // The tolerant parser
  // -------------------------------------------------------------------------

  method ReadSubslots(data: bytes, p0: nat, n: u16, api: u32, slot: u16, ident: u32, ghost apiBytes: bytes, ghost head: bytes,
                      found0: seq<SlotInfo>) returns (found: seq<SlotInfo>, p: nat)
    requires |apiBytes| == 4 && U32At(apiBytes, 0) == api
    requires |head| == 6 && U16At(head, 0) == slot && U32At(head, 2) == ident
    ensures var (es, at) := SubWalk(IdentificationShape, apiBytes, head, data, p0, n);
            found == found0 + InfosOf(es) && p == at
  {
    hide SubWalk, InfosOf, InfoOf, U16At, U32At;
    found, p := found0, p0;
    var i: nat := 0;
    ghost var es: seq<Entry> := [];
    ghost var all := SubWalk(IdentificationShape, apiBytes, head, data, p0, n);
    NoInfos(found0, all.0);
    while i < n
      invariant 0 <= i <= n && found == found0 + InfosOf(es)
      invariant var (rest, at) := SubWalk(IdentificationShape, apiBytes, head, data, p, n - i);
                all == (es + rest, at)
    {
      SubWalkStep(IdentificationShape, apiBytes, head, data, p, n - i, es);
      if |data| < p + 6 {
        return;
      }
      ghost var e := Entry(apiBytes, head, data[p..p + 6]);
      var info := SlotInfo(api, slot, U16At(data, p), ident, U32At(data, p + 2));
      InfoAt(data, p, e);
      InfosPush(found0, es, e);
      found := found + [info];
      es := es + [e];
      p := p + 6;
      i := i + 1;
    }
    SubWalkStep(IdentificationShape, apiBytes, head, data, p, 0, es);
  }

  lemma InfoAt(data: bytes, p: nat, e: Entry)
    requires |e.api| == 4 && |e.head| == 6 && p + 6 <= |data| && e.sub == data[p..p + 6]
    ensures InfoOf(e) == SlotInfo(U32At(e.api, 0), U16At(e.head, 0), U16At(data, p), U32At(e.head, 2), U32At(data, p + 2))
  {}

  lemma InfosPush(found: seq<SlotInfo>, es: seq<Entry>, e: Entry)
    ensures found + InfosOf(es + [e]) == (found + InfosOf(es)) + [InfoOf(e)]
  {
    hide InfoOf;
  }

  method ReadSlots(data: bytes, p0: nat, n: u16, api: u32, ghost apiBytes: bytes, found0: seq<SlotInfo>)
    returns (found: seq<SlotInfo>, p: nat)
    requires |apiBytes| == 4 && U32At(apiBytes, 0) == api
    ensures var (es, at) := ModuleWalk(IdentificationShape, apiBytes, data, p0, n);
            found == found0 + InfosOf(es) && p == at
  {
    hide SubWalk, ModuleWalk, InfosOf;
    found, p := found0, p0;
    var i: nat := 0;
    ghost var es: seq<Entry> := [];
    ghost var all := ModuleWalk(IdentificationShape, apiBytes, data, p0, n);
    NoInfos(found0, all.0);
    while i < n
      invariant 0 <= i <= n && found == found0 + InfosOf(es)
      invariant all == (es + ModuleWalk(IdentificationShape, apiBytes, data, p, n - i).0, ModuleWalk(IdentificationShape, apiBytes, data, p, n - i).1)
    {
      ModuleWalkStep(IdentificationShape, apiBytes, data, p, n - i, es);
      if |data| < p + 8 {
        return;
      }
      ghost var head := data[p..p + 6];
      var slot, ident := U16At(data, p), U32At(data, p + 2);
      assert U16At(head, 0) == slot && U32At(head, 2) == ident;
      ghost var subs := SubWalk(IdentificationShape, apiBytes, head, data, p + 8, U16At(data, p + 6)).0;
      InfosAppend(es, subs);
      found, p := ReadSubslots(data, p + 8, U16At(data, p + 6), api, slot, ident, apiBytes, head, found);
      es := es + subs;
      i := i + 1;
    }
    ModuleWalkStep(IdentificationShape, apiBytes, data, p, 0, es);
  }

  lemma NoInfos(found: seq<SlotInfo>, es: seq<Entry>)
    ensures found == found + InfosOf([]) && [] + es == es
  {}

  method ParseRealIdentificationData(data: bytes) returns (found: seq<SlotInfo>)
    ensures found == RealIdentification(data)
  {
    hide ApiWalk, ModuleWalk, InfosOf;
    found := [];
    var offset, version := 0, (1, 0);
    if |data| >= 6 {
      version := (data[4], data[5]);
      offset := 6;
    }
    if |data| < offset + 2 {
      NoInfos([], []);
      return;
    }
    if version.0 >= 1 && version.1 >= 1 {
      var n := U16At(data, offset);
      var p: nat, i: nat := offset + 2, 0;
      ghost var es: seq<Entry> := [];
      ghost var all := ApiWalk(IdentificationShape, data, p, n);
      NoInfos([], all.0);
      while i < n
        invariant 0 <= i <= n && found == InfosOf(es)
        invariant all.0 == es + ApiWalk(IdentificationShape, data, p, n - i).0
      {
        ApiWalkStep(IdentificationShape, data, p, n - i, es);
        if |data| < p + 6 {
          break;
        }
        var api := U32At(data, p);
        ghost var apiBytes := data[p..p + 4];
        assert U32At(apiBytes, 0) == api;
        ghost var modules := ModuleWalk(IdentificationShape, apiBytes, data, p + 6, U16At(data, p + 4)).0;
        InfosAppend(es, modules);
        found, p := ReadSlots(data, p + 6, U16At(data, p + 4), api, apiBytes, found);
        es := es + modules;
        i := i + 1;
      }
      ApiWalkStep(IdentificationShape, data, p, n - i, es);
    } else {
      NoInfos([], []);
      var p;
      found, p := ReadSlots(data, offset + 2, U16At(data, offset), 0, NO_API, found);
      assert [] + found == found;
    }
  }

  // -------------------------------------------------------------------------
  // The strict parser
  // -------------------------------------------------------------------------

  type SubMap = map<u16, u32>
  type SlotMap = map<u16, (u32, SubMap)>
  type Filter = map<u32, SlotMap>

  /** Later entries replace earlier ones. */
  function SubMapOf(subs: seq<bytes>): SubMap
    requires forall k :: 0 <= k < |subs| ==> |subs[k]| == 6
  {
    if subs == [] then map[]
    else var last := subs[|subs| - 1]; SubMapOf(subs[..|subs| - 1])[U16At(last, 0) := U32At(last, 2)]
  }

  function SlotMapOf(modules: seq<ModuleRecord>): SlotMap
    requires ModulesFit(IdentificationShape, modules)
  {
    if modules == [] then map[]
    else
      var last := modules[|modules| - 1];
      SlotMapOf(modules[..|modules| - 1])[U16At(last.head, 0) := (U32At(last.head, 2), SubMapOf(last.subs))]
  }

  function FilterOf(apis: seq<ApiRecord>): Filter
    requires ApisFit(IdentificationShape, apis)
  {
    if apis == [] then map[]
    else
      var last := apis[|apis| - 1];
      FilterOf(apis[..|apis| - 1])[U32At(last.api, 0) := SlotMapOf(last.modules)]
  }

  /** The records of an I&M0FilterData, if it is whole. */
  function FilterRecords(data: bytes): Option<seq<ApiRecord>> {
    if |data| < 8 then None
    else
      match StrictApis(IdentificationShape, data[6..], 2, U16At(data[6..], 0))
      case None => None
      case Some((apis, end)) => Some(apis)
  }

  lemma FilterRecordsFit(data: bytes)
    requires FilterRecords(data).Some?
    ensures ApisFit(IdentificationShape, FilterRecords(data).value)
  {
    hide StrictApis;
    StrictApisSound(IdentificationShape, data[6..], 2, U16At(data[6..], 0));
  }

  /** The filter of a whole record; an error for anything short. */
  function FilterResult(data: bytes): Result<Filter> {
    match FilterRecords(data)
    case None => Err
    case Some(apis) => FilterRecordsFit(data); Ok(FilterOf(apis))
  }

  function Prepend<T>(done: seq<T>, r: Option<(seq<T>, nat)>): Option<(seq<T>, nat)> {
    match r
    case None => None
    case Some((rest, end)) => Some((done + rest, end))
  }

  /** One turn of a strict loop, with `done` read before. */
  lemma StrictSubsStep(b: bytes, p: nat, n: nat, done: seq<bytes>)
    ensures Prepend(done, StrictSubs(IdentificationShape, b, p, n)) ==
            if n == 0 then Some((done, p))
            else if p + 6 > |b| then None
            else Prepend(done + [b[p..p + 6]], StrictSubs(IdentificationShape, b, p + 6, n - 1))
  {
    assert done + [] == done;
    if n > 0 && p + 6 <= |b| && StrictSubs(IdentificationShape, b, p + 6, n - 1).Some? {
      var rest := StrictSubs(IdentificationShape, b, p + 6, n - 1).value.0;
      assert done + ([b[p..p + 6]] + rest) == (done + [b[p..p + 6]]) + rest;
    }
  }

  lemma StrictModulesStep(b: bytes, p: nat, n: nat, done: seq<ModuleRecord>)
    ensures Prepend(done, StrictModules(IdentificationShape, b, p, n)) ==
            if n == 0 then Some((done, p))
            else if p + 8 > |b| then None
            else
              match StrictSubs(IdentificationShape, b, p + 8, U16At(b, p + 6))
              case None => None
              case Some((subs, at)) =>
                Prepend(done + [ModuleRecord(b[p..p + 6], subs)], StrictModules(IdentificationShape, b, at, n - 1))
  {
    hide StrictSubs;
    assert done + [] == done;
    if n > 0 && p + 8 <= |b| && StrictModules(IdentificationShape, b, p, n).Some? {
      var (subs, at) := StrictSubs(IdentificationShape, b, p + 8, U16At(b, p + 6)).value;
      var m, rest := ModuleRecord(b[p..p + 6], subs), StrictModules(IdentificationShape, b, at, n - 1).value.0;
      assert done + ([m] + rest) == (done + [m]) + rest;
    }
  }

  lemma StrictApisStep(b: bytes, p: nat, n: nat, done: seq<ApiRecord>)
    ensures Prepend(done, StrictApis(IdentificationShape, b, p, n)) ==
            if n == 0 then Some((done, p))
            else if p + 6 > |b| then None
            else
              match StrictModules(IdentificationShape, b, p + 6, U16At(b, p + 4))
              case None => None
              case Some((modules, at)) =>
                Prepend(done + [ApiRecord(b[p..p + 4], modules)], StrictApis(IdentificationShape, b, at, n - 1))
  {
    hide StrictModules;
    assert done + [] == done;
    if n > 0 && p + 6 <= |b| && StrictApis(IdentificationShape, b, p, n).Some? {
      var (modules, at) := StrictModules(IdentificationShape, b, p + 6, U16At(b, p + 4)).value;
      var a, rest := ApiRecord(b[p..p + 4], modules), StrictApis(IdentificationShape, b, at, n - 1).value.0;
      assert done + ([a] + rest) == (done + [a]) + rest;
    }
  }

  lemma StartsEmpty<T>(r: Option<(seq<T>, nat)>)
    ensures Prepend([], r) == r
  {
    if r.Some? {
      assert [] + r.value.0 == r.value.0;
    }
  }

  method StrictReadSubs(b: bytes, p0: nat, n: u16) returns (ok: bool, m: SubMap, p: nat, ghost subs: seq<bytes>)
    ensures StrictSubs(IdentificationShape, b, p0, n) == if ok then Some((subs, p)) else None
    ensures ok ==> SubsFit(IdentificationShape, subs) && m == SubMapOf(subs)
  {
    hide StrictSubs;
    m, p, subs := map[], p0, [];
    var i: nat := 0;
    ghost var all := StrictSubs(IdentificationShape, b, p0, n);
    StartsEmpty(all);
    while i < n
      invariant 0 <= i <= n && |subs| == i && (forall k :: 0 <= k < i ==> |subs[k]| == 6) && m == SubMapOf(subs)
      invariant all == Prepend(subs, StrictSubs(IdentificationShape, b, p, n - i))
    {
      StrictSubsStep(b, p, n - i, subs);
      if |b| < p + 6 {
        return false, m, p, subs;
      }
      var subslot, ident := U16At(b, p), U32At(b, p + 2);
      ghost var sub := b[p..p + 6];
      assert U16At(sub, 0) == subslot && U32At(sub, 2) == ident;
      assert (subs + [sub])[..i] == subs;
      m := m[subslot := ident];
      subs := subs + [sub];
      p := p + 6;
      i := i + 1;
    }
    StrictSubsStep(b, p, 0, subs);
    ok := true;
  }

  method StrictReadSlots(b: bytes, p0: nat, n: u16) returns (ok: bool, m: SlotMap, p: nat, ghost modules: seq<ModuleRecord>)
    ensures StrictModules(IdentificationShape, b, p0, n) == if ok then Some((modules, p)) else None
    ensures ok ==> ModulesFit(IdentificationShape, modules) && m == SlotMapOf(modules)
  {
    hide StrictModules, StrictSubs, SubMapOf;
    m, p, modules := map[], p0, [];
    var i: nat := 0;
    ghost var all := StrictModules(IdentificationShape, b, p0, n);
    StartsEmpty(all);
    while i < n
      invariant 0 <= i <= n && |modules| == i && ModulesFit(IdentificationShape, modules) && m == SlotMapOf(modules)
      invariant all == Prepend(modules, StrictModules(IdentificationShape, b, p, n - i))
    {
      StrictModulesStep(b, p, n - i, modules);
      if |b| < p + 8 {
        return false, m, p, modules;
      }
      var slot, ident := U16At(b, p), U32At(b, p + 2);
      ghost var head := b[p..p + 6];
      assert U16At(head, 0) == slot && U32At(head, 2) == ident;
      var subsOk, subs, at;
      ghost var records;
      subsOk, subs, at, records := StrictReadSubs(b, p + 8, U16At(b, p + 6));
      if !subsOk {
        return false, m, p, modules;
      }
      ghost var record := ModuleRecord(head, records);
      assert (modules + [record])[..i] == modules;
      m := m[slot := (ident, subs)];
      modules := modules + [record];
      p := at;
      i := i + 1;
    }
    StrictModulesStep(b, p, 0, modules);
    ok := true;
  }

  lemma NoApis()
    ensures ApisFit(IdentificationShape, []) && FilterOf([]) == map[]
  {}

  lemma FilterAppend(apis: seq<ApiRecord>, a: ApiRecord)
    requires ApisFit(IdentificationShape, apis) && |apis| < 0xFFFF
    requires |a.api| == 4 && ModulesFit(IdentificationShape, a.modules)
    ensures ApisFit(IdentificationShape, apis + [a])
    ensures FilterOf(apis + [a]) == FilterOf(apis)[U32At(a.api, 0) := SlotMapOf(a.modules)]
  {
    hide ModulesFit, SlotMapOf, U32At;
    var all := apis + [a];
    assert all[..|apis|] == apis && all[|apis|] == a;
    assert forall k :: 0 <= k < |apis| ==> all[k] == apis[k];
  }

  method ParseInm0Filter(data: bytes) returns (r: Result<Filter>)
    ensures r == FilterResult(data)
  {
    hide StrictApis, StrictModules, SlotMapOf, ModulesFit, FilterOf, ApisFit, U16At;
    NoApis();
    if |data| < 6 {
      return Err;
    }
    var b := data[6..];
    if |b| < 2 {
      return Err;
    }
    var n, p: nat, result: Filter := U16At(b, 0), 2, map[];
    var i: nat := 0;
    ghost var apis: seq<ApiRecord> := [];
    ghost var all := StrictApis(IdentificationShape, b, 2, n);
    StartsEmpty(all);
    while i < n
      invariant 0 <= i <= n && |apis| == i && ApisFit(IdentificationShape, apis) && result == FilterOf(apis)
      invariant all == Prepend(apis, StrictApis(IdentificationShape, b, p, n - i))
    {
      StrictApisStep(b, p, n - i, apis);
      if |b| < p + 6 {
        return Err;
      }
      var api := U32At(b, p);
      ghost var apiBytes := b[p..p + 4];
      SliceFields(b, p, p + 4, 0);
      var ok, slots, at;
      ghost var records;
      ok, slots, at, records := StrictReadSlots(b, p + 6, U16At(b, p + 4));
      if !ok {
        return Err;
      }
      ghost var record := ApiRecord(apiBytes, records);
      FilterAppend(apis, record);
      result := result[api := slots];
      apis := apis + [record];
      p := at;
      i := i + 1;
    }
    StrictApisStep(b, p, 0, apis);
    r := Ok(result);
  }

  /** What the strict parser accepts: exactly the records that are whole, whatever header precedes and
      whatever follows them. */
  lemma WholeRecordsAreAccepted(header: bytes, apis: seq<ApiRecord>, post: bytes)
    requires |header| == 6 && ApisFit(IdentificationShape, apis)
    ensures FilterResult(header + (Be16(|apis|) + ApisBytes(apis) + post)) == Ok(FilterOf(apis))
  {
    hide FilterOf, FilterRecords, ModulesFit, ApisBytes;
    CountedRecords(header, apis, post);
  }

  lemma CountedRecords(header: bytes, apis: seq<ApiRecord>, post: bytes)
    requires |header| == 6 && |apis| <= 0xFFFF && ApisFit(IdentificationShape, apis)
    ensures FilterRecords(header + (Be16(|apis|) + ApisBytes(apis) + post)) == Some(apis)
  {
    hide StrictApis, ApisBytes, ApisFit, Be16, U16At;
    var rest := Be16(|apis|) + ApisBytes(apis) + post;
    var data := header + rest;
    assert data[6..] == rest && |data| >= 8;
    assert rest == [] + Be16(|apis|) + (ApisBytes(apis) + post);
    Read16(rest, [], |apis|, ApisBytes(apis) + post);
    StrictApisComplete(IdentificationShape, Be16(|apis|), apis, post);
  }

  // -------------------------------------------------------------------------
  // Agreement
  // -------------------------------------------------------------------------

  predicate DistinctSubs(subs: seq<bytes>)
    requires forall k :: 0 <= k < |subs| ==> |subs[k]| == 6
  {
    forall i, j :: 0 <= i < j < |subs| ==> U16At(subs[i], 0) != U16At(subs[j], 0)
  }

  predicate DistinctModules(modules: seq<ModuleRecord>)
    requires ModulesFit(IdentificationShape, modules)
  {
    && (forall i, j :: 0 <= i < j < |modules| ==> U16At(modules[i].head, 0) != U16At(modules[j].head, 0))
    && (forall i :: 0 <= i < |modules| ==> DistinctSubs(modules[i].subs))
  }

  predicate DistinctApis(apis: seq<ApiRecord>)
    requires ApisFit(IdentificationShape, apis)
  {
    && (forall i, j :: 0 <= i < j < |apis| ==> U32At(apis[i].api, 0) != U32At(apis[j].api, 0))
    && (forall i :: 0 <= i < |apis| ==> DistinctModules(apis[i].modules))
  }

  predicate SubMaps(m: SubMap, subslot: u16, ident: u32) {
    subslot in m && m[subslot] == ident
  }

  predicate SlotMaps(m: SlotMap, info: SlotInfo) {
    info.slot in m && m[info.slot].0 == info.moduleIdent && SubMaps(m[info.slot].1, info.subslot, info.submoduleIdent)
  }

  predicate Maps(m: Filter, info: SlotInfo) {
    info.api in m && SlotMaps(m[info.api], info)
  }

  lemma {:induction false} SubsListed(api: bytes, head: bytes, subs: seq<bytes>, info: SlotInfo)
    requires |api| == 4 && |head| == 6 && SubsFit(IdentificationShape, subs) && DistinctSubs(subs)
    ensures info in InfosOf(SubEntries(api, head, subs)) <==>
            && U32At(api, 0) == info.api && U16At(head, 0) == info.slot && U32At(head, 2) == info.moduleIdent
            && SubMaps(SubMapOf(subs), info.subslot, info.submoduleIdent)
  {
    if subs != [] {
      var init, last := subs[..|subs| - 1], subs[|subs| - 1];
      SubsListed(api, head, init, info);
      SubEntriesAppend(api, head, init, last);
      assert init + [last] == subs;
      InfosAppend(SubEntries(api, head, init), [Entry(api, head, last)]);
      assert InfosOf([Entry(api, head, last)]) == [InfoOf(Entry(api, head, last))];
      assert U16At(last, 0) !in SubMapOf(init) by { SubKeys(init, U16At(last, 0)); }
    }
  }

  lemma {:induction false} SubKeys(subs: seq<bytes>, key: u16)
    requires forall k :: 0 <= k < |subs| ==> |subs[k]| == 6
    requires forall k :: 0 <= k < |subs| ==> U16At(subs[k], 0) != key
    ensures key !in SubMapOf(subs)
  {
    if subs != [] {
      SubKeys(subs[..|subs| - 1], key);
    }
  }

  lemma {:induction false} SubEntriesAppend(api: bytes, head: bytes, subs: seq<bytes>, sub: bytes)
    ensures SubEntries(api, head, subs + [sub]) == SubEntries(api, head, subs) + [Entry(api, head, sub)]
  {
    if subs != [] {
      assert (subs + [sub])[1..] == subs[1..] + [sub];
      SubEntriesAppend(api, head, subs[1..], sub);
    }
  }

  lemma {:induction false} ModulesListed(api: bytes, modules: seq<ModuleRecord>, info: SlotInfo)
    requires |api| == 4 && ModulesFit(IdentificationShape, modules) && DistinctModules(modules)
    ensures info in InfosOf(ModuleEntries(api, modules)) <==> U32At(api, 0) == info.api && SlotMaps(SlotMapOf(modules), info)
  {
    hide SubMapOf, SubEntries, InfosOf, SubMaps;
    if modules == [] {
      NoInfos([], []);
    } else {
      var init, last := modules[..|modules| - 1], modules[|modules| - 1];
      ModulesListed(api, init, info);
      SubsListed(api, last.head, last.subs, info);
      ModuleEntriesAppend(api, init, last);
      assert init + [last] == modules;
      InfosAppend(ModuleEntries(api, init), SubEntries(api, last.head, last.subs));
      SlotKeys(init, U16At(last.head, 0));
    }
  }

  lemma {:induction false} SlotKeys(modules: seq<ModuleRecord>, key: u16)
    requires ModulesFit(IdentificationShape, modules)
    requires forall k :: 0 <= k < |modules| ==> U16At(modules[k].head, 0) != key
    ensures key !in SlotMapOf(modules)
  {
    if modules != [] {
      SlotKeys(modules[..|modules| - 1], key);
    }
  }

  lemma {:induction false} ModuleEntriesAppend(api: bytes, modules: seq<ModuleRecord>, m: ModuleRecord)
    ensures ModuleEntries(api, modules + [m]) == ModuleEntries(api, modules) + SubEntries(api, m.head, m.subs)
  {
    if modules == [] {
      assert (modules + [m])[1..] == [];
    } else {
      assert (modules + [m])[1..] == modules[1..] + [m];
      ModuleEntriesAppend(api, modules[1..], m);
    }
  }

  lemma {:induction false} ApisListed(apis: seq<ApiRecord>, info: SlotInfo)
    requires ApisFit(IdentificationShape, apis) && DistinctApis(apis)
    ensures info in InfosOf(ApiEntries(apis)) <==> Maps(FilterOf(apis), info)
  {
    hide SlotMapOf, ModuleEntries, InfosOf, SlotMaps;
    if apis == [] {
      NoInfos([], []);
    } else {
      var init, last := apis[..|apis| - 1], apis[|apis| - 1];
      ApisListed(init, info);
      ModulesListed(last.api, last.modules, info);
      ApiEntriesAppend(init, last);
      assert init + [last] == apis;
      InfosAppend(ApiEntries(init), ModuleEntries(last.api, last.modules));
      ApiKeys(init, U32At(last.api, 0));
    }
  }

  lemma {:induction false} ApiKeys(apis: seq<ApiRecord>, key: u32)
    requires ApisFit(IdentificationShape, apis)
    requires forall k :: 0 <= k < |apis| ==> U32At(apis[k].api, 0) != key
    ensures key !in FilterOf(apis)
  {
    if apis != [] {
      ApiKeys(apis[..|apis| - 1], key);
    }
  }

  lemma {:induction false} ApiEntriesAppend(apis: seq<ApiRecord>, a: ApiRecord)
    ensures ApiEntries(apis + [a]) == ApiEntries(apis) + ModuleEntries(a.api, a.modules)
  {
    if apis == [] {
      assert (apis + [a])[1..] == [];
    } else {
      assert (apis + [a])[1..] == apis[1..] + [a];
      ApiEntriesAppend(apis[1..], a);
    }
  }

  /** On every record with API counts that the strict parser accepts and that repeats no API, slot or
      subslot, both parsers report the same submodules with the same identities. */
  lemma ParsersAgree(data: bytes, info: SlotInfo)
    requires CountsApis(data) && FilterRecords(data).Some?
    ensures ApisFit(IdentificationShape, FilterRecords(data).value)
    ensures var apis := FilterRecords(data).value;
            DistinctApis(apis) ==> (info in RealIdentification(data) <==> Maps(FilterOf(apis), info))
  {
    hide StrictApis, ApiWalk, ApiEntries, FilterOf, InfosOf, Maps, DistinctApis, ApisFit;
    FilterRecordsFit(data);
    var apis := FilterRecords(data).value;
    assert data == data[..6] + data[6..] && U16At(data[6..], 0) == U16At(data, 6);
    StrictAndTolerantAgree(IdentificationShape, data[..6], data[6..], 2, U16At(data, 6));
    assert EntriesIn(data) == ApiEntries(apis);
    if DistinctApis(apis) {
      ApisListed(apis, info);
    }
  }
}
