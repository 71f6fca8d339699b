/** Records nested three deep, each level behind a 16-bit count: APIs, modules, submodules. The
    ModuleDiffBlock (src/transport.rs), RealIdentificationData and I&M0FilterData (src/im.rs) all have
    this form; they differ in the size of their records. A tolerant walk yields what it can read, a
    strict one fails on the first short record. */
module NestedCounts {
  import opened Bytes
  import opened Wrappers

  datatype Shape = DiffShape | IdentificationShape {
    /** Bytes of a module record, the count of its submodules at its end. */
    function ModuleSize(): nat { if DiffShape? then 10 else 8 }
    function EntrySize(): nat { if DiffShape? then 8 else 6 }
  }

  const API_SIZE := 6

  /** A submodule record with the API number and module record it stands under. */
  datatype Entry = Entry(api: bytes, head: bytes, sub: bytes)

  // -------------------------------------------------------------------------
  // The tolerant walk: entries from offset `p` on, and the offset it stops at
  // -------------------------------------------------------------------------

  function SubWalk(sh: Shape, api: bytes, head: bytes, b: bytes, p: nat, n: nat): (seq<Entry>, nat)
    decreases n
  {
    if n == 0 || p + sh.EntrySize() > |b| then ([], p)
    else
      var (rest, end) := SubWalk(sh, api, head, b, p + sh.EntrySize(), n - 1);
      ([Entry(api, head, b[p..p + sh.EntrySize()])] + rest, end)
  }

  function ModuleWalk(sh: Shape, api: bytes, b: bytes, p: nat, n: nat): (seq<Entry>, nat)
    decreases n
  {
    var h := sh.ModuleSize();
    if n == 0 || p + h > |b| then ([], p)
    else
      var (subs, at) := SubWalk(sh, api, b[p..p + h - 2], b, p + h, U16At(b, p + h - 2));
      var (rest, end) := ModuleWalk(sh, api, b, at, n - 1);
      (subs + rest, end)
  }

  function ApiWalk(sh: Shape, b: bytes, p: nat, n: nat): (seq<Entry>, nat)
    decreases n
  {
    if n == 0 || p + API_SIZE > |b| then ([], p)
    else
      var (modules, at) := ModuleWalk(sh, b[p..p + 4], b, p + API_SIZE, U16At(b, p + 4));
      var (rest, end) := ApiWalk(sh, b, at, n - 1);
      (modules + rest, end)
  }

  // One turn of each loop, with `done` found before it.

  lemma {:induction false} SubWalkStep(sh: Shape, api: bytes, head: bytes, b: bytes, p: nat, n: nat, done: seq<Entry>)
    ensures var size := sh.EntrySize();
            var (es, end) := SubWalk(sh, api, head, b, p, n);
            if n == 0 || p + size > |b| then done + es == done && end == p
            else
              var (rest, last) := SubWalk(sh, api, head, b, p + size, n - 1);
              done + es == (done + [Entry(api, head, b[p..p + size])]) + rest && end == last
  {}

  lemma {:induction false} ModuleWalkStep(sh: Shape, api: bytes, b: bytes, p: nat, n: nat, done: seq<Entry>)
    ensures var h := sh.ModuleSize();
            var (es, end) := ModuleWalk(sh, api, b, p, n);
            if n == 0 || p + h > |b| then done + es == done && end == p
            else
              var (subs, at) := SubWalk(sh, api, b[p..p + h - 2], b, p + h, U16At(b, p + h - 2));
              var (rest, last) := ModuleWalk(sh, api, b, at, n - 1);
              done + es == (done + subs) + rest && end == last
  {
    hide SubWalk, U16At;
  }

  lemma {:induction false} ApiWalkStep(sh: Shape, b: bytes, p: nat, n: nat, done: seq<Entry>)
    ensures var (es, end) := ApiWalk(sh, b, p, n);
            if n == 0 || p + 6 > |b| then done + es == done
            else
              var (modules, at) := ModuleWalk(sh, b[p..p + 4], b, p + 6, U16At(b, p + 4));
              var (rest, last) := ApiWalk(sh, b, at, n - 1);
              done + es == (done + modules) + rest && end == last
  {
    hide ModuleWalk, U16At;
  }

  // -------------------------------------------------------------------------
  // Truncation
  // -------------------------------------------------------------------------

  /** A walk over cut input goes as the walk over the whole, or it loses a tail and has no room for
      another module. */
  predicate CutOf(sh: Shape, cut: (seq<Entry>, nat), whole: (seq<Entry>, nat), len: nat) {
    cut == whole || (cut.0 <= whole.0 && cut.1 + sh.ModuleSize() > len)
  }

  lemma {:induction false} SubWalkCut(sh: Shape, api: bytes, head: bytes, b: bytes, p: nat, n: nat, len: nat)
    requires len <= |b|
    ensures CutOf(sh, SubWalk(sh, api, head, b[..len], p, n), SubWalk(sh, api, head, b, p, n), len)
    decreases n
  {
    var s := sh.EntrySize();
    if n > 0 && p + s <= len {
      assert b[..len][p..p + s] == b[p..p + s];
      SubWalkCut(sh, api, head, b, p + s, n - 1, len);
    }
  }

  lemma {:induction false} ModuleTurn(sh: Shape, api: bytes, b: bytes, p: nat, n: nat)
    ensures var h := sh.ModuleSize();
            if n == 0 || p + h > |b| then ModuleWalk(sh, api, b, p, n) == ([], p)
            else
              var (subs, at) := SubWalk(sh, api, b[p..p + h - 2], b, p + h, U16At(b, p + h - 2));
              var (rest, end) := ModuleWalk(sh, api, b, at, n - 1);
              ModuleWalk(sh, api, b, p, n) == (subs + rest, end)
  {
    hide SubWalk, U16At;
  }

  lemma CutHead(b: bytes, p: nat, head: nat, len: nat)
    requires p + head + 2 <= len <= |b|
    ensures b[..len][p..p + head] == b[p..p + head] && U16At(b[..len], p + head) == U16At(b, p + head)
  {}

  lemma {:induction false} ModuleWalkCut(sh: Shape, api: bytes, b: bytes, p: nat, n: nat, len: nat)
    requires len <= |b|
    ensures CutOf(sh, ModuleWalk(sh, api, b[..len], p, n), ModuleWalk(sh, api, b, p, n), len)
    decreases n
  {
    hide SubWalk, ModuleWalk, U16At;
    var h := sh.ModuleSize();
    ModuleTurn(sh, api, b, p, n);
    ModuleTurn(sh, api, b[..len], p, n);
    if n > 0 && p + h <= len {
      CutHead(b, p, h - 2, len);
      var head, count := b[p..p + h - 2], U16At(b, p + h - 2);
      SubWalkCut(sh, api, head, b, p + h, count, len);
      var cut, whole := SubWalk(sh, api, head, b[..len], p + h, count), SubWalk(sh, api, head, b, p + h, count);
      if cut == whole {
        ModuleWalkCut(sh, api, b, whole.1, n - 1, len);
      } else {
        ModuleTurn(sh, api, b[..len], cut.1, n - 1);
      }
    }
  }

  /** Without room for a module no entry follows, whatever bytes are taken for API headers. */
  lemma {:induction false} NoRoomNoEntries(sh: Shape, b: bytes, p: nat, n: nat)
    requires p + sh.ModuleSize() > |b|
    ensures ApiWalk(sh, b, p, n).0 == []
    decreases n
  {
    if n > 0 && p + API_SIZE <= |b| {
      NoRoomNoEntries(sh, b, p + API_SIZE, n - 1);
    }
  }

  /** Cutting the input only shortens the list of entries. */
  lemma {:induction false} ApiWalkCut(sh: Shape, b: bytes, p: nat, n: nat, len: nat)
    requires len <= |b|
    ensures ApiWalk(sh, b[..len], p, n).0 <= ApiWalk(sh, b, p, n).0
    decreases n
  {
    hide ModuleWalk;
    if n > 0 && p + API_SIZE <= len {
      assert b[..len][p..p + 4] == b[p..p + 4] && U16At(b[..len], p + 4) == U16At(b, p + 4);
      var api, count := b[p..p + 4], U16At(b, p + 4);
      ModuleWalkCut(sh, api, b, p + API_SIZE, count, len);
      var cut, whole := ModuleWalk(sh, api, b[..len], p + API_SIZE, count), ModuleWalk(sh, api, b, p + API_SIZE, count);
      if cut == whole {
        ApiWalkCut(sh, b, whole.1, n - 1, len);
      } else {
        NoRoomNoEntries(sh, b[..len], cut.1, n - 1);
      }
    }
  }

  // -------------------------------------------------------------------------
  // Well-formed records
  // -------------------------------------------------------------------------

  datatype ModuleRecord = ModuleRecord(head: bytes, subs: seq<bytes>)
  datatype ApiRecord = ApiRecord(api: bytes, modules: seq<ModuleRecord>)

  predicate SubsFit(sh: Shape, subs: seq<bytes>) {
    |subs| <= 0xFFFF && forall k :: 0 <= k < |subs| ==> |subs[k]| == sh.EntrySize()
  }

  predicate ModulesFit(sh: Shape, modules: seq<ModuleRecord>) {
    && |modules| <= 0xFFFF
    && forall k :: 0 <= k < |modules| ==> |modules[k].head| == sh.ModuleSize() - 2 && SubsFit(sh, modules[k].subs)
  }

  predicate ApisFit(sh: Shape, apis: seq<ApiRecord>) {
    |apis| <= 0xFFFF && forall k :: 0 <= k < |apis| ==> |apis[k].api| == 4 && ModulesFit(sh, apis[k].modules)
  }

  function SubsBytes(subs: seq<bytes>): bytes {
    if subs == [] then [] else subs[0] + SubsBytes(subs[1..])
  }

  function ModuleBytes(m: ModuleRecord): bytes {
    m.head + Be16(AsU16(|m.subs|)) + SubsBytes(m.subs)
  }

  function ModulesBytes(modules: seq<ModuleRecord>): bytes {
    if modules == [] then [] else ModuleBytes(modules[0]) + ModulesBytes(modules[1..])
  }

  function ApiBytes(a: ApiRecord): bytes {
    a.api + Be16(AsU16(|a.modules|)) + ModulesBytes(a.modules)
  }

  function ApisBytes(apis: seq<ApiRecord>): bytes {
    if apis == [] then [] else ApiBytes(apis[0]) + ApisBytes(apis[1..])
  }

  function SubEntries(api: bytes, head: bytes, subs: seq<bytes>): seq<Entry> {
    if subs == [] then [] else [Entry(api, head, subs[0])] + SubEntries(api, head, subs[1..])
  }

  function ModuleEntries(api: bytes, modules: seq<ModuleRecord>): seq<Entry> {
    if modules == [] then [] else SubEntries(api, modules[0].head, modules[0].subs) + ModuleEntries(api, modules[1..])
  }

  /** Every submodule once, under its module and API, in order. */
  function ApiEntries(apis: seq<ApiRecord>): seq<Entry> {
    if apis == [] then [] else ModuleEntries(apis[0].api, apis[0].modules) + ApiEntries(apis[1..])
  }

  lemma {:induction false} FirstSub(subs: seq<bytes>)
    ensures SubsBytes(subs) == if subs == [] then [] else subs[0] + SubsBytes(subs[1..])
  {}

  lemma {:induction false} SubWalkRecovers(sh: Shape, api: bytes, head: bytes, pre: bytes, subs: seq<bytes>, post: bytes)
    requires SubsFit(sh, subs)
    ensures SubWalk(sh, api, head, pre + SubsBytes(subs) + post, |pre|, |subs|)
            == (SubEntries(api, head, subs), |pre| + |SubsBytes(subs)|)
    decreases |subs|
  {
    hide SubWalk, SubsBytes;
    var b := pre + SubsBytes(subs) + post;
    SubWalkStep(sh, api, head, b, |pre|, |subs|, []);
    FirstSub(subs);
    var es := SubWalk(sh, api, head, b, |pre|, |subs|).0;
    assert [] + es == es;
    if subs != [] {
      assert b == (pre + subs[0]) + SubsBytes(subs[1..]) + post;
      assert b[|pre|..|pre| + sh.EntrySize()] == subs[0];
      assert [] + [Entry(api, head, subs[0])] == [Entry(api, head, subs[0])];
      SubWalkRecovers(sh, api, head, pre + subs[0], subs[1..], post);
    }
  }

  /** Where the parts of a counted record lie: head, count, then what is counted. */
  lemma CountedAt(pre: bytes, head: bytes, count: u16, items: bytes, post: bytes)
    ensures var b := pre + (head + Be16(count) + items) + post;
            var at := |pre| + |head|;
            && b[|pre|..at] == head && U16At(b, at) == count && b == (pre + head + Be16(count)) + items + post
  {
    hide Be16, U16At;
    var b := pre + (head + Be16(count) + items) + post;
    assert b == (pre + head) + Be16(count) + (items + post);
    Read16(b, pre + head, count, items + post);
  }

  lemma Be16Size(v: u16)
    ensures |Be16(v)| == 2
  {}

  lemma ModuleBytesOf(m: ModuleRecord)
    requires |m.subs| <= 0xFFFF
    ensures ModuleBytes(m) == m.head + Be16(|m.subs|) + SubsBytes(m.subs)
  {
    hide Be16, SubsBytes;
  }

  lemma ApiBytesOf(a: ApiRecord)
    requires |a.modules| <= 0xFFFF
    ensures ApiBytes(a) == a.api + Be16(|a.modules|) + ModulesBytes(a.modules)
  {
    hide Be16, ModulesBytes;
  }

  lemma ModuleAt(pre: bytes, m: ModuleRecord, post: bytes)
    requires |m.subs| <= 0xFFFF
    ensures var b, at := pre + ModuleBytes(m) + post, |pre| + |m.head|;
            && b[|pre|..at] == m.head && U16At(b, at) == |m.subs|
            && b == (pre + m.head + Be16(|m.subs|)) + SubsBytes(m.subs) + post
            && |pre + m.head + Be16(|m.subs|)| == at + 2
            && |pre + ModuleBytes(m)| == at + 2 + |SubsBytes(m.subs)|
  {
    hide *;
    ModuleBytesOf(m);
    Be16Size(|m.subs|);
    CountedAt(pre, m.head, |m.subs|, SubsBytes(m.subs), post);
  }

  lemma ApiAt(pre: bytes, a: ApiRecord, post: bytes)
    requires |a.api| == 4 && |a.modules| <= 0xFFFF
    ensures var b, at := pre + ApiBytes(a) + post, |pre| + 4;
            && b[|pre|..at] == a.api && U16At(b, at) == |a.modules|
            && b == (pre + a.api + Be16(|a.modules|)) + ModulesBytes(a.modules) + post
            && |pre + a.api + Be16(|a.modules|)| == at + 2
            && |pre + ApiBytes(a)| == at + 2 + |ModulesBytes(a.modules)|
  {
    hide *;
    ApiBytesOf(a);
    Be16Size(|a.modules|);
    CountedAt(pre, a.api, |a.modules|, ModulesBytes(a.modules), post);
  }

  // One record at a time: what the recursive definitions say about the first.

  lemma {:induction false} FirstModule(sh: Shape, modules: seq<ModuleRecord>, api: bytes, pre: bytes, post: bytes)
    requires modules != [] && ModulesFit(sh, modules)
    ensures var m, rest := modules[0], modules[1..];
            && |m.head| == sh.ModuleSize() - 2 && SubsFit(sh, m.subs) && |m.subs| <= 0xFFFF && ModulesFit(sh, rest)
            && pre + ModulesBytes(modules) + post == pre + ModuleBytes(m) + (ModulesBytes(rest) + post)
            && pre + ModulesBytes(modules) + post == (pre + ModuleBytes(m)) + ModulesBytes(rest) + post
            && |pre| + |ModulesBytes(modules)| == |pre + ModuleBytes(m)| + |ModulesBytes(rest)|
            && ModuleEntries(api, modules) == SubEntries(api, m.head, m.subs) + ModuleEntries(api, rest)
            && [m] + rest == modules
  {
    hide ModuleBytes, SubEntries;
  }

  lemma {:induction false} FirstApi(sh: Shape, apis: seq<ApiRecord>, pre: bytes, post: bytes)
    requires apis != [] && ApisFit(sh, apis)
    ensures var a, rest := apis[0], apis[1..];
            && |a.api| == 4 && ModulesFit(sh, a.modules) && |a.modules| <= 0xFFFF && ApisFit(sh, rest)
            && pre + ApisBytes(apis) + post == pre + ApiBytes(a) + (ApisBytes(rest) + post)
            && pre + ApisBytes(apis) + post == (pre + ApiBytes(a)) + ApisBytes(rest) + post
            && |pre| + |ApisBytes(apis)| == |pre + ApiBytes(a)| + |ApisBytes(rest)|
            && ApiEntries(apis) == ModuleEntries(a.api, a.modules) + ApiEntries(rest)
            && [a] + rest == apis
  {
    hide ApiBytes, ModuleEntries;
    FitCount(sh, apis[0].modules);
  }

  lemma {:induction false} NoRecords(sh: Shape, api: bytes, b: bytes, p: nat)
    ensures ModulesBytes([]) == [] && ApisBytes([]) == [] && ModuleEntries(api, []) == [] && ApiEntries([]) == []
    ensures ModuleWalk(sh, api, b, p, 0) == ([], p) && ApiWalk(sh, b, p, 0) == ([], p)
    ensures StrictModules(sh, b, p, 0) == Some(([], p)) && StrictApis(sh, b, p, 0) == Some(([], p))
  {}

  lemma {:induction false} ModuleWalkTurn(sh: Shape, api: bytes, b: bytes, p: nat, n: nat)
    requires n > 0 && p + sh.ModuleSize() <= |b|
    ensures var h := sh.ModuleSize();
            var (subs, at) := SubWalk(sh, api, b[p..p + h - 2], b, p + h, U16At(b, p + h - 2));
            var (rest, end) := ModuleWalk(sh, api, b, at, n - 1);
            ModuleWalk(sh, api, b, p, n) == (subs + rest, end)
  {}

  lemma {:induction false} ApiWalkTurn(sh: Shape, b: bytes, p: nat, n: nat)
    requires n > 0 && p + 6 <= |b|
    ensures var (modules, at) := ModuleWalk(sh, b[p..p + 4], b, p + 6, U16At(b, p + 4));
            var (rest, end) := ApiWalk(sh, b, at, n - 1);
            ApiWalk(sh, b, p, n) == (modules + rest, end)
  {}

  lemma SizeOfModule(sh: Shape)
    ensures 8 <= sh.ModuleSize() <= 10
  {}

  lemma {:induction false} ModuleWalkRecovers(sh: Shape, api: bytes, pre: bytes, modules: seq<ModuleRecord>, post: bytes)
    requires ModulesFit(sh, modules)
    ensures ModuleWalk(sh, api, pre + ModulesBytes(modules) + post, |pre|, |modules|)
            == (ModuleEntries(api, modules), |pre| + |ModulesBytes(modules)|)
    decreases |modules|
  {
    hide *;
    var b := pre + ModulesBytes(modules) + post;
    if modules == [] {
      NoRecords(sh, api, b, |pre|);
    } else {
      var m, h := modules[0], sh.ModuleSize();
      FirstModule(sh, modules, api, pre, post);
      ModuleAt(pre, m, ModulesBytes(modules[1..]) + post);
      SizeOfModule(sh);
      SubWalkRecovers(sh, api, m.head, pre + m.head + Be16(|m.subs|), m.subs, ModulesBytes(modules[1..]) + post);
      ModuleWalkRecovers(sh, api, pre + ModuleBytes(m), modules[1..], post);
      ModuleWalkTurn(sh, api, b, |pre|, |modules|);
    }
  }

  /** The entries of well-formed records have the sizes of the shape. */
  lemma {:induction false} EntriesAreWhole(sh: Shape, apis: seq<ApiRecord>)
    requires ApisFit(sh, apis)
    ensures forall e :: e in ApiEntries(apis) ==> |e.api| == 4 && |e.head| == sh.ModuleSize() - 2 && |e.sub| == sh.EntrySize()
  {
    hide ModuleEntries;
    if apis != [] {
      ModuleEntriesAreWhole(sh, apis[0].api, apis[0].modules);
      EntriesAreWhole(sh, apis[1..]);
    }
  }

  lemma {:induction false} ModuleEntriesAreWhole(sh: Shape, api: bytes, modules: seq<ModuleRecord>)
    requires ModulesFit(sh, modules)
    ensures forall e :: e in ModuleEntries(api, modules) ==> e.api == api && |e.head| == sh.ModuleSize() - 2 && |e.sub| == sh.EntrySize()
  {
    hide SubEntries;
    if modules != [] {
      SubEntriesAreWhole(sh, api, modules[0].head, modules[0].subs);
      ModuleEntriesAreWhole(sh, api, modules[1..]);
    }
  }

  lemma {:induction false} SubEntriesAreWhole(sh: Shape, api: bytes, head: bytes, subs: seq<bytes>)
    requires SubsFit(sh, subs)
    ensures forall e :: e in SubEntries(api, head, subs) ==> e.api == api && e.head == head && |e.sub| == sh.EntrySize()
  {
    if subs != [] {
      SubEntriesAreWhole(sh, api, head, subs[1..]);
    }
  }

  /** A tolerant walk over well-formed records finds every submodule, each under its own module and API,
      and stops right behind them, whatever surrounds the records. */
  lemma {:induction false} ApiWalkRecovers(sh: Shape, pre: bytes, apis: seq<ApiRecord>, post: bytes)
    requires ApisFit(sh, apis)
    ensures ApiWalk(sh, pre + ApisBytes(apis) + post, |pre|, |apis|) == (ApiEntries(apis), |pre| + |ApisBytes(apis)|)
    decreases |apis|
  {
    hide *;
    var b := pre + ApisBytes(apis) + post;
    if apis == [] {
      NoRecords(sh, [], b, |pre|);
    } else {
      var a := apis[0];
      FirstApi(sh, apis, pre, post);
      ApiAt(pre, a, ApisBytes(apis[1..]) + post);
      ModuleWalkRecovers(sh, a.api, pre + a.api + Be16(|a.modules|), a.modules, ApisBytes(apis[1..]) + post);
      ApiWalkRecovers(sh, pre + ApiBytes(a), apis[1..], post);
      ApiWalkTurn(sh, b, |pre|, |apis|);
    }
  }

  lemma FitCount(sh: Shape, modules: seq<ModuleRecord>)
    requires ModulesFit(sh, modules)
    ensures |modules| <= 0xFFFF
  {}

  // -------------------------------------------------------------------------
  // The strict walk
  // -------------------------------------------------------------------------

  function StrictSubs(sh: Shape, b: bytes, p: nat, n: nat): Option<(seq<bytes>, nat)>
    decreases n
  {
    if n == 0 then Some(([], p))
    else if p + sh.EntrySize() > |b| then None
    else
      match StrictSubs(sh, b, p + sh.EntrySize(), n - 1)
      case None => None
      case Some((rest, end)) => Some(([b[p..p + sh.EntrySize()]] + rest, end))
  }

  function StrictModules(sh: Shape, b: bytes, p: nat, n: nat): Option<(seq<ModuleRecord>, nat)>
    decreases n
  {
    var h := sh.ModuleSize();
    if n == 0 then Some(([], p))
    else if p + h > |b| then None
    else
      match StrictSubs(sh, b, p + h, U16At(b, p + h - 2))
      case None => None
      case Some((subs, at)) =>
        match StrictModules(sh, b, at, n - 1)
        case None => None
        case Some((rest, end)) => Some(([ModuleRecord(b[p..p + h - 2], subs)] + rest, end))
  }

  function StrictApis(sh: Shape, b: bytes, p: nat, n: nat): Option<(seq<ApiRecord>, nat)>
    decreases n
  {
    if n == 0 then Some(([], p))
    else if p + API_SIZE > |b| then None
    else
      match StrictModules(sh, b, p + API_SIZE, U16At(b, p + 4))
      case None => None
      case Some((modules, at)) =>
        match StrictApis(sh, b, at, n - 1)
        case None => None
        case Some((rest, end)) => Some(([ApiRecord(b[p..p + 4], modules)] + rest, end))
  }

  lemma {:induction false} StrictSubsTurn(sh: Shape, b: bytes, p: nat, n: nat)
    ensures var s, r := sh.EntrySize(), StrictSubs(sh, b, p, n);
            if n == 0 then r == Some(([], p))
            else if p + s > |b| then r == None
            else
              match StrictSubs(sh, b, p + s, n - 1)
              case None => r == None
              case Some((rest, end)) => r == Some(([b[p..p + s]] + rest, end))
  {}

  lemma NoSubs(sh: Shape, b: bytes, p: nat)
    requires p <= |b|
    ensures SubsFit(sh, []) && SubsBytes([]) == [] == b[p..p]
  {}

  lemma {:induction false} OneMoreSub(sh: Shape, s: bytes, rest: seq<bytes>)
    requires |s| == sh.EntrySize() && SubsFit(sh, rest) && |rest| < 0xFFFF
    ensures SubsFit(sh, [s] + rest) && SubsBytes([s] + rest) == s + SubsBytes(rest)
  {
    assert ([s] + rest)[1..] == rest;
  }

  lemma {:induction false} StrictSubsSound(sh: Shape, b: bytes, p: nat, n: nat)
    requires p <= |b| && n <= 0xFFFF && StrictSubs(sh, b, p, n).Some?
    ensures var (subs, end) := StrictSubs(sh, b, p, n).value;
            SubsFit(sh, subs) && |subs| == n && p <= end <= |b| && b[p..end] == SubsBytes(subs)
    decreases n
  {
    hide *;
    StrictSubsTurn(sh, b, p, n);
    if n == 0 {
      NoSubs(sh, b, p);
    } else {
      var s := sh.EntrySize();
      StrictSubsSound(sh, b, p + s, n - 1);
      var (rest, end) := StrictSubs(sh, b, p + s, n - 1).value;
      assert b[p..end] == b[p..p + s] + b[p + s..end];
      OneMoreSub(sh, b[p..p + s], rest);
    }
  }

  lemma {:induction false} StrictModulesTurn(sh: Shape, b: bytes, p: nat, n: nat)
    requires n > 0
    ensures var h, r := sh.ModuleSize(), StrictModules(sh, b, p, n);
            if p + h > |b| then r == None
            else
              match StrictSubs(sh, b, p + h, U16At(b, p + h - 2))
              case None => r == None
              case Some((subs, at)) =>
                match StrictModules(sh, b, at, n - 1)
                case None => r == None
                case Some((rest, end)) => r == Some(([ModuleRecord(b[p..p + h - 2], subs)] + rest, end))
  {}

  lemma {:induction false} StrictApisTurn(sh: Shape, b: bytes, p: nat, n: nat)
    requires n > 0
    ensures var r := StrictApis(sh, b, p, n);
            if p + 6 > |b| then r == None
            else
              match StrictModules(sh, b, p + 6, U16At(b, p + 4))
              case None => r == None
              case Some((modules, at)) =>
                match StrictApis(sh, b, at, n - 1)
                case None => r == None
                case Some((rest, end)) => r == Some(([ApiRecord(b[p..p + 4], modules)] + rest, end))
  {}

  /** A record in front of a well-formed list makes a well-formed list. */
  lemma {:induction false} OneMoreModule(sh: Shape, m: ModuleRecord, rest: seq<ModuleRecord>)
    requires |m.head| == sh.ModuleSize() - 2 && SubsFit(sh, m.subs) && ModulesFit(sh, rest) && |rest| < 0xFFFF
    ensures ModulesFit(sh, [m] + rest) && ModulesBytes([m] + rest) == ModuleBytes(m) + ModulesBytes(rest)
  {
    hide ModuleBytes, SubsFit;
    assert ([m] + rest)[1..] == rest;
  }

  lemma {:induction false} OneMoreApi(sh: Shape, a: ApiRecord, rest: seq<ApiRecord>)
    requires |a.api| == 4 && ModulesFit(sh, a.modules) && ApisFit(sh, rest) && |rest| < 0xFFFF
    ensures ApisFit(sh, [a] + rest) && ApisBytes([a] + rest) == ApiBytes(a) + ApisBytes(rest)
  {
    hide ApiBytes, ModulesFit;
    assert ([a] + rest)[1..] == rest;
  }

  lemma ModuleSlice(b: bytes, p: nat, head: nat, at: nat, subs: seq<bytes>)
    requires p + head + 2 <= at <= |b| && |subs| == U16At(b, p + head) && b[p + head + 2..at] == SubsBytes(subs)
    ensures b[p..at] == ModuleBytes(ModuleRecord(b[p..p + head], subs))
  {
    hide *;
    ModuleBytesOf(ModuleRecord(b[p..p + head], subs));
    CountedSlice(b, p, head, at);
  }

  lemma ApiSlice(b: bytes, p: nat, at: nat, modules: seq<ModuleRecord>)
    requires p + 6 <= at <= |b| && |modules| == U16At(b, p + 4) && b[p + 6..at] == ModulesBytes(modules)
    ensures b[p..at] == ApiBytes(ApiRecord(b[p..p + 4], modules))
  {
    hide *;
    ApiBytesOf(ApiRecord(b[p..p + 4], modules));
    CountedSlice(b, p, 4, at);
  }

  lemma NoModulesFit(sh: Shape)
    ensures ModulesFit(sh, []) && ApisFit(sh, [])
  {}

  lemma {:induction false} StrictModulesSound(sh: Shape, b: bytes, p: nat, n: nat)
    requires p <= |b| && n <= 0xFFFF && StrictModules(sh, b, p, n).Some?
    ensures var (modules, end) := StrictModules(sh, b, p, n).value;
            ModulesFit(sh, modules) && |modules| == n && p <= end <= |b| && b[p..end] == ModulesBytes(modules)
    decreases n
  {
    hide *;
    if n == 0 {
      NoRecords(sh, [], b, p);
      NoModulesFit(sh);
    } else {
      SizeOfModule(sh);
      StrictModulesTurn(sh, b, p, n);
      var h := sh.ModuleSize();
      StrictSubsSound(sh, b, p + h, U16At(b, p + h - 2));
      var (subs, at) := StrictSubs(sh, b, p + h, U16At(b, p + h - 2)).value;
      StrictModulesSound(sh, b, at, n - 1);
      var (rest, end) := StrictModules(sh, b, at, n - 1).value;
      ModuleSlice(b, p, h - 2, at, subs);
      OneMoreModule(sh, ModuleRecord(b[p..p + h - 2], subs), rest);
      assert b[p..end] == b[p..at] + b[at..end];
    }
  }

  lemma SubsFitCount(sh: Shape, subs: seq<bytes>)
    requires SubsFit(sh, subs)
    ensures |subs| <= 0xFFFF
  {}

  lemma CountedSlice(b: bytes, p: nat, head: nat, end: nat)
    requires p + head + 2 <= end <= |b|
    ensures b[p..end] == b[p..p + head] + Be16(U16At(b, p + head)) + b[p + head + 2..end]
  {
    FieldIsBytes16(b, p + head);
  }

  lemma {:induction false} StrictApisSound(sh: Shape, b: bytes, p: nat, n: nat)
    requires p <= |b| && n <= 0xFFFF && StrictApis(sh, b, p, n).Some?
    ensures var (apis, end) := StrictApis(sh, b, p, n).value;
            ApisFit(sh, apis) && |apis| == n && p <= end <= |b| && b[p..end] == ApisBytes(apis)
    decreases n
  {
    hide *;
    if n == 0 {
      NoRecords(sh, [], b, p);
      NoModulesFit(sh);
    } else {
      StrictApisTurn(sh, b, p, n);
      StrictModulesSound(sh, b, p + 6, U16At(b, p + 4));
      var (modules, at) := StrictModules(sh, b, p + 6, U16At(b, p + 4)).value;
      StrictApisSound(sh, b, at, n - 1);
      var (rest, end) := StrictApis(sh, b, at, n - 1).value;
      ApiSlice(b, p, at, modules);
      OneMoreApi(sh, ApiRecord(b[p..p + 4], modules), rest);
      assert b[p..end] == b[p..at] + b[at..end];
    }
  }

  lemma {:induction false} StrictSubsComplete(sh: Shape, pre: bytes, subs: seq<bytes>, post: bytes)
    requires SubsFit(sh, subs)
    ensures StrictSubs(sh, pre + SubsBytes(subs) + post, |pre|, |subs|) == Some((subs, |pre| + |SubsBytes(subs)|))
    decreases |subs|
  {
    if subs != [] {
      var b := pre + SubsBytes(subs) + post;
      assert b == (pre + subs[0]) + SubsBytes(subs[1..]) + post;
      assert b[|pre|..|pre| + sh.EntrySize()] == subs[0];
      StrictSubsComplete(sh, pre + subs[0], subs[1..], post);
      assert [subs[0]] + subs[1..] == subs;
    }
  }

  lemma {:induction false} StrictModulesComplete(sh: Shape, pre: bytes, modules: seq<ModuleRecord>, post: bytes)
    requires ModulesFit(sh, modules)
    ensures StrictModules(sh, pre + ModulesBytes(modules) + post, |pre|, |modules|)
            == Some((modules, |pre| + |ModulesBytes(modules)|))
    decreases |modules|
  {
    hide *;
    var b := pre + ModulesBytes(modules) + post;
    if modules == [] {
      NoRecords(sh, [], b, |pre|);
    } else {
      var m := modules[0];
      FirstModule(sh, modules, [], pre, post);
      ModuleAt(pre, m, ModulesBytes(modules[1..]) + post);
      SizeOfModule(sh);
      StrictSubsComplete(sh, pre + m.head + Be16(|m.subs|), m.subs, ModulesBytes(modules[1..]) + post);
      StrictModulesComplete(sh, pre + ModuleBytes(m), modules[1..], post);
      StrictModulesTurn(sh, b, |pre|, |modules|);
    }
  }

  /** The strict walk accepts every well-formed record and returns it. */
  lemma {:induction false} StrictApisComplete(sh: Shape, pre: bytes, apis: seq<ApiRecord>, post: bytes)
    requires ApisFit(sh, apis)
    ensures StrictApis(sh, pre + ApisBytes(apis) + post, |pre|, |apis|) == Some((apis, |pre| + |ApisBytes(apis)|))
    decreases |apis|
  {
    hide *;
    var b := pre + ApisBytes(apis) + post;
    if apis == [] {
      NoRecords(sh, [], b, |pre|);
    } else {
      var a := apis[0];
      FirstApi(sh, apis, pre, post);
      ApiAt(pre, a, ApisBytes(apis[1..]) + post);
      StrictModulesComplete(sh, pre + a.api + Be16(|a.modules|), a.modules, ApisBytes(apis[1..]) + post);
      StrictApisComplete(sh, pre + ApiBytes(a), apis[1..], post);
      StrictApisTurn(sh, b, |pre|, |apis|);
    }
  }

  /** Where the strict walk succeeds, the tolerant one finds the same submodules and stops at the same
      place, also when it reads the record behind something else. */
  lemma StrictAndTolerantAgree(sh: Shape, pre: bytes, b: bytes, p: nat, n: nat)
    requires p <= |b| && n <= 0xFFFF && StrictApis(sh, b, p, n).Some?
    ensures var (apis, end) := StrictApis(sh, b, p, n).value;
            ApiWalk(sh, pre + b, |pre| + p, n) == (ApiEntries(apis), |pre| + end)
  {
    hide *;
    StrictApisSound(sh, b, p, n);
    var (apis, end) := StrictApis(sh, b, p, n).value;
    assert pre + b == (pre + b[..p]) + b[p..end] + b[end..];
    ApiWalkRecovers(sh, pre + b[..p], apis, b[end..]);
  }
}
