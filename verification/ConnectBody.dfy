/** The ExpectedSubmodule block and the whole Connect body (src/connect.rs), and what a device that
    walks the blocks by their lengths finds in them. */
module ConnectBody {
  import opened Bytes
  import opened Wrappers
  import opened Ethernet
  import opened Rt
  import opened Connect

  // -------------------------------------------------------------------------
  // ExpectedSubmoduleBlockReq
  // -------------------------------------------------------------------------

  /** 0 is NO_IO, 1 INPUT, 2 OUTPUT, 3 INPUT_OUTPUT. */
  function SubmoduleType(s: IoSlot): u16 {
    if s.inputLength > 0 then (if s.outputLength > 0 then 3 else 1) else if s.outputLength > 0 then 2 else 0
  }

  /** Data description: type, length, one consumer and one provider status byte. */
  function DataDescription(kind: u16, len: u16): (r: bytes)
    ensures |r| == 6
  {
    Be16(kind) + Be16(len) + [1, 1]
  }

  function SubmoduleHead(s: IoSlot): (r: bytes)
    ensures |r| == 8
  {
    Be16(s.subslot) + Be32(s.submoduleIdent) + Be16(SubmoduleType(s))
  }

  function SubmoduleBytes(s: IoSlot): bytes {
    SubmoduleHead(s)
    + (if SubmoduleType(s) != 2 then DataDescription(1, AsU16(s.inputLength)) else [])
    + (if SubmoduleType(s) >= 2 then DataDescription(2, AsU16(s.outputLength)) else [])
  }

  function MembersBytes(members: seq<IoSlot>): bytes {
    if members == [] then [] else MembersBytes(members[..|members| - 1]) + SubmoduleBytes(members[|members| - 1])
  }

  /** One API entry: a slot, the module ident of its first submodule, and its submodules. */
  datatype Group = Group(slot: u16, moduleIdent: u32, members: seq<IoSlot>)

  /** Index of the entry of a slot, or the length if there is none. */
  function Position(groups: seq<Group>, slot: u16): (r: nat)
    ensures r <= |groups|
    ensures r < |groups| ==> groups[r].slot == slot
    ensures forall k :: 0 <= k < r ==> groups[k].slot != slot
  {
    if groups == [] || groups[0].slot == slot then 0 else 1 + Position(groups[1..], slot)
  }

  function AddMember(groups: seq<Group>, s: IoSlot): seq<Group> {
    var at := Position(groups, s.slot);
    if at < |groups| then groups[at := groups[at].(members := groups[at].members + [s])]
    else groups + [Group(s.slot, s.moduleIdent, [s])]
  }

  function Groups(slots: seq<IoSlot>): seq<Group> {
    if slots == [] then [] else AddMember(Groups(slots[..|slots| - 1]), slots[|slots| - 1])
  }

  function GroupBytes(g: Group): bytes {
    Be32(0) + Be16(g.slot) + Be32(g.moduleIdent) + Be16(0) + Be16(AsU16(|g.members|)) + MembersBytes(g.members)
  }

  function GroupsBytes(groups: seq<Group>): bytes {
    if groups == [] then [] else GroupsBytes(groups[..|groups| - 1]) + GroupBytes(groups[|groups| - 1])
  }

  function ExpectedBody(slots: seq<IoSlot>): bytes {
    Be16(AsU16(|Groups(slots)|)) + GroupsBytes(Groups(slots))
  }

  function ExpectedBlock(slots: seq<IoSlot>): bytes {
    BlockHeader(BLOCK_EXPECTED_SUBMODULE, AsU16(|ExpectedBody(slots)| + 2)) + ExpectedBody(slots)
  }

  /** An API entry while it is filled: the submodules already encoded, and their count. */
  datatype ApiEntry = ApiEntry(slot: u16, moduleIdent: u32, submodules: bytes, count: u16)

  function EntryOf(g: Group): ApiEntry {
    ApiEntry(g.slot, g.moduleIdent, MembersBytes(g.members), AsU16(|g.members|))
  }

  ghost predicate Encodes(apis: seq<ApiEntry>, groups: seq<Group>) {
    |apis| == |groups| && forall k :: 0 <= k < |apis| ==> apis[k] == EntryOf(groups[k])
  }

  method FindApi(apis: seq<ApiEntry>, slot: u16, ghost groups: seq<Group>) returns (idx: nat)
    requires Encodes(apis, groups)
    ensures idx == Position(groups, slot)
  {
    hide MembersBytes;
    idx := 0;
    while idx < |apis| && apis[idx].slot != slot
      invariant idx <= |apis|
      invariant forall k :: 0 <= k < idx ==> groups[k].slot != slot
    {
      idx := idx + 1;
    }
  }

  /** Encode a submodule into the entry of its slot, which is added if it is new. */
  method AddToEntry(apis: seq<ApiEntry>, s: IoSlot, ghost groups: seq<Group>) returns (r: seq<ApiEntry>)
    requires Encodes(apis, groups)
    ensures Encodes(r, AddMember(groups, s))
  {
    hide SubmoduleBytes, MembersBytes, Position;
    var idx := FindApi(apis, s.slot, groups);
    r := apis;
    if idx == |apis| {
      r := r + [ApiEntry(s.slot, s.moduleIdent, [], 0)];
      FirstMember(s);
    } else {
      NextMember(groups[idx].members, s);
    }
    r := r[idx := r[idx].(submodules := r[idx].submodules + SubmoduleBytes(s), count := AsU16(r[idx].count + 1))];
  }

  method ExpectedSubmoduleBlock(slots: seq<IoSlot>) returns (out: bytes)
    ensures out == ExpectedBlock(slots)
  {
    hide EntryOf, GroupsBytes, BlockHeader, AddMember, Be16;
    var apis: seq<ApiEntry> := [];
    for i := 0 to |slots|
      invariant Encodes(apis, Groups(slots[..i]))
    {
      assert slots[..i + 1][..i] == slots[..i];
      apis := AddToEntry(apis, slots[i], Groups(slots[..i]));
    }
    assert slots[..|slots|] == slots;
    var content := JoinEntries(apis, Groups(slots));
    var body := Be16(AsU16(|apis|)) + content;
    out := BlockHeader(BLOCK_EXPECTED_SUBMODULE, AsU16(|body| + 2)) + body;
  }

  method JoinEntries(apis: seq<ApiEntry>, ghost groups: seq<Group>) returns (content: bytes)
    requires Encodes(apis, groups)
    ensures content == GroupsBytes(groups)
  {
    hide EntryOf, GroupBytes, Be16, Be32;
    content := [];
    for i := 0 to |apis|
      invariant content == GroupsBytes(groups[..i])
    {
      assert groups[..i + 1][..i] == groups[..i];
      var api := apis[i];
      GroupBytesOfEntry(groups[i]);
      content := content + (Be32(0) + Be16(api.slot) + Be32(api.moduleIdent) + Be16(0) + Be16(api.count) + api.submodules);
    }
    assert groups[..|groups|] == groups;
  }

  lemma FirstMember(s: IoSlot)
    ensures MembersBytes([s]) == [] + SubmoduleBytes(s)
  {
    assert [s][..0] == [];
  }

  lemma NextMember(members: seq<IoSlot>, s: IoSlot)
    ensures MembersBytes(members + [s]) == MembersBytes(members) + SubmoduleBytes(s)
  {
    assert (members + [s])[..|members|] == members;
  }

  lemma GroupBytesOfEntry(g: Group)
    ensures var api := EntryOf(g);
            GroupBytes(g) == Be32(0) + Be16(api.slot) + Be32(api.moduleIdent) + Be16(0) + Be16(api.count) + api.submodules
  {}

  // -------------------------------------------------------------------------
  // What the groups are
  // -------------------------------------------------------------------------

  /** The submodules of a list that stand in a slot, in list order. */
  function InSlot(slots: seq<IoSlot>, slot: u16): seq<IoSlot> {
    if slots == [] then []
    else InSlot(slots[..|slots| - 1], slot) + if slots[|slots| - 1].slot == slot then [slots[|slots| - 1]] else []
  }

  /** The slots of a list in first-seen order. */
  function FirstSeen(slots: seq<IoSlot>): seq<u16> {
    if slots == [] then []
    else
      var before, slot := FirstSeen(slots[..|slots| - 1]), slots[|slots| - 1].slot;
      if slot in before then before else before + [slot]
  }

  function SumMembers(groups: seq<Group>): nat {
    if groups == [] then 0 else SumMembers(groups[..|groups| - 1]) + |groups[|groups| - 1].members|
  }

  /** The groups of a list: one per slot, in first-seen order, each with the submodules of its slot. */
  predicate IsGroup(g: Group, slots: seq<IoSlot>) {
    g.members == InSlot(slots, g.slot) && g.members != [] && g.moduleIdent == g.members[0].moduleIdent
  }

  ghost predicate GroupsOf(groups: seq<Group>, slots: seq<IoSlot>) {
    && |groups| == |FirstSeen(slots)| <= |slots|
    && (forall k :: 0 <= k < |groups| ==> groups[k].slot == FirstSeen(slots)[k] && IsGroup(groups[k], slots))
    && (forall j, k :: 0 <= j < k < |groups| ==> groups[j].slot != groups[k].slot)
    && (forall slot: u16 :: slot !in FirstSeen(slots) ==> InSlot(slots, slot) == [])
    && SumMembers(groups) == |slots|
  }

  /** Each submodule once, under its slot, in order; slots in first-seen order; the module ident is
      that of the first submodule of the slot; counts sum to the length of the list. */
  lemma {:induction false} GroupsAreSlots(slots: seq<IoSlot>)
    ensures GroupsOf(Groups(slots), slots)
  {
    hide GroupsOf, AddMember;
    if slots == [] {
      NoGroups();
    } else {
      var init, s := slots[..|slots| - 1], slots[|slots| - 1];
      GroupsAreSlots(init);
      assert slots == init + [s];
      if Position(Groups(init), s.slot) < |Groups(init)| {
        KnownSlot(init, Groups(init), s);
      } else {
        NewSlot(init, Groups(init), s);
      }
    }
  }

  lemma NoGroups()
    ensures GroupsOf([], [])
  {}

  lemma ListsAppend(slots: seq<IoSlot>, s: IoSlot)
    ensures FirstSeen(slots + [s]) == if s.slot in FirstSeen(slots) then FirstSeen(slots) else FirstSeen(slots) + [s.slot]
    ensures forall x: u16 :: InSlot(slots + [s], x) == if s.slot == x then InSlot(slots, x) + [s] else InSlot(slots, x)
  {
    assert (slots + [s])[..|slots|] == slots;
  }

  lemma KnownSlot(slots: seq<IoSlot>, groups: seq<Group>, s: IoSlot)
    requires GroupsOf(groups, slots) && Position(groups, s.slot) < |groups|
    ensures GroupsOf(AddMember(groups, s), slots + [s])
  {
    hide FirstSeen, InSlot, SumMembers, IsGroup;
    var at := Position(groups, s.slot);
    ListsAppend(slots, s);
    assert FirstSeen(slots)[at] == s.slot;
    var g := groups[at].(members := groups[at].members + [s]);
    forall k | 0 <= k < |groups| && k != at
      ensures IsGroup(groups[k], slots + [s])
    {
      OtherGroup(groups[k], slots, s);
    }
    assert IsGroup(g, slots + [s]) by { hide *; NextOfGroup(groups[at], slots, s); }
    SumMembersUpdate(groups, at, g);
  }

  lemma NextOfGroup(g: Group, slots: seq<IoSlot>, s: IoSlot)
    requires IsGroup(g, slots) && g.slot == s.slot
    ensures IsGroup(g.(members := g.members + [s]), slots + [s])
  {
    ListsAppend(slots, s);
  }

  lemma NewSlot(slots: seq<IoSlot>, groups: seq<Group>, s: IoSlot)
    requires GroupsOf(groups, slots) && Position(groups, s.slot) == |groups|
    ensures GroupsOf(AddMember(groups, s), slots + [s])
  {
    hide FirstSeen, InSlot, SumMembers, Position, IsGroup;
    ListsAppend(slots, s);
    var g := Group(s.slot, s.moduleIdent, [s]);
    assert AddMember(groups, s) == groups + [g];
    assert s.slot !in FirstSeen(slots) by {
      assert forall k :: 0 <= k < |groups| ==> FirstSeen(slots)[k] == groups[k].slot != s.slot;
    }
    assert InSlot(slots, s.slot) == [];
    forall k | 0 <= k < |groups|
      ensures IsGroup(groups[k], slots + [s])
    {
      OtherGroup(groups[k], slots, s);
    }
    assert IsGroup(g, slots + [s]) by { hide *; FirstOfGroup(slots, s); }
    SumMembersAppend(groups, g);
  }

  lemma OtherGroup(g: Group, slots: seq<IoSlot>, s: IoSlot)
    requires IsGroup(g, slots) && g.slot != s.slot
    ensures IsGroup(g, slots + [s])
  {
    ListsAppend(slots, s);
  }

  lemma FirstOfGroup(slots: seq<IoSlot>, s: IoSlot)
    requires InSlot(slots, s.slot) == []
    ensures IsGroup(Group(s.slot, s.moduleIdent, [s]), slots + [s])
  {
    ListsAppend(slots, s);
  }

  lemma SumMembersAppend(groups: seq<Group>, g: Group)
    ensures SumMembers(groups + [g]) == SumMembers(groups) + |g.members|
  {
    assert (groups + [g])[..|groups|] == groups;
  }

  lemma {:induction false} SumMembersUpdate(groups: seq<Group>, at: nat, g: Group)
    requires at < |groups|
    ensures SumMembers(groups[at := g]) == SumMembers(groups) - |groups[at].members| + |g.members|
  {
    var n := |groups| - 1;
    if at < n {
      SumMembersUpdate(groups[..n], at, g);
      assert groups[at := g][..n] == groups[..n][at := g];
    } else {
      assert groups[at := g][..n] == groups[..n];
    }
  }

  // -------------------------------------------------------------------------
  // What the device reads
  // -------------------------------------------------------------------------

  datatype Declared = Declared(subslot: u16, ident: u32, properties: u16, inputLength: u16, outputLength: u16)

  datatype DeclaredModule = DeclaredModule(slot: u16, moduleIdent: u32, submodules: seq<Declared>)

  /** One submodule at the head of `data` and the rest. */
  function ReadSubmodule(data: bytes): Option<(Declared, bytes)> {
    if |data| < 14 then None
    else
      var kind := U16At(data, 6);
      if kind == 3 then
        if |data| < 20 then None
        else Some((Declared(U16At(data, 0), U32At(data, 2), kind, U16At(data, 10), U16At(data, 16)), data[20..]))
      else
        var len := U16At(data, 10);
        Some((Declared(U16At(data, 0), U32At(data, 2), kind,
                       if U16At(data, 8) == 1 then len else 0, if U16At(data, 8) == 2 then len else 0), data[14..]))
  }

  function ReadSubmodules(data: bytes, n: nat): Option<(seq<Declared>, bytes)>
    decreases n
  {
    if n == 0 then Some(([], data))
    else
      match ReadSubmodule(data)
      case None => None
      case Some((first, rest)) =>
        match ReadSubmodules(rest, n - 1)
        case None => None
        case Some((more, rest')) => Some(([first] + more, rest'))
  }

  function ReadModule(data: bytes): Option<(DeclaredModule, bytes)> {
    if |data| < 14 then None
    else
      match ReadSubmodules(data[14..], U16At(data, 12))
      case None => None
      case Some((subs, rest)) => Some((DeclaredModule(U16At(data, 4), U32At(data, 6), subs), rest))
  }

  function ReadModules(data: bytes, n: nat): Option<(seq<DeclaredModule>, bytes)>
    decreases n
  {
    if n == 0 then Some(([], data))
    else
      match ReadModule(data)
      case None => None
      case Some((first, rest)) =>
        match ReadModules(rest, n - 1)
        case None => None
        case Some((more, rest')) => Some(([first] + more, rest'))
  }

  /** The modules an ExpectedSubmodule block declares, if it is exactly as long as its counts say. */
  function ReadExpectedBlock(block: bytes): Option<seq<DeclaredModule>> {
    if |block| < 8 then None
    else
      match ReadModules(block[8..], U16At(block, 6))
      case None => None
      case Some((modules, rest)) => if rest == [] then Some(modules) else None
  }

  function DeclarationOf(s: IoSlot): Declared {
    Declared(s.subslot, s.submoduleIdent, (if s.inputLength > 0 then 1 else 0) + (if s.outputLength > 0 then 2 else 0),
             AsU16(s.inputLength), AsU16(s.outputLength))
  }

  function DeclarationsOf(members: seq<IoSlot>): (r: seq<Declared>) {
    seq(|members|, k requires 0 <= k < |members| => DeclarationOf(members[k]))
  }

  function ModulesOf(groups: seq<Group>): (r: seq<DeclaredModule>) {
    seq(|groups|, k requires 0 <= k < |groups| =>
      DeclaredModule(groups[k].slot, groups[k].moduleIdent, DeclarationsOf(groups[k].members)))
  }

  lemma SubmoduleFields(s: IoSlot, post: bytes)
    ensures var b := SubmoduleBytes(s) + post;
            && |SubmoduleBytes(s)| == (if SubmoduleType(s) == 3 then 20 else 14)
            && U16At(b, 0) == s.subslot && U32At(b, 2) == s.submoduleIdent && U16At(b, 6) == SubmoduleType(s)
            && U16At(b, 8) == (if SubmoduleType(s) == 2 then 2 else 1)
            && U16At(b, 10) == (if SubmoduleType(s) == 2 then AsU16(s.outputLength) else AsU16(s.inputLength))
            && (SubmoduleType(s) == 3 ==> U16At(b, 16) == AsU16(s.outputLength))
  {
    hide DataDescription, U16At, U32At;
    var kind, head := SubmoduleType(s), SubmoduleHead(s);
    var input, output := DataDescription(1, AsU16(s.inputLength)), DataDescription(2, AsU16(s.outputLength));
    var b := SubmoduleBytes(s) + post;
    if kind == 3 {
      assert b == head + (input + (output + post)) && b == head + input + (output + post) && b == (head + input) + output + post;
      HeadFields(s, input + (output + post));
      DescriptionFields(head, 1, AsU16(s.inputLength), output + post);
      DescriptionFields(head + input, 2, AsU16(s.outputLength), post);
    } else if kind == 2 {
      assert b == head + (output + post) && b == head + output + post;
      HeadFields(s, output + post);
      DescriptionFields(head, 2, AsU16(s.outputLength), post);
    } else {
      assert b == head + (input + post) && b == head + input + post;
      HeadFields(s, input + post);
      DescriptionFields(head, 1, AsU16(s.inputLength), post);
    }
  }

  lemma HeadFields(s: IoSlot, rest: bytes)
    ensures var b := SubmoduleHead(s) + rest;
            U16At(b, 0) == s.subslot && U32At(b, 2) == s.submoduleIdent && U16At(b, 6) == SubmoduleType(s)
  {
    hide Be16, Be32, U16At, U32At;
    var b, kind := SubmoduleHead(s) + rest, Be16(SubmoduleType(s));
    assert b == [] + Be16(s.subslot) + (Be32(s.submoduleIdent) + kind + rest);
    Read16(b, [], s.subslot, Be32(s.submoduleIdent) + kind + rest);
    assert b == Be16(s.subslot) + Be32(s.submoduleIdent) + (kind + rest);
    Read32(b, Be16(s.subslot), s.submoduleIdent, kind + rest);
    assert b == (Be16(s.subslot) + Be32(s.submoduleIdent)) + kind + rest;
    Read16(b, Be16(s.subslot) + Be32(s.submoduleIdent), SubmoduleType(s), rest);
  }

  lemma DescriptionFields(pre: bytes, kind: u16, len: u16, post: bytes)
    ensures var b := pre + DataDescription(kind, len) + post;
            U16At(b, |pre|) == kind && U16At(b, |pre| + 2) == len
  {
    hide Be16, U16At;
    var b := pre + DataDescription(kind, len) + post;
    assert b == pre + Be16(kind) + (Be16(len) + [1, 1] + post);
    Read16(b, pre, kind, Be16(len) + [1, 1] + post);
    assert b == (pre + Be16(kind)) + Be16(len) + ([1, 1] + post);
    Read16(b, pre + Be16(kind), len, [1, 1] + post);
  }

  lemma SubmoduleReadsBack(s: IoSlot, post: bytes)
    ensures ReadSubmodule(SubmoduleBytes(s) + post) == Some((DeclarationOf(s), post))
  {
    hide SubmoduleBytes;
    SubmoduleFields(s, post);
    assert (SubmoduleBytes(s) + post)[|SubmoduleBytes(s)|..] == post;
  }

  lemma {:induction false} MembersFromFront(members: seq<IoSlot>)
    requires members != []
    ensures MembersBytes(members) == SubmoduleBytes(members[0]) + MembersBytes(members[1..])
  {
    hide SubmoduleBytes;
    var n := |members| - 1;
    if n > 0 {
      MembersFromFront(members[..n]);
      assert members[..n][1..] == members[1..][..n - 1];
    } else {
      assert members[..0] == [] && members[1..] == [];
    }
  }

  lemma NoMembers()
    ensures MembersBytes([]) == []
  {}

  lemma {:induction false} MembersReadBack(members: seq<IoSlot>, post: bytes)
    ensures ReadSubmodules(MembersBytes(members) + post, |members|) == Some((DeclarationsOf(members), post))
    decreases |members|
  {
    hide SubmoduleBytes, MembersBytes, ReadSubmodule, DeclarationOf;
    if members == [] {
      NoMembers();
      assert MembersBytes(members) + post == post;
    } else {
      var rest := MembersBytes(members[1..]) + post;
      MembersFromFront(members);
      assert MembersBytes(members) + post == SubmoduleBytes(members[0]) + rest;
      SubmoduleReadsBack(members[0], rest);
      MembersReadBack(members[1..], post);
      assert DeclarationsOf(members) == [DeclarationOf(members[0])] + DeclarationsOf(members[1..]);
    }
  }

  lemma GroupReadsBack(g: Group, post: bytes)
    requires |g.members| <= 0xFFFF
    ensures ReadModule(GroupBytes(g) + post) == Some((DeclaredModule(g.slot, g.moduleIdent, DeclarationsOf(g.members)), post))
  {
    hide MembersBytes, ReadSubmodules, DeclarationsOf;
    GroupFields(g, post);
    MembersReadBack(g.members, post);
  }

  lemma GroupFields(g: Group, post: bytes)
    requires |g.members| <= 0xFFFF
    ensures var b := GroupBytes(g) + post;
            && |b| >= 14 && U16At(b, 4) == g.slot && U32At(b, 6) == g.moduleIdent && U16At(b, 12) == |g.members|
            && b[14..] == MembersBytes(g.members) + post
  {
    hide MembersBytes, Be16, Be32, U16At, U32At;
    var b := GroupBytes(g) + post;
    var rest := MembersBytes(g.members) + post;
    var a, c, d := Be32(0) + Be16(g.slot), Be32(g.moduleIdent), Be16(0);
    assert b == Be32(0) + Be16(g.slot) + (c + d + Be16(|g.members|) + rest);
    Read16(b, Be32(0), g.slot, c + d + Be16(|g.members|) + rest);
    assert b == a + Be32(g.moduleIdent) + (d + Be16(|g.members|) + rest);
    Read32(b, a, g.moduleIdent, d + Be16(|g.members|) + rest);
    assert b == (a + c + d) + Be16(|g.members|) + rest;
    Read16(b, a + c + d, |g.members|, rest);
  }

  lemma {:induction false} GroupsFromFront(groups: seq<Group>)
    requires groups != []
    ensures GroupsBytes(groups) == GroupBytes(groups[0]) + GroupsBytes(groups[1..])
  {
    hide GroupBytes;
    var n := |groups| - 1;
    if n > 0 {
      GroupsFromFront(groups[..n]);
      assert groups[..n][1..] == groups[1..][..n - 1];
    } else {
      assert groups[..0] == [] && groups[1..] == [];
    }
  }

  lemma NoGroupBytes()
    ensures GroupsBytes([]) == []
  {}

  lemma {:induction false} GroupsReadBack(groups: seq<Group>, post: bytes)
    requires forall g :: g in groups ==> |g.members| <= 0xFFFF
    ensures ReadModules(GroupsBytes(groups) + post, |groups|) == Some((ModulesOf(groups), post))
    decreases |groups|
  {
    hide GroupBytes, GroupsBytes, ReadModule, DeclarationsOf;
    if groups == [] {
      NoGroupBytes();
      assert GroupsBytes(groups) + post == post;
    } else {
      var rest := GroupsBytes(groups[1..]) + post;
      GroupsFromFront(groups);
      assert GroupsBytes(groups) + post == GroupBytes(groups[0]) + rest;
      GroupReadsBack(groups[0], rest);
      GroupsReadBack(groups[1..], post);
      assert ModulesOf(groups) == [DeclaredModule(groups[0].slot, groups[0].moduleIdent, DeclarationsOf(groups[0].members))] + ModulesOf(groups[1..]);
    }
  }

  lemma {:induction false} MembersBounded(groups: seq<Group>, g: Group)
    requires g in groups
    ensures |g.members| <= SumMembers(groups)
  {
    var n := |groups| - 1;
    if g != groups[n] {
      assert g in groups[..n];
      MembersBounded(groups[..n], g);
    }
  }

  lemma GroupsBounded(slots: seq<IoSlot>)
    ensures |Groups(slots)| <= |slots|
    ensures forall g :: g in Groups(slots) ==> |g.members| <= |slots|
  {
    GroupsAreSlots(slots);
    forall g | g in Groups(slots)
      ensures |g.members| <= |slots|
    {
      MembersBounded(Groups(slots), g);
    }
  }

  /** Whatever the slot list, as long as it has at most 65535 entries, the device reads from the
      block the submodules grouped by slot. */
  lemma ExpectedBlockReadsBack(slots: seq<IoSlot>)
    requires |slots| <= 0xFFFF
    ensures ReadExpectedBlock(ExpectedBlock(slots)) == Some(ModulesOf(Groups(slots)))
  {
    hide *;
    GroupsBounded(slots);
    BlockIsCounted(slots);
    CountedGroupsReadBack(ExpectedHeader(slots), Groups(slots));
  }

  function ExpectedHeader(slots: seq<IoSlot>): (r: bytes)
    ensures |r| == 6
  {
    BlockHeader(BLOCK_EXPECTED_SUBMODULE, AsU16(|ExpectedBody(slots)| + 2))
  }

  lemma BlockIsCounted(slots: seq<IoSlot>)
    requires |Groups(slots)| <= 0xFFFF
    ensures ExpectedBlock(slots) == ExpectedHeader(slots) + (Be16(|Groups(slots)|) + GroupsBytes(Groups(slots)))
  {
    hide Groups, GroupsBytes, BlockHeader, Be16;
  }

  lemma CountedGroupsReadBack(header: bytes, groups: seq<Group>)
    requires |header| == 6 && |groups| <= 0xFFFF && forall g :: g in groups ==> |g.members| <= 0xFFFF
    ensures ReadExpectedBlock(header + (Be16(|groups|) + GroupsBytes(groups))) == Some(ModulesOf(groups))
  {
    hide GroupsBytes, ReadModules, ModulesOf, Be16, U16At;
    GroupsReadBack(groups, []);
    BlockContent(header, |groups|, GroupsBytes(groups));
    assert GroupsBytes(groups) + [] == GroupsBytes(groups);
  }

  lemma BlockContent(header: bytes, n: u16, content: bytes)
    requires |header| == 6
    ensures var block := header + (Be16(n) + content);
            |block| >= 8 && U16At(block, 6) == n && block[8..] == content
  {
    var block := header + (Be16(n) + content);
    assert block == header + Be16(n) + content;
    Read16(block, header, n, content);
  }

  // -------------------------------------------------------------------------
  // The whole body
  // -------------------------------------------------------------------------

  const AR_TYPE_IOCAR_SINGLE: u16 := 0x0001
  const AR_PROPERTIES_IOCAR: u32 := 0x0000_0011

  function ConnectRequestBody(arUuid: Uuid, sessionKey: u16, cmMac: Mac, name: bytes, setup: IocrSetup): bytes {
    ArBlockReq(AR_TYPE_IOCAR_SINGLE, arUuid, sessionKey, cmMac, AR_PROPERTIES_IOCAR, name)
    + IocrBlock(IOCR_TYPE_INPUT, 1, setup) + IocrBlock(IOCR_TYPE_OUTPUT, 2, setup)
    + AlarmCrBlock(1, 0, 0) + ExpectedBlock(setup.ioSlots)
  }

  /** Walking by `4 + block_length`: the blocks, if the last ends where the body ends. */
  function Blocks(body: bytes): Option<seq<bytes>>
    decreases |body|
  {
    if body == [] then Some([])
    else if |body| < 4 || |body| < 4 + U16At(body, 2) then None
    else
      var n := 4 + U16At(body, 2);
      match Blocks(body[n..])
      case None => None
      case Some(rest) => Some([body[..n]] + rest)
  }

  /** A block whose length field is right. */
  predicate IsBlock(b: bytes, blockType: u16) {
    |b| >= 4 && U16At(b, 0) == blockType && |b| == 4 + U16At(b, 2)
  }

  lemma FirstBlock(b: bytes, blockType: u16, rest: bytes)
    requires IsBlock(b, blockType)
    ensures Blocks(b + rest) == if Blocks(rest).None? then None else Some([b] + Blocks(rest).value)
  {
    assert U16At(b + rest, 2) == U16At(b, 2);
    assert (b + rest)[..|b|] == b && (b + rest)[|b|..] == rest;
  }

  lemma HeaderMakesBlock(blockType: u16, content: bytes)
    requires |content| + 2 <= 0xFFFF
    ensures IsBlock(BlockHeader(blockType, |content| + 2) + content, blockType)
  {
    var b := BlockHeader(blockType, |content| + 2) + content;
    assert b[..2] == Be16(blockType) && b[2..4] == Be16(|content| + 2);
    Be16At(b, 0, blockType);
    Be16At(b, 2, |content| + 2);
  }

  lemma ArIsBlock(arType: u16, arUuid: Uuid, sessionKey: u16, cmMac: Mac, arProperties: u32, name: bytes)
    requires 54 + |name| <= 0xFFFF
    ensures IsBlock(ArBlockReq(arType, arUuid, sessionKey, cmMac, arProperties, name), BLOCK_AR_REQ)
  {
    hide BlockHeader;
    var content := Be16(arType) + arUuid + Be16(sessionKey) + cmMac + CM_INITIATOR_OBJECT_UUID + Be32(arProperties)
                   + Be16(100) + Be16(0x8892) + Be16(AsU16(|name|)) + name;
    HeaderMakesBlock(BLOCK_AR_REQ, content);
    assert ArBlockReq(arType, arUuid, sessionKey, cmMac, arProperties, name) == BlockHeader(BLOCK_AR_REQ, 54 + |name|) + content;
  }

  lemma {:induction false} EntriesCount(iocrType: u16, slots: seq<IoSlot>, at: nat)
    requires iocrType == IOCR_TYPE_INPUT || iocrType == IOCR_TYPE_OUTPUT
    ensures |DataObjects(iocrType, slots)| + |IocsObjects(iocrType, slots, at)| == |slots|
  {
    if slots != [] {
      EntriesCount(iocrType, slots[..|slots| - 1], at);
    }
  }

  lemma IocrIsBlock(iocrType: u16, iocrReference: u16, setup: IocrSetup)
    requires iocrType == IOCR_TYPE_INPUT || iocrType == IOCR_TYPE_OUTPUT
    requires 50 + 6 * |setup.ioSlots| <= 0xFFFF
    ensures IsBlock(IocrBlock(iocrType, iocrReference, setup), BLOCK_IOCR_REQ)
  {
    hide IocrFixed, DataObjects, IocsObjects, DataEnd, ObjectEntries, IsBlock, Be16, U16At, AsU16, LayoutLength;
    var data, iocs := DataObjects(iocrType, setup.ioSlots), IocsOf(iocrType, setup.ioSlots);
    EntriesCount(iocrType, setup.ioSlots, DataEnd(iocrType, setup.ioSlots));
    var length := 50 + 6 * |data| + 6 * |iocs|;
    var dataLength := AsU16(Max(LayoutLength(iocrType, setup.ioSlots), MIN_DATA_LENGTH));
    var fixed := IocrFixed(iocrType, iocrReference, setup, AsU16(length), dataLength);
    Fits16(length);
    IocrFixedFields(iocrType, iocrReference, setup, AsU16(length), dataLength);
    var rest := Be16(AsU16(|data|)) + ObjectEntries(data) + Be16(AsU16(|iocs|)) + ObjectEntries(iocs);
    assert IocrBlock(iocrType, iocrReference, setup) == fixed + rest;
    FixedMakesBlock(fixed, BLOCK_IOCR_REQ, rest);
  }

  lemma FixedMakesBlock(fixed: bytes, blockType: u16, rest: bytes)
    requires |fixed| >= 4 && U16At(fixed, 0) == blockType && U16At(fixed, 2) == |fixed| + |rest| - 4
    ensures IsBlock(fixed + rest, blockType)
  {
    assert U16At(fixed + rest, 0) == U16At(fixed, 0) && U16At(fixed + rest, 2) == U16At(fixed, 2);
  }

  lemma AlarmCrIsBlock()
    ensures IsBlock(AlarmCrBlock(1, 0, 0), BLOCK_ALARM_CR_REQ)
  {
    hide BlockHeader;
    var content := Be16(1) + Be16(0x8892) + Be32(0) + Be16(1) + Be16(3) + Be16(1) + Be16(200) + Be16(0xC000) + Be16(0xA000);
    HeaderMakesBlock(BLOCK_ALARM_CR_REQ, content);
    assert AlarmCrBlock(1, 0, 0) == BlockHeader(BLOCK_ALARM_CR_REQ, 22) + content;
  }

  lemma ExpectedIsBlock(slots: seq<IoSlot>)
    requires |ExpectedBody(slots)| + 2 <= 0xFFFF
    ensures IsBlock(ExpectedBlock(slots), BLOCK_EXPECTED_SUBMODULE)
  {
    hide ExpectedBody;
    HeaderMakesBlock(BLOCK_EXPECTED_SUBMODULE, ExpectedBody(slots));
  }

  /** The parts of a Connect body fit their length fields. */
  predicate Fits(name: bytes, setup: IocrSetup) {
    54 + |name| <= 0xFFFF && 50 + 6 * |setup.ioSlots| <= 0xFFFF && |ExpectedBody(setup.ioSlots)| + 2 <= 0xFFFF
  }

  /** A device that walks the body by block lengths finds the five blocks, in order, and nothing else. */
  lemma BodyIsFiveBlocks(arUuid: Uuid, sessionKey: u16, cmMac: Mac, name: bytes, setup: IocrSetup)
    requires Fits(name, setup)
    ensures Blocks(ConnectRequestBody(arUuid, sessionKey, cmMac, name, setup)) == Some([
              ArBlockReq(AR_TYPE_IOCAR_SINGLE, arUuid, sessionKey, cmMac, AR_PROPERTIES_IOCAR, name),
              IocrBlock(IOCR_TYPE_INPUT, 1, setup), IocrBlock(IOCR_TYPE_OUTPUT, 2, setup),
              AlarmCrBlock(1, 0, 0), ExpectedBlock(setup.ioSlots)])
    ensures IsBlock(ArBlockReq(AR_TYPE_IOCAR_SINGLE, arUuid, sessionKey, cmMac, AR_PROPERTIES_IOCAR, name), 0x0101)
         && IsBlock(IocrBlock(IOCR_TYPE_INPUT, 1, setup), 0x0102) && IsBlock(IocrBlock(IOCR_TYPE_OUTPUT, 2, setup), 0x0102)
         && IsBlock(AlarmCrBlock(1, 0, 0), 0x0103) && IsBlock(ExpectedBlock(setup.ioSlots), 0x0104)
    ensures ReadArBlock(ArBlockReq(AR_TYPE_IOCAR_SINGLE, arUuid, sessionKey, cmMac, AR_PROPERTIES_IOCAR, name))
            == Some(ArView(1, arUuid, sessionKey, cmMac, CM_INITIATOR_OBJECT_UUID, 0x11, 100, 0x8892, name))
    ensures ReadAlarmCrBlock(AlarmCrBlock(1, 0, 0)) == Some(AlarmCrView(1, 0x8892, 0, 1, 3, 1, 200, 0xC000, 0xA000))
  {
    hide ArBlockReq, IocrBlock, AlarmCrBlock, ExpectedBlock, IsBlock, ReadArBlock, ReadAlarmCrBlock;
    ArReadsBack(AR_TYPE_IOCAR_SINGLE, arUuid, sessionKey, cmMac, AR_PROPERTIES_IOCAR, name);
    AlarmCrReadsBack(1, 0, 0);
    ArIsBlock(AR_TYPE_IOCAR_SINGLE, arUuid, sessionKey, cmMac, AR_PROPERTIES_IOCAR, name);
    IocrIsBlock(IOCR_TYPE_INPUT, 1, setup);
    IocrIsBlock(IOCR_TYPE_OUTPUT, 2, setup);
    AlarmCrIsBlock();
    ExpectedIsBlock(setup.ioSlots);
    FiveBlocks(ArBlockReq(AR_TYPE_IOCAR_SINGLE, arUuid, sessionKey, cmMac, AR_PROPERTIES_IOCAR, name),
               IocrBlock(IOCR_TYPE_INPUT, 1, setup), IocrBlock(IOCR_TYPE_OUTPUT, 2, setup), AlarmCrBlock(1, 0, 0),
               ExpectedBlock(setup.ioSlots));
  }

  lemma FiveBlocks(a: bytes, b: bytes, c: bytes, d: bytes, e: bytes)
    requires IsBlock(a, BLOCK_AR_REQ) && IsBlock(b, BLOCK_IOCR_REQ) && IsBlock(c, BLOCK_IOCR_REQ)
    requires IsBlock(d, BLOCK_ALARM_CR_REQ) && IsBlock(e, BLOCK_EXPECTED_SUBMODULE)
    ensures Blocks(a + b + c + d + e) == Some([a, b, c, d, e])
  {
    hide IsBlock, Blocks;
    NoBlocks();
    assert e + [] == e && [e] + [] == [e] && [d] + [e] == [d, e] && [c] + [d, e] == [c, d, e] && [b] + [c, d, e] == [b, c, d, e];
    OneMoreBlock(e, BLOCK_EXPECTED_SUBMODULE, [], []);
    OneMoreBlock(d, BLOCK_ALARM_CR_REQ, e, [e]);
    OneMoreBlock(c, BLOCK_IOCR_REQ, d + e, [d, e]);
    OneMoreBlock(b, BLOCK_IOCR_REQ, c + (d + e), [c, d, e]);
    OneMoreBlock(a, BLOCK_AR_REQ, b + (c + (d + e)), [b, c, d, e]);
    assert a + b + c + d + e == a + (b + (c + (d + e)));
    assert [a] + [b, c, d, e] == [a, b, c, d, e];
  }

  lemma NoBlocks()
    ensures Blocks([]) == Some([])
  {}

  lemma OneMoreBlock(b: bytes, blockType: u16, rest: bytes, blocks: seq<bytes>)
    requires IsBlock(b, blockType) && Blocks(rest) == Some(blocks)
    ensures Blocks(b + rest) == Some([b] + blocks)
  {
    FirstBlock(b, blockType, rest);
  }
}
