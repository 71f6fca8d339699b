/** Ethernet headers: VLAN tag skipping and EtherType filtering (src/util.rs). */
module Ethernet {
  import opened Bytes
  import opened Wrappers

  const ETHERTYPE_PROFINET: u16 := 0x8892
  const ETHERTYPE_IPV4: u16 := 0x0800
  const TPID_8021Q: u16 := 0x8100
  const TPID_8021AD: u16 := 0x88A8

  type Mac = b: bytes | |b| == 6 witness [0, 0, 0, 0, 0, 0]

  predicate IsTpid(t: u16) {
    t == TPID_8021Q || t == TPID_8021AD
  }

  /** Offset reached by skipping tags from `offset` on. */
  function SkipFrom(frame: bytes, offset: nat): (r: nat)
    ensures r >= offset
    decreases |frame| - offset
  {
    if |frame| >= offset + 4 && IsTpid(U16At(frame, offset)) then SkipFrom(frame, offset + 4) else offset
  }

  method SkipVlanTags(frame: bytes) returns (offset: nat)
    ensures offset == SkipFrom(frame, 12)
  {
    offset := 12;
    while |frame| >= offset + 4 && IsTpid(U16At(frame, offset))
      invariant SkipFrom(frame, offset) == SkipFrom(frame, 12)
      decreases |frame| - offset
    {
      offset := offset + 4;
    }
  }

  function StripEth(frame: bytes, want: u16): (r: Result<bytes>) {
    if |frame| < 14 then Err
    else
      var at := SkipFrom(frame, 12);
      if |frame| < at + 2 then Err
      else if U16At(frame, at) != want then Err
      else Ok(frame[at + 2..])
  }

  /** A run of whole VLAN tags. */
  predicate IsTags(tags: bytes)
    decreases |tags|
  {
    tags == [] || (|tags| >= 4 && IsTpid(U16At(tags, 0)) && IsTags(tags[4..]))
  }

  /** A tag begins with the TPID of 802.1Q or of 802.1ad. */
  lemma OneTag(tag: bytes)
    requires |tag| == 4
    ensures IsTags(tag) <==> tag[..2] == [0x81, 0x00] || tag[..2] == [0x88, 0xA8]
  {
    assert tag[4..] == [] && IsTags(tag[4..]);
  }

  /** Whatever the addresses, exactly the tags are skipped, however many there are. */
  lemma {:induction false} SkipsExactlyTheTags(head: bytes, tags: bytes, rest: bytes)
    requires IsTags(tags)
    requires |rest| < 4 || !IsTpid(U16At(rest, 0))
    ensures SkipFrom(head + tags + rest, |head|) == |head| + |tags|
    decreases |tags|
  {
    var frame := head + tags + rest;
    if tags == [] {
      assert |frame| >= |head| + 4 ==> U16At(frame, |head|) == U16At(rest, 0);
    } else {
      assert U16At(frame, |head|) == U16At(tags, 0);
      assert frame == (head + tags[..4]) + tags[4..] + rest;
      SkipsExactlyTheTags(head + tags[..4], tags[4..], rest);
    }
  }

  /** A tagged frame and an untagged one strip to the same payload. */
  lemma TagsDoNotMatter(macs: bytes, tags: bytes, ethertype: u16, payload: bytes)
    requires |macs| == 12 && IsTags(tags) && !IsTpid(ethertype)
    ensures StripEth(macs + tags + Be16(ethertype) + payload, ethertype) == Ok(payload)
  {
    var rest := Be16(ethertype) + payload;
    var frame := macs + tags + rest;
    assert frame == macs + tags + Be16(ethertype) + payload;
    assert U16At(rest, 0) == ethertype;
    SkipsExactlyTheTags(macs, tags, rest);
    var at := 12 + |tags|;
    assert U16At(frame, at) == U16At(rest, 0);
    assert frame[at + 2..] == payload;
  }
}
