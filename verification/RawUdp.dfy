/** UDP datagrams built by hand and the Internet checksum (src/rawudp.rs; RFC 1071 section 1,
    RFC 791 section 3.1, RFC 768). */
module RawUdp {
  import opened Bytes
  import opened Wrappers
  import opened Ethernet

  const IP_PROTO_UDP: u8 := 17

  type Ip4 = b: bytes | |b| == 4 witness [0, 0, 0, 0]

  // -------------------------------------------------------------------------
  // The checksum
  // -------------------------------------------------------------------------

  /** Sum of the big-endian 16-bit words; an odd last byte is a high byte. */
  function Words(data: bytes): nat {
    if data == [] then 0
    else if |data| == 1 then data[0] * 0x100
    else U16At(data, 0) + Words(data[2..])
  }

  /** Representative of a sum modulo 65535, with 65535 for every sum but zero that is a multiple of it. */
  function Residue(sum: nat): (r: u16) {
    if sum == 0 then 0 else (sum - 1) % 0xFFFF + 1
  }

  lemma {:induction false} WordsAppend(a: bytes, b: bytes)
    requires |a| % 2 == 0
    ensures Words(a + b) == Words(a) + Words(b)
  {
    if a == [] {
      assert a + b == b;
    } else {
      assert (a + b)[2..] == a[2..] + b;
      WordsAppend(a[2..], b);
    }
  }

  lemma {:induction false} WordsBounded(data: bytes)
    ensures Words(data) <= (|data| + 1) / 2 * 0xFFFF
  {
    if |data| > 1 {
      WordsBounded(data[2..]);
    }
  }

  lemma WordOf(v: u16)
    ensures Words(Be16(v)) == v
  {
    assert Be16(v)[2..] == [];
  }

  lemma NoWords()
    ensures Words([]) == 0
  {}

  lemma OneWord(chunk: bytes)
    requires |chunk| == 2
    ensures Words(chunk) == U16At(chunk, 0)
  {
    assert chunk[2..] == [];
  }

  lemma LastByte(b: u8)
    ensures Words([b]) == b as int * 0x100
  {}

  /** The loop of the source; it adds up without overflow whenever the sum fits. */
  method SumBeWords(data: bytes) returns (sum: u32)
    requires Words(data) < 0x1_0000_0000
    ensures sum == Words(data)
  {
    hide Words;
    NoWords();
    sum := 0;
    var i := 0;
    while i + 2 <= |data|
      invariant i % 2 == 0 && i <= |data| && sum == Words(data[..i])
    {
      ghost var chunk := data[i..i + 2];
      assert data[..i + 2] == data[..i] + chunk && data == data[..i + 2] + data[i + 2..];
      OneWord(chunk);
      WordsAppend(data[..i], chunk);
      WordsAppend(data[..i + 2], data[i + 2..]);
      sum := sum + U16At(data, i);
      i := i + 2;
    }
    if i < |data| {
      assert data == data[..i] + [data[i]];
      WordsAppend(data[..i], [data[i]]);
      LastByte(data[i]);
      sum := sum + data[i] as int * 0x100;
    } else {
      assert data[..i] == data;
    }
  }

  /** Folding keeps the residue. */
  lemma FoldKeepsResidue(sum: nat)
    requires sum > 0xFFFF
    ensures 0 < sum % 0x1_0000 + sum / 0x1_0000 < sum
    ensures Residue(sum % 0x1_0000 + sum / 0x1_0000) == Residue(sum)
  {
    var q, r := sum / 0x1_0000, sum % 0x1_0000;
    assert sum - 1 == (q + r - 1) + q * 0xFFFF;
    SameRemainder(q + r - 1, q);
  }

  lemma SameRemainder(x: int, q: nat)
    ensures (x + q * 0xFFFF) % 0xFFFF == x % 0xFFFF
  {}

  /** The fold loop terminates on every u32, without overflow, on the complement of the residue. */
  method FoldChecksum(sum: u32) returns (r: u16)
    ensures r == 0xFFFF - Residue(sum)
  {
    var s := sum;
    while s > 0xFFFF
      invariant Residue(s) == Residue(sum)
    {
      FoldKeepsResidue(s);
      s := s % 0x1_0000 + s / 0x1_0000;
    }
    r := 0xFFFF - s;
  }

  function Checksum(header: bytes): u16 {
    0xFFFF - Residue(Words(header))
  }

  method Ipv4Checksum(header: bytes) returns (r: u16)
    requires Words(header) < 0x1_0000_0000
    ensures r == Checksum(header)
  {
    var sum := SumBeWords(header);
    r := FoldChecksum(sum);
  }

  /** Pseudo-header, UDP header and payload. */
  function PseudoSum(src: Ip4, dst: Ip4, udp: bytes): nat {
    Words(src) + Words(dst) + IP_PROTO_UDP + |udp| + Words(udp)
  }

  /** A computed zero is sent as 0xFFFF. */
  function UdpSum(src: Ip4, dst: Ip4, udp: bytes): (r: u16)
    ensures r != 0
  {
    var c := 0xFFFF - Residue(PseudoSum(src, dst, udp));
    if c == 0 then 0xFFFF else c
  }

  method UdpChecksum(src: Ip4, dst: Ip4, udp: bytes) returns (r: u16)
    requires PseudoSum(src, dst, udp) < 0x1_0000_0000
    ensures r == UdpSum(src, dst, udp)
  {
    var a := SumBeWords(src);
    var b := SumBeWords(dst);
    var c := SumBeWords(udp);
    var sum: u32 := a + b + IP_PROTO_UDP + |udp| + c;
    r := FoldChecksum(sum);
    if r == 0 {
      r := 0xFFFF;
    }
  }

  /** Adding its own checksum makes any sum check out. */
  lemma ComplementCancels(sum: nat)
    ensures Residue(sum + (0xFFFF - Residue(sum))) == 0xFFFF
  {
    if sum > 0 {
      var q := (sum - 1) / 0xFFFF;
      assert sum - 1 == q * 0xFFFF + (Residue(sum) - 1);
      SameRemainder(0xFFFE, q);
    }
  }

  lemma ReplaceWord(before: bytes, v: u16, after: bytes)
    requires |before| % 2 == 0
    ensures Words(before + Be16(v) + after) == Words(before) + v + Words(after)
  {
    WordsAppend(before + Be16(v), after);
    WordsAppend(before, Be16(v));
    WordOf(v);
  }

  /** A header carrying its checksum in any word-aligned field verifies to zero. */
  lemma ChecksumVerifies(before: bytes, after: bytes)
    requires |before| % 2 == 0
    ensures Checksum(before + Be16(Checksum(before + Be16(0) + after)) + after) == 0
  {
    ReplaceWord(before, 0, after);
    ReplaceWord(before, Checksum(before + Be16(0) + after), after);
    ComplementCancels(Words(before) + Words(after));
  }

  /** A sum that checks out. */
  predicate ChecksOut(sum: nat) {
    sum > 0 && sum % 0xFFFF == 0
  }

  lemma ZeroChecksum(data: bytes)
    ensures Checksum(data) == 0 <==> ChecksOut(Words(data))
  {
    hide Words, Residue, ChecksOut;
    FullResidue(Words(data));
  }

  lemma FullResidue(sum: nat)
    ensures Residue(sum) == 0xFFFF <==> ChecksOut(sum)
  {
    if sum > 0 {
      var q, r := (sum - 1) / 0xFFFF, (sum - 1) % 0xFFFF;
      assert sum == q * 0xFFFF + (r + 1) && r < 0xFFFF;
      SameRemainder(r + 1, q);
    }
  }

  /** The code detects the change of any one word, except of 0x0000 to 0xFFFF and back. */
  lemma OneWordErrorDetected(before: bytes, v: u16, w: u16, after: bytes)
    requires |before| % 2 == 0 && Checksum(before + Be16(v) + after) == 0
    ensures Checksum(before + Be16(w) + after) == 0 <==>
            w == v || (v == 0 && w == 0xFFFF) || (v == 0xFFFF && w == 0 && Words(before) + Words(after) > 0)
  {
    hide Words, Checksum, Be16, ChecksOut;
    ReplaceWord(before, v, after);
    ReplaceWord(before, w, after);
    ZeroChecksum(before + Be16(v) + after);
    ZeroChecksum(before + Be16(w) + after);
    ChecksOutAfter(Words(before) + Words(after), v, w);
  }

  lemma ChecksOutAfter(rest: nat, v: u16, w: u16)
    requires ChecksOut(rest + v)
    ensures ChecksOut(rest + w) <==> w == v || (v == 0 && w == 0xFFFF) || (v == 0xFFFF && w == 0 && rest > 0)
  {
    var q := (rest + v) / 0xFFFF;
    if w >= v {
      assert rest + w == (w - v) + q * 0xFFFF;
      SameRemainder(w - v, q);
    } else {
      assert rest + w + 0xFFFF == (0xFFFF + w - v) + q * 0xFFFF;
      SameRemainder(0xFFFF + w - v, q);
      SameRemainder(rest + w, 1);
    }
  }

  // -------------------------------------------------------------------------
  // Frames
  // -------------------------------------------------------------------------

  /** The IPv4 header up to its checksum: IHL 5, DF, TTL 64, protocol 17. */
  function IpHead(totalLength: nat, id: u16): bytes {
    [0x45, 0x00] + Be16(AsU16(totalLength)) + Be16(id) + Be16(0x4000) + [64, IP_PROTO_UDP]
  }

  function IpHeader(totalLength: nat, id: u16, checksum: u16, src: Ip4, dst: Ip4): (r: bytes)
    ensures |r| == 20
  {
    IpHead(totalLength, id) + Be16(checksum) + (src + dst)
  }

  function UdpHead(srcPort: u16, dstPort: u16, length: nat): bytes {
    Be16(srcPort) + Be16(dstPort) + Be16(AsU16(length))
  }

  function Datagram(srcPort: u16, dstPort: u16, checksum: u16, payload: bytes): (r: bytes)
    ensures |r| == 8 + |payload|
  {
    UdpHead(srcPort, dstPort, 8 + |payload|) + Be16(checksum) + payload
  }

  /** What `build_udp_frame` puts behind the Ethernet header. */
  function IpPacket(src: Ip4, dst: Ip4, srcPort: u16, dstPort: u16, id: u16, payload: bytes): bytes {
    var total := 28 + |payload|;
    IpHeader(total, id, Checksum(IpHeader(total, id, 0, src, dst)), src, dst)
    + Datagram(srcPort, dstPort, UdpSum(src, dst, Datagram(srcPort, dstPort, 0, payload)), payload)
  }

  /** Both checksums are patched into their buffers in place. */
  method BuildUdpFrame(srcMac: Mac, dstMac: Mac, src: Ip4, dst: Ip4, srcPort: u16, dstPort: u16, id: u16, payload: bytes)
    returns (frame: bytes)
    requires PseudoSum(src, dst, Datagram(srcPort, dstPort, 0, payload)) < 0x1_0000_0000
    ensures frame == dstMac + srcMac + Be16(ETHERTYPE_IPV4) + IpPacket(src, dst, srcPort, dstPort, id, payload)
  {
    hide Words, Residue;
    var udpLen := 8 + |payload|;
    var totalLen := 20 + udpLen;
    var ip := [0x45, 0x00] + Be16(AsU16(totalLen)) + Be16(id) + Be16(0x4000) + [64, IP_PROTO_UDP];
    ip := ip + [0, 0] + src + dst;
    assert ip == IpHeader(totalLen, id, 0, src, dst);
    WordsBounded(ip);
    var ipChecksum := Ipv4Checksum(ip);
    ip := ip[..10] + Be16(ipChecksum) + ip[12..];
    assert ip == IpHeader(totalLen, id, ipChecksum, src, dst);

    var udp := Be16(srcPort) + Be16(dstPort) + Be16(AsU16(udpLen)) + [0, 0] + payload;
    assert udp == Datagram(srcPort, dstPort, 0, payload);
    var udpChecksum := UdpChecksum(src, dst, udp);
    udp := udp[..6] + Be16(udpChecksum) + udp[8..];
    assert udp == Datagram(srcPort, dstPort, udpChecksum, payload);
    frame := dstMac + srcMac + Be16(ETHERTYPE_IPV4) + ip + udp;
  }

  const MAX_UDP_PAYLOAD := 65507

  /** No payload a datagram can carry overflows the u32 accumulator. */
  lemma NoOverflow(src: Ip4, dst: Ip4, srcPort: u16, dstPort: u16, payload: bytes)
    requires |payload| <= MAX_UDP_PAYLOAD
    ensures PseudoSum(src, dst, Datagram(srcPort, dstPort, 0, payload)) < 0x1_0000_0000
  {
    hide Words;
    WordsBounded(src);
    WordsBounded(dst);
    WordsBounded(Datagram(srcPort, dstPort, 0, payload));
  }

  /** Every IPv4 header built verifies to zero. */
  lemma BuiltHeaderVerifies(totalLength: nat, id: u16, src: Ip4, dst: Ip4)
    ensures Checksum(IpHeader(totalLength, id, Checksum(IpHeader(totalLength, id, 0, src, dst)), src, dst)) == 0
  {
    ChecksumVerifies(IpHead(totalLength, id), src + dst);
  }

  /** The sum is that of the pseudo-header of RFC 768 in front of the datagram: both addresses, a zero byte,
      the protocol number and the length. */
  lemma PseudoHeader(src: Ip4, dst: Ip4, udp: bytes)
    requires |udp| <= 0xFFFF
    ensures PseudoSum(src, dst, udp) == Words(src + dst + [0, 17] + Be16(|udp|) + udp)
  {
    hide Words, Be16;
    var proto: bytes := [0, 17];
    WordsAppend(src + dst + proto + Be16(|udp|), udp);
    WordsAppend(src + dst + proto, Be16(|udp|));
    WordsAppend(src + dst, proto);
    WordsAppend(src, dst);
    WordOf(|udp|);
    OneWord(proto);
  }

  /** Every datagram built verifies to zero with its pseudo-header, payloads of odd length and the
      substitute for zero included, and never claims to have no checksum. */
  lemma BuiltDatagramVerifies(src: Ip4, dst: Ip4, srcPort: u16, dstPort: u16, payload: bytes)
    ensures var c := UdpSum(src, dst, Datagram(srcPort, dstPort, 0, payload));
            c != 0 && 0xFFFF - Residue(PseudoSum(src, dst, Datagram(srcPort, dstPort, c, payload))) == 0
  {
    hide Words, Residue;
    var head := UdpHead(srcPort, dstPort, 8 + |payload|);
    var zeroed := Datagram(srcPort, dstPort, 0, payload);
    var sum := PseudoSum(src, dst, zeroed);
    var c := UdpSum(src, dst, zeroed);
    ReplaceWord(head, 0, payload);
    ReplaceWord(head, c, payload);
    assert PseudoSum(src, dst, Datagram(srcPort, dstPort, c, payload)) == sum + c;
    ComplementCancels(sum);
    if Residue(sum) == 0xFFFF {
      FullResidueTwice(sum);
    }
  }

  lemma FullResidueTwice(sum: nat)
    requires Residue(sum) == 0xFFFF
    ensures Residue(sum + 0xFFFF) == 0xFFFF
  {
    SameRemainder(sum - 1, 1);
  }

  // -------------------------------------------------------------------------
  // Parsing
  // -------------------------------------------------------------------------

  /** What follows the EtherType of an IPv4 frame. */
  function ParseIp(ip: bytes, wantSrc: Ip4, wantDst: Ip4): Option<(bytes, u16)> {
    if |ip| < 20 || ip[0] / 0x10 != 4 then None
    else
      var ihl := ip[0] % 0x10 * 4;
      if ihl < 20 || |ip| < ihl + 8 then None
      else if U16At(ip, 6) % 0x2000 != 0 then None
      else if ip[9] != IP_PROTO_UDP || ip[12..16] != wantSrc || ip[16..20] != wantDst then None
      else
        var length := U16At(ip, ihl + 4);
        if length < 8 || |ip| < ihl + length then None
        else Some((ip[ihl + 8..ihl + length], U16At(ip, ihl)))
  }

  function ParseUdpFrame(frame: bytes, wantSrc: Ip4, wantDst: Ip4): Option<(bytes, u16)> {
    match StripEth(frame, ETHERTYPE_IPV4)
    case Err => None
    case Ok(ip) => ParseIp(ip, wantSrc, wantDst)
  }

  /** An IPv4 header of any length, options included, of an unfragmented UDP datagram. */
  predicate IsUdpHeader(header: bytes, src: Ip4, dst: Ip4) {
    && |header| >= 20 && header[0] / 0x10 == 4 && header[0] % 0x10 * 4 == |header|
    && U16At(header, 6) % 0x2000 == 0 && header[9] == IP_PROTO_UDP
    && header[12..16] == src && header[16..20] == dst
  }

  lemma VersionAndLength(b: u8)
    ensures b / 0x10 == 4 && b % 0x10 * 4 >= 20 <==> 0x45 <= b < 0x50
  {}

  lemma HeaderComesFirst(header: bytes, rest: bytes)
    requires |header| >= 20
    ensures var ip := header + rest;
            && ip[12..16] == header[12..16] && ip[16..20] == header[16..20] && U16At(ip, 6) == U16At(header, 6)
            && ip[0] == header[0] && ip[9] == header[9]
  {}

  /** Exactly the payload comes back, whatever the IP options and the padding behind the datagram, and
      only for the addresses asked for. */
  lemma ParseRecovers(header: bytes, src: Ip4, dst: Ip4, srcPort: u16, dstPort: u16, checksum: u16, payload: bytes, padding: bytes,
                      wantSrc: Ip4, wantDst: Ip4)
    requires IsUdpHeader(header, src, dst) && |payload| <= MAX_UDP_PAYLOAD
    ensures ParseIp(header + Datagram(srcPort, dstPort, checksum, payload) + padding, wantSrc, wantDst)
            == if src == wantSrc && dst == wantDst then Some((payload, srcPort)) else None
  {
    hide Be16, U16At, ParseIp, AsU16;
    var datagram, n, h := Datagram(srcPort, dstPort, checksum, payload), AsU16(8 + |payload|), |header|;
    var ip, rest := header + datagram + padding, Be16(checksum) + payload + padding;
    FitsLengths(payload);
    assert ip == header + Be16(srcPort) + (Be16(dstPort) + Be16(n) + rest);
    Read16(ip, header, srcPort, Be16(dstPort) + Be16(n) + rest);
    assert ip == (header + Be16(srcPort) + Be16(dstPort)) + Be16(n) + rest;
    Read16(ip, header + Be16(srcPort) + Be16(dstPort), n, rest);
    HeaderComesFirst(header, datagram + padding);
    assert ip == header + (datagram + padding);
    assert ip[h + 8..h + (8 + |payload|)] == payload;
    VersionAndLength(header[0]);
    TakenExactlyIf(ip, wantSrc, wantDst);
    assert ip[0] % 0x10 * 4 == h && U16At(ip, 6) % 0x2000 == 0 && U16At(ip, h + 4) == n == 8 + |payload|;
    assert src == wantSrc && dst == wantDst <==> ParseIp(ip, wantSrc, wantDst).Some?;
    if src == wantSrc && dst == wantDst {
      var taken := ParseIp(ip, wantSrc, wantDst).value;
      assert taken.0 == payload && taken.1 == srcPort;
    }
  }

  /** A built frame parses back under any number of VLAN tags and any padding, and only for its own
      addresses: the sender's own outgoing frames are not taken for answers. */
  lemma FrameRoundTrip(srcMac: Mac, dstMac: Mac, tags: bytes, src: Ip4, dst: Ip4, srcPort: u16, dstPort: u16, id: u16,
                       payload: bytes, padding: bytes, wantSrc: Ip4, wantDst: Ip4)
    requires IsTags(tags) && |payload| <= MAX_UDP_PAYLOAD
    ensures ParseUdpFrame(dstMac + srcMac + tags + Be16(0x0800) + (IpPacket(src, dst, srcPort, dstPort, id, payload) + padding),
                          wantSrc, wantDst)
            == if src == wantSrc && dst == wantDst then Some((payload, srcPort)) else None
  {
    hide Words, Residue, ParseIp;
    var total := 28 + |payload|;
    var c := Checksum(IpHeader(total, id, 0, src, dst));
    var header := IpHeader(total, id, c, src, dst);
    HeaderIsUdp(total, id, c, src, dst);
    var u := UdpSum(src, dst, Datagram(srcPort, dstPort, 0, payload));
    ParseRecovers(header, src, dst, srcPort, dstPort, u, payload, padding, wantSrc, wantDst);
    TagsDoNotMatter(dstMac + srcMac, tags, ETHERTYPE_IPV4, IpPacket(src, dst, srcPort, dstPort, id, payload) + padding);
  }

  /** What a receiver finds in a built packet: IHL 5, no type of service, its own length, no fragmentation,
      TTL 64, UDP, addresses and ports where they belong, the datagram's length, and the payload. */
  lemma PacketFields(src: Ip4, dst: Ip4, srcPort: u16, dstPort: u16, id: u16, payload: bytes)
    requires |payload| <= MAX_UDP_PAYLOAD
    ensures var p := IpPacket(src, dst, srcPort, dstPort, id, payload);
            && |p| == 28 + |payload| && p[0] == 0x45 && p[1] == 0 && U16At(p, 2) == |p| && U16At(p, 4) == id && U16At(p, 6) == 0x4000
            && p[8] == 64 && p[9] == 17 && p[12..16] == src && p[16..20] == dst
            && U16At(p, 20) == srcPort && U16At(p, 22) == dstPort && U16At(p, 24) == 8 + |payload| && p[28..] == payload
  {
    hide Be16, U16At, Checksum, UdpSum;
    var total, n := 28 + |payload|, 8 + |payload|;
    var c := Checksum(IpHeader(total, id, 0, src, dst));
    var u := UdpSum(src, dst, Datagram(srcPort, dstPort, 0, payload));
    var header, udp := IpHeader(total, id, c, src, dst), Datagram(srcPort, dstPort, u, payload);
    assert AsU16(total) == total && AsU16(n) == n by { hide *; FitsLengths(payload); }
    HeaderFields(total, id, c, src, dst, udp);
    UdpFields(header, srcPort, dstPort, n, Be16(u) + payload);
    assert header + udp == header + (Be16(srcPort) + Be16(dstPort) + Be16(n)) + (Be16(u) + payload);
    assert (header + udp)[28..] == payload;
  }

  lemma FitsLengths(payload: bytes)
    requires |payload| <= MAX_UDP_PAYLOAD
    ensures AsU16(28 + |payload|) == 28 + |payload| && AsU16(8 + |payload|) == 8 + |payload|
  {}

  lemma HeaderFields(total: u16, id: u16, checksum: u16, src: Ip4, dst: Ip4, rest: bytes)
    ensures var p := IpHeader(total, id, checksum, src, dst) + rest;
            && p[0] == 0x45 && p[1] == 0 && U16At(p, 2) == total && U16At(p, 4) == id && U16At(p, 6) == 0x4000
            && p[8] == 64 && p[9] == 17 && p[12..16] == src && p[16..20] == dst
  {
    hide Be16, U16At;
    var p := IpHeader(total, id, checksum, src, dst) + rest;
    var front, ttl: bytes := [0x45, 0x00], [64, 17];
    assert AsU16(total) == total by { hide *; Fits16(total); }
    var a, b, c, d := Be16(total), Be16(id), Be16(0x4000), Be16(checksum);
    assert p == front + a + (b + c + ttl + d + src + dst + rest);
    Read16(p, front, total, b + c + ttl + d + src + dst + rest);
    assert p == (front + a) + b + (c + ttl + d + src + dst + rest);
    Read16(p, front + a, id, c + ttl + d + src + dst + rest);
    assert p == (front + a + b) + c + (ttl + d + src + dst + rest);
    Read16(p, front + a + b, 0x4000, ttl + d + src + dst + rest);
    assert p[8..10] == ttl && p[8] == p[8..10][0] && p[9] == p[8..10][1];
  }

  lemma UdpFields(header: bytes, srcPort: u16, dstPort: u16, length: u16, rest: bytes)
    requires |header| == 20
    ensures var p := header + (Be16(srcPort) + Be16(dstPort) + Be16(length)) + rest;
            |p| >= 26 && U16At(p, 20) == srcPort && U16At(p, 22) == dstPort && U16At(p, 24) == length
  {
    hide Be16, U16At;
    var a, b, c := Be16(srcPort), Be16(dstPort), Be16(length);
    var p := header + (a + b + c) + rest;
    assert p == header + a + (b + c + rest);
    Read16(p, header, srcPort, b + c + rest);
    assert p == (header + a) + b + (c + rest);
    Read16(p, header + a, dstPort, c + rest);
    assert p == (header + a + b) + c + rest;
    Read16(p, header + a + b, length, rest);
  }

  /** And nothing else is taken for an answer: exactly the IPv4 packets of the wanted addresses that carry a
      whole, unfragmented UDP datagram behind a whole header are, with the bytes the length of the datagram
      names and its source port. */
  lemma TakenExactlyIf(ip: bytes, wantSrc: Ip4, wantDst: Ip4)
    ensures ParseIp(ip, wantSrc, wantDst).Some? <==>
            && |ip| >= 28 && 0x45 <= ip[0] < 0x50
            && var h := ip[0] % 0x10 * 4;
               && h + 8 <= |ip| && U16At(ip, 6) % 0x2000 == 0 && ip[9] == 17 && ip[12..16] == wantSrc && ip[16..20] == wantDst
               && 8 <= U16At(ip, h + 4) <= |ip| - h
    ensures ParseIp(ip, wantSrc, wantDst).Some? ==>
              var h, (payload, port) := ip[0] % 0x10 * 4, ParseIp(ip, wantSrc, wantDst).value;
              payload == ip[h + 8..h + U16At(ip, h + 4)] && port == U16At(ip, h)
  {
    hide U16At;
  }

  lemma HeaderIsUdp(totalLength: nat, id: u16, checksum: u16, src: Ip4, dst: Ip4)
    ensures IsUdpHeader(IpHeader(totalLength, id, checksum, src, dst), src, dst)
  {
    var h := IpHeader(totalLength, id, checksum, src, dst);
    assert h[6..8] == Be16(0x4000);
    Be16At(h, 6, 0x4000);
    assert h[12..16] == src && h[16..20] == dst;
  }
}
